/**
 * The store a client sees, in terms of the commands it gave: 1 is PUT and 2 is DELETE
 * (distributed/include/replication_types.h, server/src/tcp_server.cpp:284-324).
 */
module Commands {
  import opened Types
  import opened Merge
  import opened Levels
  import E = EngineModel
  import ER = EngineRuns
  import ET = EngineTraces
  import R = Replication
  import opened DoubleApply

  datatype Command = Command(op: nat, key: Bytes, value: Bytes)

  /** What a command does to a store. */
  function Obey(c: Command, m: Store): Store {
    if c.op == 1 then m[c.key := c.value] else if c.op == 2 then m - {c.key} else m
  }

  function ObeyAll(cs: seq<Command>, m: Store): Store {
    if cs == [] then m else Obey(cs[|cs| - 1], ObeyAll(cs[..|cs| - 1], m))
  }

  // ---------- what is logged ----------

  ghost predicate IsTrace(run: seq<R.Cluster>, acts: seq<R.Action>, nodes: nat) {
    && |run| == |acts| + 1 && run[0] == R.Start(nodes)
    && forall i :: 0 <= i < |acts| ==> R.Enabled(run[i], acts[i]) && run[i + 1] == R.Next(run[i], acts[i])
  }

  lemma {:induction false} TraceIsRun(run: seq<R.Cluster>, acts: seq<R.Action>, nodes: nat)
    requires IsTrace(run, acts, nodes)
    ensures R.IsRun(run, nodes)
  {
    hide R.Enabled, R.Next;
    forall i | 0 <= i < |run| - 1 ensures R.Steps(run[i], run[i + 1]) {
      assert R.Enabled(run[i], acts[i]) && run[i + 1] == R.Next(run[i], acts[i]);
    }
  }

  lemma {:induction false} TraceFront(run: seq<R.Cluster>, acts: seq<R.Action>, nodes: nat)
    requires IsTrace(run, acts, nodes) && acts != []
    ensures var n := |acts| - 1;
            && |run| == |acts| + 1 && IsTrace(run[..|acts|], acts[..n], nodes)
            && R.Enabled(run[n], acts[n]) && run[|acts|] == R.Next(run[n], acts[n])
  {
    hide R.Enabled, R.Next;
    var n := |acts| - 1;
    forall i | 0 <= i < n
      ensures R.Enabled(run[i], acts[..n][i]) && run[..|acts|][i + 1] == R.Next(run[i], acts[..n][i])
    {
      assert R.Enabled(run[i], acts[i]) && run[i + 1] == R.Next(run[i], acts[i]);
    }
  }

  /** The commands given, in the order in which the leader appended them. */
  function CommandsIn(acts: seq<R.Action>): seq<Command> {
    if acts == [] then []
    else
      var a := acts[|acts| - 1];
      CommandsIn(acts[..|acts| - 1]) + if a.Append? then [Command(a.op, a.key, a.value)] else []
  }

  /** An entry of the log records the command at its place. */
  predicate Logs(e: R.LogEntry, c: Command) {
    e.op == c.op && e.key == c.key && e.value == c.value
  }

  ghost predicate LogsAll(log: seq<R.LogEntry>, cs: seq<Command>) {
    |log| == |cs| && forall n :: 0 <= n < |cs| ==> Logs(log[n], cs[n])
  }

  lemma {:induction false} AppendLogs(c: R.Cluster, a: R.Action)
    requires R.Enabled(c, a)
    ensures if a.Append?
            then |R.Next(c, a).log| == |c.log| + 1 && c.log <= R.Next(c, a).log
                 && Logs(R.Next(c, a).log[|c.log|], Command(a.op, a.key, a.value))
            else R.Next(c, a).log == c.log
  {
  }

  /** The log holds the commands, each with its own operation, key and value, in the order of the appends. */
  lemma {:induction false} LogIsCommands(run: seq<R.Cluster>, acts: seq<R.Action>, nodes: nat)
    requires IsTrace(run, acts, nodes)
    ensures LogsAll(run[|acts|].log, CommandsIn(acts))
  {
    hide R.Enabled, R.Next, IsTrace, Logs;
    if acts == [] {
      TraceStart(run, nodes);
    } else {
      var n := |acts| - 1;
      TraceFront(run, acts, nodes);
      LogIsCommands(run[..|acts|], acts[..n], nodes);
      AppendLogs(run[n], acts[n]);
    }
  }

  lemma {:induction false} TraceStart(run: seq<R.Cluster>, nodes: nat)
    requires IsTrace(run, [], nodes)
    ensures run == [R.Start(nodes)]
  {
  }

  /** A command, once appended, stays where it is. */
  lemma {:induction false} CommandStays(run: seq<R.Cluster>, nodes: nat, j: nat, i: nat, a: R.Action)
    requires R.IsRun(run, nodes) && j < i < |run|
    requires a.Append? && R.Enabled(run[j], a) && run[j + 1] == R.Next(run[j], a)
    ensures var n := |run[j].log|; n < |run[i].log| && Logs(run[i].log[n], Command(a.op, a.key, a.value))
    decreases i - j
  {
    hide R.Enabled, R.Next;
    if i == j + 1 {
      AppendLogs(run[j], a);
    } else {
      CommandStays(run, nodes, j, i - 1, a);
      assert R.Steps(run[i - 1], run[i]);
      var b :| R.Enabled(run[i - 1], b) && run[i] == R.Next(run[i - 1], b);
      AppendLogs(run[i - 1], b);
    }
  }

  // ---------- stores ----------

  /** Executing entries is obeying the commands they record. */
  lemma {:induction false} ExecutingIsObeying(es: seq<R.LogEntry>, cs: seq<Command>, m: Store)
    requires LogsAll(es, cs)
    ensures ExecuteAll(es, m) == ObeyAll(cs, m)
  {
    if es != [] {
      var n := |es| - 1;
      assert Logs(es[n], cs[n]);
      ExecutingIsObeying(es[..n], cs[..n], m);
    }
  }

  /** In every run a follower's store is what the first so many commands make, as many as it has applied. */
  lemma {:induction false} FollowerObeys(run: seq<R.Cluster>, acts: seq<R.Action>, nodes: nat, f: nat)
    requires IsTrace(run, acts, nodes) && f < nodes
    ensures |run[|acts|].followers| == nodes
    ensures var x := run[|acts|].followers[f];
            x.lastApplied <= |CommandsIn(acts)| && FollowerStore(x) == ObeyAll(CommandsIn(acts)[..x.lastApplied], map[])
  {
    hide ExecuteAll, ObeyAll, IsTrace, R.IsRun, Logs;
    TraceIsRun(run, acts, nodes);
    TraceLength(run, acts, nodes);
    LogIsCommands(run, acts, nodes);
    R.AppliedIsLogPrefix(run, nodes, |acts|, f);
    var x := run[|acts|].followers[f];
    ExecutingIsObeying(x.applied, CommandsIn(acts)[..x.lastApplied], map[]);
  }

  lemma {:induction false} TraceLength(run: seq<R.Cluster>, acts: seq<R.Action>, nodes: nat)
    requires IsTrace(run, acts, nodes)
    ensures |run| == |acts| + 1
  {
  }

  /** If commands on the same key never overlap, the drained leader holds what its commands make. */
  lemma {:induction false} LeaderObeys(run: seq<R.Cluster>, acts: seq<R.Action>, nodes: nat)
    requires IsTrace(run, acts, nodes) && Drained(run[|acts|])
    requires forall j :: 0 <= j < |acts| ==> KeyFreeSteps(run[j], run[j + 1])
    ensures LeaderStore(run[|acts|]) == ObeyAll(CommandsIn(acts), map[])
  {
    hide ExecuteAll, ObeyAll, IsTrace, R.IsRun, Logs, LeaderStore, KeyFreeSteps;
    TraceIsRun(run, acts, nodes);
    TraceLength(run, acts, nodes);
    LogIsCommands(run, acts, nodes);
    DisjointCommandsLikeLog(run, nodes, |acts|);
    ExecutingIsObeying(run[|acts|].log, CommandsIn(acts), map[]);
  }

  // ---------- the engine underneath ----------

  /** The engine writes that executing the entries makes. */
  function EngineWrites(es: seq<R.LogEntry>): seq<E.Action> {
    if es == [] then []
    else
      var e := es[|es| - 1];
      EngineWrites(es[..|es| - 1])
      + (if e.op == 1 then [E.Write(e.key, e.value, PUT)]
         else if e.op == 2 then [E.Write(e.key, e.value, DELETE)]
         else [])
  }

  /** An engine run that makes exactly these writes has the history the store law speaks of. */
  lemma {:induction false} HistoryOfRun(run: seq<E.State>, acts: seq<E.Action>, es: seq<R.LogEntry>)
    requires ET.IsTrace(run, acts) && ET.WritesIn(acts) == EngineWrites(es)
    ensures run[|acts|].hist == HistoryOf(es)
  {
    hide ET.IsTrace, ET.WritesIn, EngineWrites, HistoryOf;
    ET.TraceLength(run, acts);
    ET.HistIsWrites(run, acts);
    HistoryIsWrites(es);
    var hist := run[|acts|].hist;
    forall n | 0 <= n < |hist| ensures hist[n] == HistoryOf(es)[n] {
      assert hist[n] == Rec(hist[n].key, Entry(hist[n].entry.value, hist[n].entry.seqNo, hist[n].entry.kind));
    }
  }

  lemma {:induction false} HistoryIsWrites(es: seq<R.LogEntry>)
    ensures var h, ws := HistoryOf(es), EngineWrites(es);
            && |h| == |ws|
            && forall n :: 0 <= n < |h| ==>
                 && ws[n].Write?
                 && h[n] == Rec(ws[n].key, Entry(if ws[n].kind == PUT then ws[n].value else [], n + 1, ws[n].kind))
  {
    if es != [] { HistoryIsWrites(es[..|es| - 1]); }
  }

  /** Such an engine answers every key from the store, unless a compaction has uncovered the key. */
  lemma {:induction false} EngineServesStore(run: seq<E.State>, acts: seq<E.Action>, es: seq<R.LogEntry>, k: Bytes)
    requires ET.IsTrace(run, acts) && ET.WritesIn(acts) == EngineWrites(es)
    ensures var s := run[|acts|];
            && LevelsOk(s.levels)
            && (!ER.Uncovered(run, |acts|, k) ==>
                  ValueAt(ExecuteAll(es, map[]), k)
                  == if E.Lookup(s, k).Some? then Some(E.Lookup(s, k).value.value) else None)
            && (k in ExecuteAll(es, map[]) ==>
                  E.Lookup(s, k).Some? && E.Lookup(s, k).value.value == ExecuteAll(es, map[])[k])
  {
    hide ET.IsTrace, E.Lookup, ER.Uncovered, ExecuteAll, E.LastWrite;
    ET.TraceIsRun(run, acts);
    ET.TraceLength(run, acts);
    HistoryOfRun(run, acts, es);
    EngineHoldsStore(es, k);
    ER.GetExact(run, |acts|, k);
  }
}
