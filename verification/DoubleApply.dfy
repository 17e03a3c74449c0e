/**
 * A leader executes every write twice: once in the command handler and once through its apply loop
 * (server/src/tcp_server.cpp:290-324, 361-377, distributed/replication/leader.cpp:94-105).
 */
module DoubleApply {
  import opened Types
  import opened Merge
  import opened EngineModel
  import R = Replication
  import D = Delivery

  type Store = map<Bytes, Bytes>

  const PUT_OP := 1
  const DELETE_OP := 2

  predicate Writes(e: R.LogEntry, k: Bytes) {
    e.key == k && (e.op == PUT_OP || e.op == DELETE_OP)
  }

  /** `applyLogEntry`, also what the command handler does locally. */
  function Execute(e: R.LogEntry, m: Store): Store {
    if e.op == PUT_OP then m[e.key := e.value]
    else if e.op == DELETE_OP then m - {e.key}
    else m
  }

  function ExecuteAll(es: seq<R.LogEntry>, m: Store): Store {
    if es == [] then m else Execute(es[|es| - 1], ExecuteAll(es[..|es| - 1], m))
  }

  /** `c` interleaves `a` and `b`, each in its own order. */
  ghost predicate Interleaves(a: seq<R.LogEntry>, b: seq<R.LogEntry>, c: seq<R.LogEntry>)
    decreases |c|
  {
    if c == [] then a == [] && b == []
    else
      || (a != [] && a[|a| - 1] == c[|c| - 1] && Interleaves(a[..|a| - 1], b, c[..|c| - 1]))
      || (b != [] && b[|b| - 1] == c[|c| - 1] && Interleaves(a, b[..|b| - 1], c[..|c| - 1]))
  }

  /** The last entry that writes `k`. */
  function LastFor(es: seq<R.LogEntry>, k: Bytes): Option<R.LogEntry> {
    if es == [] then None
    else if Writes(es[|es| - 1], k) then Some(es[|es| - 1])
    else LastFor(es[..|es| - 1], k)
  }

  function ValueAt(m: Store, k: Bytes): Option<Bytes> {
    if k in m then Some(m[k]) else None
  }

  function Effect(e: R.LogEntry): Option<Bytes> {
    if e.op == PUT_OP then Some(e.value) else None
  }

  /** Execution of a log, key by key. */
  lemma {:induction false} ExecutedValue(es: seq<R.LogEntry>, m: Store, k: Bytes)
    ensures ValueAt(ExecuteAll(es, m), k)
            == if LastFor(es, k).Some? then Effect(LastFor(es, k).value) else ValueAt(m, k)
    ensures LastFor(es, k).Some? ==> Writes(LastFor(es, k).value, k)
  {
    if es != [] { ExecutedValue(es[..|es| - 1], m, k); }
  }

  /** The last write to a key in an interleaving is the last one of either stream. */
  lemma {:induction false} InterleavedLast(a: seq<R.LogEntry>, b: seq<R.LogEntry>, c: seq<R.LogEntry>, k: Bytes)
    requires Interleaves(a, b, c)
    ensures LastFor(c, k) == LastFor(a, k) || LastFor(c, k) == LastFor(b, k)
    ensures LastFor(c, k).None? ==> LastFor(a, k).None? && LastFor(b, k).None?
    decreases |c|
  {
    if c != [] {
      var c' := c[..|c| - 1];
      if a != [] && a[|a| - 1] == c[|c| - 1] && Interleaves(a[..|a| - 1], b, c') {
        InterleavedLast(a[..|a| - 1], b, c', k);
      } else {
        InterleavedLast(a, b[..|b| - 1], c', k);
      }
    }
  }

  lemma {:induction false} StoresEqual(m: Store, n: Store)
    requires forall k :: ValueAt(m, k) == ValueAt(n, k)
    ensures m == n
  {
    forall k ensures (k in m <==> k in n) && (k in m ==> m[k] == n[k]) { assert ValueAt(m, k) == ValueAt(n, k); }
    assert m.Keys == n.Keys;
  }

  /** Running the log twice, interleaved in any way that keeps both orders, ends like running it once. */
  lemma {:induction false} TwiceIsOnce(log: seq<R.LogEntry>, c: seq<R.LogEntry>, m: Store)
    requires Interleaves(log, log, c)
    ensures ExecuteAll(c, m) == ExecuteAll(log, m)
  {
    forall k ensures ValueAt(ExecuteAll(c, m), k) == ValueAt(ExecuteAll(log, m), k) {
      InterleavedLast(log, log, c, k);
      ExecutedValue(c, m, k);
      ExecutedValue(log, m, k);
    }
    StoresEqual(ExecuteAll(c, m), ExecuteAll(log, m));
  }

  lemma {:induction false} OneAfterTheOther(a: seq<R.LogEntry>, b: seq<R.LogEntry>)
    ensures Interleaves(a, b, b + a)
    decreases |a| + |b|
  {
    var c := b + a;
    if a != [] {
      assert c[..|c| - 1] == b + a[..|a| - 1];
      OneAfterTheOther(a[..|a| - 1], b);
    } else if b != [] {
      assert c == b && c[..|c| - 1] == b[..|b| - 1] + [];
      OneAfterTheOther([], b[..|b| - 1]);
    }
  }

  lemma {:induction false} LastOfConcat(a: seq<R.LogEntry>, b: seq<R.LogEntry>, k: Bytes)
    ensures LastFor(b + a, k) == if LastFor(a, k).Some? then LastFor(a, k) else LastFor(b, k)
  {
    if a == [] {
      assert b + a == b;
    } else {
      assert (b + a)[..|b + a| - 1] == b + a[..|a| - 1];
      LastOfConcat(a[..|a| - 1], b, k);
    }
  }

  /** The two streams end every key alike. */
  ghost predicate EndAlike(local: seq<R.LogEntry>, log: seq<R.LogEntry>) {
    forall k :: LastFor(local, k).Some? && LastFor(log, k).Some? ==>
      Effect(LastFor(local, k).value) == Effect(LastFor(log, k).value)
  }

  lemma {:induction false} AlikeSuffices(local: seq<R.LogEntry>, log: seq<R.LogEntry>, c: seq<R.LogEntry>, m: Store)
    requires forall k :: LastFor(local, k).Some? <==> LastFor(log, k).Some?
    requires EndAlike(local, log) && Interleaves(local, log, c)
    ensures ExecuteAll(c, m) == ExecuteAll(log, m)
  {
    forall k ensures ValueAt(ExecuteAll(c, m), k) == ValueAt(ExecuteAll(log, m), k) {
      InterleavedLast(local, log, c, k);
      ExecutedValue(c, m, k);
      ExecutedValue(log, m, k);
      assert LastFor(local, k).Some? <==> LastFor(log, k).Some?;
    }
    StoresEqual(ExecuteAll(c, m), ExecuteAll(log, m));
  }

  lemma {:induction false} AlikeNeeded(local: seq<R.LogEntry>, log: seq<R.LogEntry>, m: Store)
    requires ExecuteAll(log + local, m) == ExecuteAll(log, m)
    ensures EndAlike(local, log)
  {
    forall k | LastFor(local, k).Some? && LastFor(log, k).Some?
      ensures Effect(LastFor(local, k).value) == Effect(LastFor(log, k).value)
    {
      LastOfConcat(local, log, k);
      ExecutedValue(log + local, m, k);
      ExecutedValue(log, m, k);
    }
  }

  /** Every interleaving of the two streams ends like the log. */
  ghost predicate AlwaysLikeLog(local: seq<R.LogEntry>, log: seq<R.LogEntry>, m: Store) {
    forall c :: Interleaves(local, log, c) ==> ExecuteAll(c, m) == ExecuteAll(log, m)
  }

  /**
   * Without serialized commands the local stream may have another order than the log. Every
   * interleaving then ends like the log exactly if each key's last local write has the effect of its
   * last logged one.
   */
  lemma {:induction false} ConcurrentExact(local: seq<R.LogEntry>, log: seq<R.LogEntry>, m: Store)
    requires forall k :: LastFor(local, k).Some? <==> LastFor(log, k).Some?
    ensures AlwaysLikeLog(local, log, m) <==> EndAlike(local, log)
  {
    hide EndAlike, ExecuteAll, Interleaves;
    if AlwaysLikeLog(local, log, m) {
      OneAfterTheOther(local, log);
      AlikeNeeded(local, log, m);
    }
    if EndAlike(local, log) {
      forall c | Interleaves(local, log, c) ensures ExecuteAll(c, m) == ExecuteAll(log, m) {
        AlikeSuffices(local, log, c, m);
      }
    }
  }

  // ---------- the leader's engine in a run ----------

  function Locals(es: seq<R.Execution>): seq<R.LogEntry> {
    if es == [] then []
    else Locals(es[..|es| - 1]) + if es[|es| - 1].Local? then [es[|es| - 1].entry] else []
  }

  function Applies(es: seq<R.Execution>): seq<R.LogEntry> {
    if es == [] then []
    else Applies(es[..|es| - 1]) + if es[|es| - 1].Applied? then [es[|es| - 1].entry] else []
  }

  function Entries(es: seq<R.Execution>): seq<R.LogEntry> {
    seq(|es|, i requires 0 <= i < |es| => es[i].entry)
  }

  /** The engine sees an interleaving of the two streams. */
  lemma {:induction false} StreamsInterleave(es: seq<R.Execution>)
    ensures Interleaves(Locals(es), Applies(es), Entries(es))
  {
    if es != [] {
      var init, x := es[..|es| - 1], es[|es| - 1];
      StreamsInterleave(init);
      assert Entries(es) == Entries(init) + [x.entry];
      assert Entries(es)[..|es| - 1] == Entries(init);
      if x.Local? {
        assert Locals(es)[..|Locals(es)| - 1] == Locals(init) && Applies(es) == Applies(init);
      } else {
        assert Applies(es)[..|Applies(es)| - 1] == Applies(init) && Locals(es) == Locals(init);
      }
    }
  }

  /** The last write to a key that reached the engine. */
  function LastRun(es: seq<R.Execution>, k: Bytes): Option<R.Execution> {
    if es == [] then None
    else if Writes(es[|es| - 1].entry, k) then Some(es[|es| - 1])
    else LastRun(es[..|es| - 1], k)
  }

  lemma {:induction false} LastRunIs(es: seq<R.Execution>, k: Bytes)
    ensures var r := LastRun(es, k);
            if r.None? then LastFor(Entries(es), k).None? && LastFor(Applies(es), k).None?
            else
              && Writes(r.value.entry, k) && LastFor(Entries(es), k) == Some(r.value.entry)
              && LastFor(if r.value.Local? then Locals(es) else Applies(es), k) == Some(r.value.entry)
  {
    if es != [] {
      var init, x := es[..|es| - 1], es[|es| - 1];
      LastRunIs(init, k);
      LastOfConcat([x.entry], Entries(init), k);
      assert Entries(es) == Entries(init) + [x.entry];
      LastOfOne(x.entry, k);
      if x.Local? {
        LastOfConcat([x.entry], Locals(init), k);
        assert Applies(es) == Applies(init);
      } else {
        LastOfConcat([x.entry], Applies(init), k);
        assert Locals(es) == Locals(init);
      }
    }
  }

  lemma {:induction false} LastOfOne(e: R.LogEntry, k: Bytes)
    ensures LastFor([e], k) == if Writes(e, k) then Some(e) else None
  {
    assert [e][..0] == [];
  }

  lemma {:induction false} LastOfMember(es: seq<R.LogEntry>, e: R.LogEntry, k: Bytes)
    requires e in es && Writes(e, k)
    ensures LastFor(es, k).Some?
  {
    if !Writes(es[|es| - 1], k) { LastOfMember(es[..|es| - 1], e, k); }
  }

  ghost predicate Owes(owed: map<nat, R.LogEntry>, e: R.LogEntry) {
    exists n :: n in owed && owed[n] == e
  }

  /** Each entry of the log has been written locally or is still owed, and nothing else is. */
  ghost predicate Balanced(log: seq<R.LogEntry>, local: seq<R.LogEntry>, owed: map<nat, R.LogEntry>) {
    && (forall e :: e in log <==> e in local || Owes(owed, e))
    && |local| + |owed| == |log|
  }

  lemma {:induction false} BalancedAppend(log: seq<R.LogEntry>, local: seq<R.LogEntry>, owed: map<nat, R.LogEntry>,
                                          n: nat, e: R.LogEntry)
    requires Balanced(log, local, owed) && n !in owed
    ensures Balanced(log + [e], local, owed[n := e])
  {
    var more := owed[n := e];
    assert more.Keys == owed.Keys + {n};
    forall x ensures Owes(more, x) <==> x == e || Owes(owed, x) {
      if x == e { assert more[n] == x; }
      if Owes(owed, x) {
        var j :| j in owed && owed[j] == x;
        assert more[j] == x;
      }
    }
  }

  lemma {:induction false} BalancedWrite(log: seq<R.LogEntry>, local: seq<R.LogEntry>, owed: map<nat, R.LogEntry>,
                                         n: nat)
    requires Balanced(log, local, owed) && n in owed
    ensures Balanced(log, local + [owed[n]], owed - {n})
  {
    var less := owed - {n};
    assert less.Keys == owed.Keys - {n};
    forall x ensures Owes(owed, x) <==> x == owed[n] || Owes(less, x) {
      if x != owed[n] && Owes(owed, x) {
        var j :| j in owed && owed[j] == x;
        assert less[j] == x;
      }
    }
  }

  /** What the leader's engine has seen of the log, and what its commands still owe it. */
  ghost predicate LocalInv(c: R.Cluster) {
    && Applies(c.engine) == c.applied && c.calls.Keys <= c.owed.Keys
    && Balanced(c.log, Locals(c.engine), c.owed)
  }

  lemma {:induction false} ExecutionAppended(es: seq<R.Execution>, x: R.Execution)
    ensures Locals(es + [x]) == Locals(es) + if x.Local? then [x.entry] else []
    ensures Applies(es + [x]) == Applies(es) + if x.Applied? then [x.entry] else []
  {
    assert (es + [x])[..|es|] == es;
  }

  lemma {:induction false} LocalWriteStep(c: R.Cluster, n: nat)
    requires LocalInv(c) && R.Enabled(c, R.LocalWrite(n))
    ensures LocalInv(R.Next(c, R.LocalWrite(n)))
  {
    hide Locals, Applies, Balanced;
    ExecutionAppended(c.engine, R.Local(c.owed[n]));
    assert Applies(c.engine) + [] == Applies(c.engine);
    BalancedWrite(c.log, Locals(c.engine), c.owed, n);
  }

  lemma {:induction false} AppendOwes(c: R.Cluster, a: R.Action)
    requires LocalInv(c) && R.Enabled(c, a) && a.Append?
    ensures LocalInv(R.Next(c, a))
  {
    hide Locals, Applies, Balanced;
    BalancedAppend(c.log, Locals(c.engine), c.owed, a.call, R.Next(c, a).owed[a.call]);
  }

  lemma {:induction false} LocalInvStep(c: R.Cluster, a: R.Action)
    requires LocalInv(c) && R.Enabled(c, a)
    ensures LocalInv(R.Next(c, a))
  {
    hide Locals, Applies, Balanced;
    if a.LocalWrite? {
      LocalWriteStep(c, a.call);
    } else if a.LeaderApply? {
      ExecutionAppended(c.engine, R.Applied(R.FindIndexed(c.log, c.lastApplied + 1).value));
      assert Locals(c.engine) + [] == Locals(c.engine);
    } else if a.Append? {
      AppendOwes(c, a);
    }
  }

  lemma {:induction false} RunLocalInv(run: seq<R.Cluster>, nodes: nat, i: nat)
    requires R.IsRun(run, nodes) && i < |run|
    ensures LocalInv(run[i])
  {
    if i > 0 {
      hide LocalInv;
      RunLocalInv(run, nodes, i - 1);
      assert R.Steps(run[i - 1], run[i]);
      var a :| R.Enabled(run[i - 1], a) && run[i] == R.Next(run[i - 1], a);
      LocalInvStep(run[i - 1], a);
    }
  }

  /** Every command has written locally, and the apply loop has reached the end of the log. */
  predicate Drained(c: R.Cluster) {
    c.owed == map[] && c.lastApplied == |c.log|
  }

  function LeaderStore(c: R.Cluster): Store {
    ExecuteAll(Entries(c.engine), map[])
  }

  function FollowerStore(f: R.Follower): Store {
    ExecuteAll(f.applied, map[])
  }

  /** If the engine's last write to the key was a local one, it had the effect of the last logged one. */
  predicate Agrees(c: R.Cluster, k: Bytes) {
    var r := LastRun(c.engine, k);
    r.Some? && r.value.Local? ==>
      LastFor(c.log, k).Some? && Effect(r.value.entry) == Effect(LastFor(c.log, k).value)
  }

  lemma {:induction false} ValueAgrees(c: R.Cluster, k: Bytes)
    requires R.Inv(c) && LocalInv(c) && Drained(c)
    ensures ValueAt(LeaderStore(c), k) == ValueAt(ExecuteAll(c.log, map[]), k) <==> Agrees(c, k)
  {
    hide LastFor, ExecuteAll, Locals, Applies, Entries, R.Inv, LastRun;
    assert c.applied == c.log by { AppliedAll(c); }
    ExecutedValue(Entries(c.engine), map[], k);
    ExecutedValue(c.log, map[], k);
    LastRunIs(c.engine, k);
    var r := LastRun(c.engine, k);
    if r.Some? && r.value.Local? { LocalIsLogged(c, r.value.entry, k); }
  }

  lemma {:induction false} AppliedAll(c: R.Cluster)
    requires R.Inv(c) && c.lastApplied == |c.log|
    ensures c.applied == c.log
  {
  }

  lemma {:induction false} LocalIsLogged(c: R.Cluster, e: R.LogEntry, k: Bytes)
    requires LocalInv(c) && LastFor(Locals(c.engine), k) == Some(e) && Writes(e, k)
    ensures LastFor(c.log, k).Some?
  {
    LastIsMember(Locals(c.engine), k);
    LastOfMember(c.log, e, k);
  }

  lemma {:induction false} LastIsMember(es: seq<R.LogEntry>, k: Bytes)
    ensures LastFor(es, k).Some? ==> LastFor(es, k).value in es
  {
    if es != [] { LastIsMember(es[..|es| - 1], k); }
  }

  /**
   * In every run, a drained leader and a caught-up follower hold the same store if and only if no key was
   * last written by a local write with another effect than its last logged one. The handlers have by then
   * written every log entry, and as many entries as the log has.
   */
  lemma {:induction false} LeaderMatchesExactly(run: seq<R.Cluster>, nodes: nat, i: nat, f: nat)
    requires R.IsRun(run, nodes) && i < |run| && f < nodes && Drained(run[i])
    requires |run[i].followers| == nodes && run[i].followers[f].lastApplied == |run[i].log|
    ensures LeaderStore(run[i]) == FollowerStore(run[i].followers[f]) <==> forall k :: Agrees(run[i], k)
    ensures |Locals(run[i].engine)| == |run[i].log| && forall e :: e in Locals(run[i].engine) <==> e in run[i].log
  {
    hide LeaderStore, Agrees, ExecuteAll, R.Inv;
    var c := run[i];
    R.RunInv(run, nodes, i);
    RunLocalInv(run, nodes, i);
    R.AppliedIsLogPrefix(run, nodes, i, f);
    assert c.followers[f].applied == c.log;
    forall k ensures ValueAt(LeaderStore(c), k) == ValueAt(ExecuteAll(c.log, map[]), k) <==> Agrees(c, k) {
      ValueAgrees(c, k);
    }
    if forall k :: Agrees(c, k) {
      forall k ensures ValueAt(LeaderStore(c), k) == ValueAt(ExecuteAll(c.log, map[]), k) { assert Agrees(c, k); }
      StoresEqual(LeaderStore(c), ExecuteAll(c.log, map[]));
    }
  }

  // ---------- one command at a time on each key ----------

  /** The entries of one key. */
  function OnKey(es: seq<R.LogEntry>, k: Bytes): seq<R.LogEntry> {
    if es == [] then []
    else OnKey(es[..|es| - 1], k) + if es[|es| - 1].key == k then [es[|es| - 1]] else []
  }

  lemma {:induction false} OnKeyAppended(es: seq<R.LogEntry>, e: R.LogEntry, k: Bytes)
    ensures OnKey(es + [e], k) == OnKey(es, k) + if e.key == k then [e] else []
  {
    assert (es + [e])[..|es|] == es;
  }

  /** The last write to a key is found among the key's entries. */
  lemma {:induction false} LastOnKey(es: seq<R.LogEntry>, k: Bytes)
    ensures LastFor(es, k) == LastFor(OnKey(es, k), k)
  {
    if es != [] {
      var init, e := es[..|es| - 1], es[|es| - 1];
      LastOnKey(init, k);
      assert OnKey(init, k) + [] == OnKey(init, k);
      LastOfConcat([e], OnKey(init, k), k);
      LastOfOne(e, k);
    }
  }

  /** No command starts before the one ahead of it on the same key has written locally. */
  predicate KeyFree(c: R.Cluster, a: R.Action) {
    a.Append? ==> forall n :: n in c.owed ==> c.owed[n].key != a.key
  }

  ghost predicate KeyFreeSteps(c: R.Cluster, d: R.Cluster) {
    exists a :: R.Enabled(c, a) && KeyFree(c, a) && d == R.Next(c, a)
  }

  /** On one key, the local stream is the log but for the entry of the command in progress. */
  ghost predicate KeyFollows(c: R.Cluster, k: Bytes) {
    var log, local := OnKey(c.log, k), OnKey(Locals(c.engine), k);
    || (log == local && forall n :: n in c.owed ==> c.owed[n].key != k)
    || (exists n :: OwedAlone(c.owed, n, k) && log == local + [c.owed[n]])
  }

  ghost predicate OwedAlone(owed: map<nat, R.LogEntry>, n: nat, k: Bytes) {
    n in owed && owed[n].key == k && forall m :: m in owed && owed[m].key == k ==> m == n
  }

  lemma {:induction false} KeyFollowsAppend(c: R.Cluster, a: R.Action, k: Bytes)
    requires KeyFollows(c, k) && R.Enabled(c, a) && a.Append? && KeyFree(c, a)
    ensures KeyFollows(R.Next(c, a), k)
  {
    hide Locals, OnKey;
    var d := R.Next(c, a);
    var e := d.owed[a.call];
    OnKeyAppended(c.log, e, k);
    if a.key == k {
      assert OwedAlone(d.owed, a.call, k);
    } else if n :| OwedAlone(c.owed, n, k) && OnKey(c.log, k) == OnKey(Locals(c.engine), k) + [c.owed[n]] {
      assert OwedAlone(d.owed, n, k);
    }
  }

  lemma {:induction false} KeyFollowsLocal(c: R.Cluster, x: nat, k: Bytes)
    requires KeyFollows(c, k) && R.Enabled(c, R.LocalWrite(x))
    ensures KeyFollows(R.Next(c, R.LocalWrite(x)), k)
  {
    hide Locals, OnKey;
    var d := R.Next(c, R.LocalWrite(x));
    var e := c.owed[x];
    ExecutionAppended(c.engine, R.Local(e));
    OnKeyAppended(Locals(c.engine), e, k);
    if n :| OwedAlone(c.owed, n, k) && OnKey(c.log, k) == OnKey(Locals(c.engine), k) + [c.owed[n]] {
      if e.key != k { assert OwedAlone(d.owed, n, k); }
    }
  }

  lemma {:induction false} KeyFollowsStep(c: R.Cluster, a: R.Action, k: Bytes)
    requires KeyFollows(c, k) && R.Enabled(c, a) && KeyFree(c, a)
    ensures KeyFollows(R.Next(c, a), k)
  {
    hide Locals, OnKey, OwedAlone;
    if a.Append? {
      KeyFollowsAppend(c, a, k);
    } else if a.LocalWrite? {
      KeyFollowsLocal(c, a.call, k);
    } else if a.LeaderApply? {
      ExecutionAppended(c.engine, R.Applied(R.FindIndexed(c.log, c.lastApplied + 1).value));
      assert Locals(R.Next(c, a).engine) == Locals(c.engine);
    }
  }

  lemma {:induction false} KeyFreeRun(run: seq<R.Cluster>, nodes: nat, i: nat, k: Bytes)
    requires R.IsRun(run, nodes) && i < |run| && forall j :: 0 <= j < i ==> KeyFreeSteps(run[j], run[j + 1])
    ensures KeyFollows(run[i], k)
  {
    if i > 0 {
      hide KeyFollows, R.IsRun;
      KeyFreeRun(run, nodes, i - 1, k);
      assert KeyFreeSteps(run[i - 1], run[i]);
      var a :| R.Enabled(run[i - 1], a) && KeyFree(run[i - 1], a) && run[i] == R.Next(run[i - 1], a);
      KeyFollowsStep(run[i - 1], a, k);
    }
  }

  lemma {:induction false} KeyAgrees(run: seq<R.Cluster>, nodes: nat, i: nat, k: Bytes)
    requires R.IsRun(run, nodes) && i < |run| && Drained(run[i])
    requires forall j :: 0 <= j < i ==> KeyFreeSteps(run[j], run[j + 1])
    ensures Agrees(run[i], k)
  {
    hide Locals, OnKey, R.IsRun, KeyFreeSteps, LastRun, LastFor;
    var c := run[i];
    KeyFreeRun(run, nodes, i, k);
    assert OnKey(c.log, k) == OnKey(Locals(c.engine), k);
    LastOnKey(c.log, k);
    LastOnKey(Locals(c.engine), k);
    LastRunIs(c.engine, k);
  }

  /**
   * If commands on the same key never overlap, a drained leader and a caught-up follower hold the same
   * store.
   */
  lemma {:induction false} DisjointCommandsMatch(run: seq<R.Cluster>, nodes: nat, i: nat, f: nat)
    requires R.IsRun(run, nodes) && i < |run| && f < nodes && Drained(run[i])
    requires forall j :: 0 <= j < i ==> KeyFreeSteps(run[j], run[j + 1])
    requires |run[i].followers| == nodes && run[i].followers[f].lastApplied == |run[i].log|
    ensures LeaderStore(run[i]) == FollowerStore(run[i].followers[f])
  {
    hide R.IsRun, KeyFreeSteps, LeaderStore, FollowerStore, Agrees;
    forall k ensures Agrees(run[i], k) { KeyAgrees(run, nodes, i, k); }
    LeaderMatchesExactly(run, nodes, i, f);
  }

  /** In particular the drained leader holds what its log makes. */
  lemma {:induction false} DisjointCommandsLikeLog(run: seq<R.Cluster>, nodes: nat, i: nat)
    requires R.IsRun(run, nodes) && i < |run| && Drained(run[i])
    requires forall j :: 0 <= j < i ==> KeyFreeSteps(run[j], run[j + 1])
    ensures LeaderStore(run[i]) == ExecuteAll(run[i].log, map[])
  {
    hide R.IsRun, KeyFreeSteps, LeaderStore, ExecuteAll, Agrees, R.Inv, LocalInv, Drained;
    R.RunInv(run, nodes, i);
    RunLocalInv(run, nodes, i);
    forall k ensures ValueAt(LeaderStore(run[i]), k) == ValueAt(ExecuteAll(run[i].log, map[]), k) {
      KeyAgrees(run, nodes, i, k);
      ValueAgrees(run[i], k);
    }
    StoresEqual(LeaderStore(run[i]), ExecuteAll(run[i].log, map[]));
  }

  /** No command starts before the one ahead of it has written locally. */
  predicate OneCommand(c: R.Cluster, a: R.Action) {
    a.Append? ==> c.owed == map[]
  }

  ghost predicate OneCommandSteps(c: R.Cluster, d: R.Cluster) {
    exists a :: R.Enabled(c, a) && OneCommand(c, a) && d == R.Next(c, a)
  }

  /** In particular with one command at a time. */
  lemma {:induction false} LeaderMatchesFollower(run: seq<R.Cluster>, nodes: nat, i: nat, f: nat)
    requires R.IsRun(run, nodes) && i < |run| && f < nodes && Drained(run[i])
    requires forall j :: 0 <= j < i ==> OneCommandSteps(run[j], run[j + 1])
    requires |run[i].followers| == nodes && run[i].followers[f].lastApplied == |run[i].log|
    ensures LeaderStore(run[i]) == FollowerStore(run[i].followers[f])
  {
    hide R.IsRun, LeaderStore, FollowerStore, R.Enabled, R.Next, Drained;
    forall j | 0 <= j < i ensures KeyFreeSteps(run[j], run[j + 1]) {
      assert OneCommandSteps(run[j], run[j + 1]);
      var a :| R.Enabled(run[j], a) && OneCommand(run[j], a) && run[j + 1] == R.Next(run[j], a);
      assert KeyFree(run[j], a);
    }
    DisjointCommandsMatch(run, nodes, i, f);
  }

  // ---------- commands that overlap ----------

  ghost predicate SerialRun(run: seq<R.Cluster>) {
    R.IsRun(run, 1) && forall i :: 0 <= i < |run| - 1 ==> D.SerialSteps(run[i], run[i + 1])
  }

  lemma {:induction false} Extend(run: seq<R.Cluster>, a: R.Action) returns (next: seq<R.Cluster>)
    requires SerialRun(run) && R.Enabled(run[|run| - 1], a) && D.Serial(run[|run| - 1], a)
    ensures SerialRun(next) && next != [] && next[|next| - 1] == R.Next(run[|run| - 1], a)
  {
    hide R.Enabled, R.Next;
    next := run + [R.Next(run[|run| - 1], a)];
    assert D.SerialSteps(next[|run| - 1], next[|run|]) && R.Steps(next[|run| - 1], next[|run|]);
    forall i | 0 <= i < |next| - 1 ensures D.SerialSteps(next[i], next[i + 1]) && R.Steps(next[i], next[i + 1]) {
      if i < |run| - 1 { assert D.SerialSteps(run[i], run[i + 1]) && R.Steps(run[i], run[i + 1]); }
    }
  }

  lemma {:induction false} SerialFacts(run: seq<R.Cluster>)
    requires SerialRun(run)
    ensures run != [] && R.Inv(run[|run| - 1])
  {
    R.RunInv(run, 1, |run| - 1);
  }

  lemma {:induction false} SerialStart()
    ensures SerialRun([R.Start(1)])
  {
  }

  /** A whole `replicate` call, undisturbed; its command has not written locally yet. */
  lemma {:induction false} ReplicateUndisturbed(run: seq<R.Cluster>, n: nat, k: Bytes, v: Bytes)
    returns (next: seq<R.Cluster>)
    requires SerialRun(run) && run[|run| - 1].calls == map[] && n !in run[|run| - 1].owed
    ensures SerialRun(next) && next != []
    ensures var c := run[|run| - 1];
            var e := R.LogEntry(0, |c.log| + 1, PUT_OP, k, v);
            next[|next| - 1] == c.(log := c.log + [e], commit := |c.log| + 1, owed := c.owed[n := e],
                                   net := c.net + {R.Message(0, |c.log| + 1, [e])})
  {
    hide SerialRun;
    SerialFacts(run);
    next := Extend(run, R.Append(n, PUT_OP, k, v));
    next := Extend(next, R.Commit(n));
    next := Extend(next, R.ReadCommit(n));
    next := Extend(next, R.ReadBack(n));
    next := Extend(next, R.Ship(n));
    assert next[|next| - 1].calls == map[];
  }

  /** Leader and follower agree on the log and differ in the store. */
  ghost predicate Diverges(c: R.Cluster) {
    && Drained(c) && |c.followers| == 1 && c.followers[0].lastApplied == |c.log|
    && LeaderStore(c) != FollowerStore(c.followers[0])
  }

  /**
   * Two puts of different values to one key, replicated one after the other and written locally in the
   * other order, leave leader and follower with different values.
   */
  lemma {:induction false} DivergenceIsReachable(k: Bytes, v: Bytes, w: Bytes)
    requires v != w
    ensures exists run :: SerialRun(run) && Diverges(run[|run| - 1])
  {
    hide SerialRun, LeaderStore, FollowerStore;
    var x, y := R.LogEntry(0, 1, PUT_OP, k, v), R.LogEntry(0, 2, PUT_OP, k, w);
    var run := [R.Start(1)];
    SerialStart();
    run := ReplicateUndisturbed(run, 1, k, v);
    run := ReplicateUndisturbed(run, 2, k, w);
    run := FollowBoth(run, x, y);
    run := ApplyBoth(run, x, y);
    var c := run[|run| - 1];
    assert R.Enabled(c, R.LocalWrite(2));
    run := Extend(run, R.LocalWrite(2));
    run := Extend(run, R.LocalWrite(1));
    var d := run[|run| - 1];
    assert d.owed == map[];
    DifferentStores(d, x, y);
  }

  /** The follower receives both messages and applies them. */
  lemma {:induction false} FollowBoth(run: seq<R.Cluster>, x: R.LogEntry, y: R.LogEntry) returns (next: seq<R.Cluster>)
    requires SerialRun(run) && run != [] && x.index == 1 && y.index == 2
    requires var c := run[|run| - 1];
             c.net == {R.Message(0, 1, [x]), R.Message(0, 2, [y])} && c.followers == [R.IDLE]
    ensures SerialRun(next) && next != []
    ensures next[|next| - 1] == run[|run| - 1].(followers := [R.Follower([x, y], 0, 2, 2, [x, y])])
  {
    hide SerialRun, R.FindIndexed;
    FindTwo(x, y);
    assert R.IDLE.log + [x] == [x] && [x] + [y] == [x, y];
    next := Extend(run, R.Deliver(0, R.Message(0, 1, [x])));
    assert next[|next| - 1].followers == [R.Follower([x], 0, 1, 0, [])];
    next := Extend(next, R.Deliver(0, R.Message(0, 2, [y])));
    assert next[|next| - 1].followers == [R.Follower([x, y], 0, 2, 0, [])];
    next := Extend(next, R.FollowerApply(0));
    assert next[|next| - 1].followers == [R.Follower([x, y], 0, 2, 1, [x])];
    next := Extend(next, R.FollowerApply(0));
    assert next[|next| - 1].followers == [R.Follower([x, y], 0, 2, 2, [x, y])];
  }

  /** The leader's loop applies both entries. */
  lemma {:induction false} ApplyBoth(run: seq<R.Cluster>, x: R.LogEntry, y: R.LogEntry) returns (next: seq<R.Cluster>)
    requires SerialRun(run) && run != [] && x.index == 1 && y.index == 2
    requires var c := run[|run| - 1];
             c.log == [x, y] && c.commit == 2 && c.lastApplied == 0 && c.applied == [] && c.engine == []
    ensures SerialRun(next) && next != []
    ensures next[|next| - 1]
            == run[|run| - 1].(lastApplied := 2, applied := [x, y], engine := [R.Applied(x), R.Applied(y)])
  {
    hide SerialRun, R.FindIndexed;
    FindTwo(x, y);
    assert [x] + [y] == [x, y];
    next := Extend(run, R.LeaderApply);
    assert next[|next| - 1].engine == [R.Applied(x)] && next[|next| - 1].applied == [x];
    next := Extend(next, R.LeaderApply);
  }

  lemma {:induction false} FindTwo(x: R.LogEntry, y: R.LogEntry)
    requires x.index == 1 && y.index == 2
    ensures R.FindIndexed([x, y], 1) == Some(x) && R.FindIndexed([x, y], 2) == Some(y)
  {
    assert [x, y][1..] == [y];
  }

  lemma {:induction false} DifferentStores(d: R.Cluster, x: R.LogEntry, y: R.LogEntry)
    requires d.engine == [R.Applied(x), R.Applied(y), R.Local(y), R.Local(x)] && |d.followers| == 1
    requires d.followers[0].applied == [x, y] && x.key == y.key && x.op == y.op == PUT_OP && x.value != y.value
    ensures LeaderStore(d) != FollowerStore(d.followers[0])
  {
    assert Entries(d.engine) == [x, y, y, x];
    ExecutedValue([x, y, y, x], map[], x.key);
    ExecutedValue([x, y], map[], x.key);
  }

  // ---------- the engine underneath ----------

  /** The engine's write history when the given entries are executed on it in order. */
  function HistoryOf(es: seq<R.LogEntry>): seq<Rec> {
    if es == [] then []
    else
      var h := HistoryOf(es[..|es| - 1]);
      var e := es[|es| - 1];
      if e.op == PUT_OP then h + [Rec(e.key, Entry(e.value, |h| + 1, PUT))]
      else if e.op == DELETE_OP then h + [Rec(e.key, Entry([], |h| + 1, DELETE))]
      else h
  }

  lemma {:induction false} HistoryStep(h: seq<Rec>, g: seq<Rec>, r: Rec, k: Bytes)
    requires g == h + [r]
    ensures SpecGet(g, k) == if r.key == k then Strip(Some(r.entry)) else SpecGet(h, k)
  {
    assert g[..|g| - 1] == h;
  }

  /** What the engine's specification answers is the store's content. */
  lemma {:induction false} EngineHoldsStore(es: seq<R.LogEntry>, k: Bytes)
    ensures var r := SpecGet(HistoryOf(es), k);
            ValueAt(ExecuteAll(es, map[]), k) == if r.Some? then Some(r.value.value) else None
  {
    hide SpecGet;
    if es == [] {
      NothingWritten(k);
    } else {
      var init, e := es[..|es| - 1], es[|es| - 1];
      EngineHoldsStore(init, k);
      var h, g := HistoryOf(init), HistoryOf(es);
      if e.op == PUT_OP || e.op == DELETE_OP { HistoryStep(h, g, g[|h|], k); }
    }
  }

  lemma {:induction false} NothingWritten(k: Bytes)
    ensures SpecGet([], k) == None
  {
  }
}
