/**
 * Log shipping from one leader to its followers (distributed/replication/leader.cpp, follower.cpp).
 * A command is cut at every point where another one can run; the network may lose, duplicate and
 * reorder messages; nobody restarts.
 */
module Replication {
  import opened Types

  /** `op` is 1 for PUT and 2 for DELETE (distributed/include/replication_types.h). */
  datatype LogEntry = LogEntry(term: nat, index: nat, op: nat, key: Bytes, value: Bytes)

  datatype Message = Message(term: nat, leaderCommit: nat, entries: seq<LogEntry>)

  // ---------- the follower ----------

  datatype Follower = Follower(log: seq<LogEntry>, term: nat, commit: nat, lastApplied: nat, applied: seq<LogEntry>)

  const IDLE := Follower([], 0, 0, 0, [])

  /** `handleReplication`. */
  function Receive(f: Follower, m: Message): Follower {
    f.(term := if m.term > f.term then m.term else f.term,
       log := f.log + m.entries,
       commit := if m.leaderCommit > f.commit then m.leaderCommit else f.commit)
  }

  /** `std::find_if` by index. */
  function FindIndexed(log: seq<LogEntry>, index: nat): Option<LogEntry> {
    if log == [] then None else if log[0].index == index then Some(log[0]) else FindIndexed(log[1..], index)
  }

  predicate CanApply(f: Follower) {
    f.lastApplied < f.commit && FindIndexed(f.log, f.lastApplied + 1).Some?
  }

  /** One round of the apply loop. */
  function ApplyOne(f: Follower): Follower
    requires CanApply(f)
  {
    f.(applied := f.applied + [FindIndexed(f.log, f.lastApplied + 1).value], lastApplied := f.lastApplied + 1)
  }

  /** The apply loop up to where it stops. */
  function ApplyAll(f: Follower): Follower
    decreases f.commit - f.lastApplied
  {
    if CanApply(f) then ApplyAll(ApplyOne(f)) else f
  }

  // ---------- the cluster ----------

  /** Where a `replicate` call stands (distributed/replication/leader.cpp:49, 53, 58, 59, 61). */
  datatype Call = Appended | Committed | CommitRead(commit: nat) | Built(msg: Message)

  /** A write to the leader's engine: by a command handler, or by the apply loop. */
  datatype Execution = Local(entry: LogEntry) | Applied(entry: LogEntry)

  /**
   * `owed` holds the commands that have not written locally yet, which they do once their `replicate`
   * call is over (server/src/tcp_server.cpp:299-324); `engine` is the order of the leader's engine writes.
   */
  datatype Cluster = Cluster(
    log: seq<LogEntry>,
    commit: nat,
    lastApplied: nat,
    applied: seq<LogEntry>,
    calls: map<nat, Call>,
    owed: map<nat, LogEntry>,
    engine: seq<Execution>,
    net: set<Message>,
    followers: seq<Follower>)

  datatype Action =
    | Append(call: nat, op: nat, key: Bytes, value: Bytes)
    | Commit(call: nat)
    | ReadCommit(call: nat)
    | ReadBack(call: nat)
    | Ship(call: nat)
    | LocalWrite(call: nat)
    | Deliver(node: nat, msg: Message)
    | FollowerApply(node: nat)
    | LeaderApply

  predicate Enabled(c: Cluster, a: Action) {
    match a
    case Append(n, _, _, _) => n !in c.calls && n !in c.owed
    case Commit(n) => n in c.calls && c.calls[n] == Appended && c.log != []
    case ReadCommit(n) => n in c.calls && c.calls[n] == Committed
    case ReadBack(n) => n in c.calls && c.calls[n].CommitRead? && c.log != []
    case Ship(n) => n in c.calls && c.calls[n].Built?
    case LocalWrite(n) => n in c.owed && n !in c.calls
    case Deliver(f, m) => f < |c.followers| && m in c.net
    case FollowerApply(f) => f < |c.followers| && CanApply(c.followers[f])
    case LeaderApply => c.lastApplied < c.commit && FindIndexed(c.log, c.lastApplied + 1).Some?
  }

  function Next(c: Cluster, a: Action): Cluster
    requires Enabled(c, a)
  {
    match a
    case Append(n, op, k, v) =>
      var index := if c.log == [] then 1 else c.log[|c.log| - 1].index + 1;
      var e := LogEntry(0, index, op, k, v);
      c.(log := c.log + [e], calls := c.calls[n := Appended], owed := c.owed[n := e])
    case Commit(n) => c.(commit := c.log[|c.log| - 1].index, calls := c.calls[n := Committed])
    case ReadCommit(n) => c.(calls := c.calls[n := CommitRead(c.commit)])
    case ReadBack(n) => c.(calls := c.calls[n := Built(Message(0, c.calls[n].commit, [c.log[|c.log| - 1]]))])
    case Ship(n) => c.(net := c.net + {c.calls[n].msg}, calls := c.calls - {n})
    case LocalWrite(n) => c.(engine := c.engine + [Local(c.owed[n])], owed := c.owed - {n})
    case Deliver(f, m) => c.(followers := c.followers[f := Receive(c.followers[f], m)])
    case FollowerApply(f) => c.(followers := c.followers[f := ApplyOne(c.followers[f])])
    case LeaderApply =>
      var e := FindIndexed(c.log, c.lastApplied + 1).value;
      c.(applied := c.applied + [e], lastApplied := c.lastApplied + 1, engine := c.engine + [Applied(e)])
  }

  function Start(nodes: nat): Cluster {
    Cluster([], 0, 0, [], map[], map[], [], {}, seq(nodes, _ => IDLE))
  }

  // ---------- invariant ----------

  /** The entry stands in the leader's log at its index. */
  ghost predicate Genuine(log: seq<LogEntry>, e: LogEntry) {
    1 <= e.index <= |log| && log[e.index - 1] == e
  }

  ghost predicate GenuineAll(log: seq<LogEntry>, es: seq<LogEntry>) {
    forall i :: 0 <= i < |es| ==> Genuine(log, es[i])
  }

  ghost predicate GenuineMessage(log: seq<LogEntry>, m: Message) {
    m.leaderCommit <= |log| && GenuineAll(log, m.entries)
  }

  ghost predicate CallOk(c: Cluster, call: Call) {
    match call
    case Appended => c.log != []
    case Committed => c.log != []
    case CommitRead(n) => c.log != [] && n <= |c.log|
    case Built(m) => GenuineMessage(c.log, m)
  }

  /** What a follower has applied is exactly the leader's log up to its `last_applied_`. */
  ghost predicate FollowerOk(log: seq<LogEntry>, f: Follower) {
    && GenuineAll(log, f.log) && f.commit <= |log|
    && f.lastApplied <= f.commit && f.applied == log[..f.lastApplied]
    && forall e :: e in f.applied ==> e in f.log
  }

  /** Some message carries the entry. */
  ghost predicate Carries(net: set<Message>, e: LogEntry) {
    exists m :: m in net && e in m.entries
  }

  ghost predicate Inv(c: Cluster) {
    && (forall i :: 0 <= i < |c.log| ==> c.log[i].index == i + 1)
    && c.commit <= |c.log| && c.lastApplied <= c.commit && c.applied == c.log[..c.lastApplied]
    && (forall n :: n in c.calls ==> CallOk(c, c.calls[n]))
    && (forall m :: m in c.net ==> GenuineMessage(c.log, m))
    && (forall f :: 0 <= f < |c.followers| ==> FollowerOk(c.log, c.followers[f]))
    && (forall f, e :: 0 <= f < |c.followers| && e in c.followers[f].log ==> Carries(c.net, e))
  }

  /** A message adds its entries at the end and never lowers term or commit index; it applies nothing. */
  lemma {:induction false} ReceiveAdds(f: Follower, m: Message)
    ensures var g := Receive(f, m);
            && g.log == f.log + m.entries && g.lastApplied == f.lastApplied && g.applied == f.applied
            && g.commit >= f.commit && g.commit >= m.leaderCommit
            && (g.commit == f.commit || g.commit == m.leaderCommit)
            && g.term >= f.term && g.term >= m.term && (g.term == f.term || g.term == m.term)
  {
  }

  lemma {:induction false} FindIndexedSound(log: seq<LogEntry>, index: nat)
    ensures var r := FindIndexed(log, index);
            if r.Some? then r.value in log && r.value.index == index else forall e :: e in log ==> e.index != index
  {
    if log != [] {
      assert log == [log[0]] + log[1..];
      FindIndexedSound(log[1..], index);
    }
  }

  lemma {:induction false} GenuineGrows(log: seq<LogEntry>, e: LogEntry, es: seq<LogEntry>)
    requires GenuineAll(log, es)
    ensures GenuineAll(log + [e], es)
  {
    forall i | 0 <= i < |es| ensures Genuine(log + [e], es[i]) { assert Genuine(log, es[i]); }
  }

  lemma {:induction false} AppendKeepsInv(c: Cluster, a: Action)
    requires Inv(c) && Enabled(c, a) && a.Append?
    ensures Inv(Next(c, a))
  {
    var d := Next(c, a);
    var e := d.log[|c.log|];
    assert d.log == c.log + [e];
    forall m | m in c.net ensures GenuineMessage(d.log, m) { GenuineGrows(c.log, e, m.entries); }
    forall n | n in d.calls ensures CallOk(d, d.calls[n]) {
      if n != a.call && d.calls[n].Built? {
        assert CallOk(c, c.calls[n]);
        GenuineGrows(c.log, e, c.calls[n].msg.entries);
      }
    }
    forall f | 0 <= f < |d.followers| ensures FollowerOk(d.log, d.followers[f]) {
      assert FollowerOk(c.log, c.followers[f]);
      GenuineGrows(c.log, e, c.followers[f].log);
      assert d.log[..d.followers[f].lastApplied] == c.log[..c.followers[f].lastApplied];
    }
    assert d.log[..d.lastApplied] == c.log[..c.lastApplied];
  }

  lemma {:induction false} ReceiveOk(log: seq<LogEntry>, f: Follower, m: Message)
    requires FollowerOk(log, f) && GenuineMessage(log, m)
    ensures FollowerOk(log, Receive(f, m))
  {
  }

  lemma {:induction false} ApplyOneOk(log: seq<LogEntry>, f: Follower)
    requires FollowerOk(log, f) && CanApply(f)
    ensures FollowerOk(log, ApplyOne(f))
  {
    FindIndexedSound(f.log, f.lastApplied + 1);
    var e := FindIndexed(f.log, f.lastApplied + 1).value;
    var i :| 0 <= i < |f.log| && f.log[i] == e;
    assert Genuine(log, f.log[i]);
    assert log[..f.lastApplied + 1] == log[..f.lastApplied] + [log[f.lastApplied]];
  }

  /** Followers hold only what the network carried. */
  lemma {:induction false} CarriedStep(c: Cluster, a: Action, f: nat, e: LogEntry)
    requires Inv(c) && Enabled(c, a)
    requires f < |Next(c, a).followers| && e in Next(c, a).followers[f].log
    ensures Carries(Next(c, a).net, e)
  {
    if a.Deliver? && a.node == f && e in a.msg.entries {
    } else {
      assert e in c.followers[f].log;
      assert Carries(c.net, e);
      var m :| m in c.net && e in m.entries;
      assert m in Next(c, a).net;
    }
  }

  lemma {:induction false} InvStep(c: Cluster, a: Action)
    requires Inv(c) && Enabled(c, a)
    ensures Inv(Next(c, a))
  {
    hide Carries, GenuineAll;
    forall f, e | 0 <= f < |Next(c, a).followers| && e in Next(c, a).followers[f].log
      ensures Carries(Next(c, a).net, e)
    {
      CarriedStep(c, a, f, e);
    }
    match a
    case Append(_, _, _, _) => AppendKeepsInv(c, a);
    case Deliver(f, m) => ReceiveOk(c.log, c.followers[f], m);
    case FollowerApply(f) => ApplyOneOk(c.log, c.followers[f]);
    case LeaderApply =>
      FindIndexedSound(c.log, c.lastApplied + 1);
      assert c.log[c.lastApplied].index == c.lastApplied + 1;
      assert c.log[..c.lastApplied + 1] == c.log[..c.lastApplied] + [c.log[c.lastApplied]];
    case Commit(n) => assert c.log[|c.log| - 1].index == |c.log|; CallsOk(c, Next(c, a), n);
    case ReadCommit(n) => CallsOk(c, Next(c, a), n);
    case ReadBack(n) => BackIsGenuine(c, n); CallsOk(c, Next(c, a), n);
    case LocalWrite(_) =>
    case Ship(n) =>
      assert CallOk(c, c.calls[n]);
      forall j | j in Next(c, a).calls ensures CallOk(Next(c, a), Next(c, a).calls[j]) { assert CallOk(c, c.calls[j]); }
  }

  lemma {:induction false} BackIsGenuine(c: Cluster, n: nat)
    requires Inv(c) && Enabled(c, ReadBack(n))
    ensures GenuineMessage(c.log, Next(c, ReadBack(n)).calls[n].msg)
  {
    assert CallOk(c, c.calls[n]);
  }

  /** A step of one call leaves the others alone. */
  lemma {:induction false} CallsOk(c: Cluster, d: Cluster, n: nat)
    requires Inv(c) && n in c.calls && n in d.calls && d.log == c.log && d.calls == c.calls[n := d.calls[n]]
    requires CallOk(c, c.calls[n]) ==> CallOk(d, d.calls[n])
    ensures forall j :: j in d.calls ==> CallOk(d, d.calls[j])
  {
    forall j | j in d.calls ensures CallOk(d, d.calls[j]) { assert j in c.calls && CallOk(c, c.calls[j]); }
  }

  // ---------- runs ----------

  ghost predicate Steps(c: Cluster, d: Cluster) {
    exists a :: Enabled(c, a) && d == Next(c, a)
  }

  ghost predicate IsRun(run: seq<Cluster>, nodes: nat) {
    run != [] && run[0] == Start(nodes) && forall i :: 0 <= i < |run| - 1 ==> Steps(run[i], run[i + 1])
  }

  lemma {:induction false} StartInv(nodes: nat)
    ensures Inv(Start(nodes)) && |Start(nodes).followers| == nodes
  {
  }

  lemma {:induction false} NodesStay(c: Cluster, a: Action)
    requires Enabled(c, a)
    ensures |Next(c, a).followers| == |c.followers|
  {
  }

  lemma {:induction false} RunInv(run: seq<Cluster>, nodes: nat, i: nat)
    requires IsRun(run, nodes) && i < |run|
    ensures Inv(run[i]) && |run[i].followers| == nodes
  {
    hide Inv, Start, Next, Enabled;
    if i == 0 {
      StartInv(nodes);
    } else {
      RunInv(run, nodes, i - 1);
      assert Steps(run[i - 1], run[i]);
      var a :| Enabled(run[i - 1], a) && run[i] == Next(run[i - 1], a);
      InvStep(run[i - 1], a);
      NodesStay(run[i - 1], a);
    }
  }

  /** Every follower's history is the leader's log up to its last applied index: no gap, no reordering. */
  lemma {:induction false} AppliedIsLogPrefix(run: seq<Cluster>, nodes: nat, i: nat, f: nat)
    requires IsRun(run, nodes) && i < |run| && f < nodes
    ensures |run[i].followers| == nodes
    ensures var x := run[i].followers[f]; |x.applied| == x.lastApplied && x.applied <= run[i].log
    ensures forall n :: 0 <= n < |run[i].followers[f].applied| ==> run[i].followers[f].applied[n].index == n + 1
    ensures |run[i].applied| == run[i].lastApplied && run[i].applied <= run[i].log
  {
    RunInv(run, nodes, i);
    assert FollowerOk(run[i].log, run[i].followers[f]);
  }

  /** Hence two followers never diverge. */
  lemma {:induction false} FollowersPrefixComparable(run: seq<Cluster>, nodes: nat, i: nat, f: nat, g: nat)
    requires IsRun(run, nodes) && i < |run| && f < nodes && g < nodes
    ensures |run[i].followers| == nodes
    ensures run[i].followers[f].applied <= run[i].followers[g].applied
            || run[i].followers[g].applied <= run[i].followers[f].applied
  {
    AppliedIsLogPrefix(run, nodes, i, f);
    AppliedIsLogPrefix(run, nodes, i, g);
  }

  // ---------- where the apply loop stops ----------

  /** The loop applies in order up to the commit index or the first missing entry, and no further. */
  lemma {:induction false} ApplyAllExact(log: seq<LogEntry>, f: Follower)
    requires FollowerOk(log, f)
    ensures var g := ApplyAll(f);
            && FollowerOk(log, g) && g.log == f.log && g.commit == f.commit && f.lastApplied <= g.lastApplied
            && (g.lastApplied == g.commit || forall e :: e in f.log ==> e.index != g.lastApplied + 1)
    decreases f.commit - f.lastApplied
  {
    if CanApply(f) {
      ApplyOneOk(log, f);
      ApplyAllExact(log, ApplyOne(f));
    } else {
      FindIndexedSound(f.log, f.lastApplied + 1);
    }
  }

  lemma {:induction false} HoldsNext(log: seq<LogEntry>, f: Follower, n: nat)
    requires n < |log| && log[n] in f.log && log[n].index == n + 1
    ensures exists e :: e in f.log && e.index == n + 1
  {
  }

  /** A follower that holds every committed entry catches up completely. */
  lemma {:induction false} CaughtUp(log: seq<LogEntry>, f: Follower)
    requires FollowerOk(log, f) && f.commit == |log|
    requires forall i :: 0 <= i < |log| ==> log[i] in f.log && log[i].index == i + 1
    ensures ApplyAll(f).applied == log
  {
    hide ApplyAll;
    ApplyAllExact(log, f);
    var g := ApplyAll(f);
    if g.lastApplied < |log| { HoldsNext(log, f, g.lastApplied); }
    assert log[..|log|] == log;
  }

  // ---------- the objects ----------

  class FollowerNode {
    var log: seq<LogEntry>
    var currentTerm: nat
    var commitIndex: nat
    var lastApplied: nat
    /** Every call of the apply callback, in order. */
    ghost var applied: seq<LogEntry>

    ghost function Model(): Follower
      reads this
    {
      Follower(log, currentTerm, commitIndex, lastApplied, applied)
    }

    constructor ()
      ensures Model() == IDLE
    {
      log, currentTerm, commitIndex, lastApplied, applied := [], 0, 0, 0, [];
    }

    method HandleReplication(msg: Message)
      modifies this
      ensures Model() == Receive(old(Model()), msg)
    {
      if msg.term > currentTerm { currentTerm := msg.term; }
      var before := log;
      for i := 0 to |msg.entries|
        invariant log == before + msg.entries[..i]
        invariant currentTerm == Receive(old(Model()), msg).term
        invariant commitIndex == old(commitIndex) && lastApplied == old(lastApplied) && applied == old(applied)
      {
        log := log + [msg.entries[i]];
      }
      if msg.leaderCommit > commitIndex { commitIndex := msg.leaderCommit; }
    }

    method FindEntry(index: nat) returns (r: Option<LogEntry>)
      ensures r == FindIndexed(log, index)
    {
      for i := 0 to |log|
        invariant FindIndexed(log, index) == FindIndexed(log[i..], index)
      {
        if log[i].index == index { return Some(log[i]); }
        assert log[i..][1..] == log[i + 1..];
      }
      r := None;
    }

    /** The inner loop of `applyLoop`, with nothing arriving meanwhile. */
    method ApplyLoop()
      modifies this
      ensures Model() == ApplyAll(old(Model()))
    {
      while lastApplied < commitIndex
        invariant ApplyAll(Model()) == ApplyAll(old(Model()))
        decreases commitIndex - lastApplied
      {
        var next := lastApplied + 1;
        var it := FindEntry(next);
        if it.None? { break; }
        applied := applied + [it.value];
        lastApplied := next;
      }
    }
  }

  class LeaderNode {
    var log: seq<LogEntry>
    var commitIndex: nat

    constructor ()
      ensures log == [] && commitIndex == 0
    {
      log, commitIndex := [], 0;
    }

    ghost predicate Indexed()
      reads this
    {
      forall i :: 0 <= i < |log| ==> log[i].index == i + 1
    }

    method AppendLog(entry: LogEntry)
      requires Indexed()
      modifies this`log
      ensures Indexed() && log == old(log) + [entry.(index := |old(log)| + 1, term := 0)]
      ensures forall c: Cluster, n: nat ::
                c.log == old(log) && Enabled(c, Append(n, entry.op, entry.key, entry.value)) ==>
                  Next(c, Append(n, entry.op, entry.key, entry.value)).log == log
    {
      var index := if log == [] then 1 else log[|log| - 1].index + 1;
      log := log + [entry.(index := index, term := 0)];
    }

    /** `replicate` with no other call in between: the message it ships carries the entry it appended. */
    method Replicate(entry: LogEntry) returns (msg: Message)
      requires Indexed()
      modifies this
      ensures Indexed() && log == old(log) + [entry.(index := |old(log)| + 1, term := 0)]
      ensures commitIndex == |log|
      ensures msg == Message(0, |log|, [entry.(index := |log|, term := 0)]) && GenuineMessage(log, msg)
    {
      AppendLog(entry);
      commitIndex := log[|log| - 1].index;
      msg := Message(0, commitIndex, [log[|log| - 1]]);
    }
  }
}
