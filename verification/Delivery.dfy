/**
 * Which log entries reach the network, and when a follower can catch up
 * (distributed/replication/leader.cpp:48-79, follower.cpp:122-187).
 */
module Delivery {
  import opened Types
  import opened Replication

  // ---------- which entries reach the network ----------

  /** The entry at `n` is in a message that was or will be shipped. */
  ghost predicate Offered(c: Cluster, n: nat)
    requires 1 <= n <= |c.log|
  {
    || Carries(c.net, c.log[n - 1])
    || exists j :: j in c.calls && c.calls[j].Built? && c.log[n - 1] in c.calls[j].msg.entries
  }

  /** An entry overtaken by a later append before any call read it back. */
  ghost predicate Stranded(c: Cluster, n: nat) {
    1 <= n < |c.log| && !Offered(c, n)
  }

  /** Only reading back offers an entry, and only the last one. */
  lemma {:induction false} OfferedBefore(c: Cluster, a: Action, n: nat)
    requires Inv(c) && Enabled(c, a) && 1 <= n <= |c.log| && Offered(Next(c, a), n)
    requires n < |c.log| || !a.ReadBack?
    ensures Offered(c, n)
  {
    var d := Next(c, a);
    assert d.log[n - 1] == c.log[n - 1] && c.log[n - 1].index == n && c.log[|c.log| - 1].index == |c.log|;
    if Carries(d.net, c.log[n - 1]) {
      var m :| m in d.net && c.log[n - 1] in m.entries;
      if m !in c.net { assert a.Ship? && c.calls[a.call].msg == m; }
    } else {
      var j :| j in d.calls && d.calls[j].Built? && c.log[n - 1] in d.calls[j].msg.entries;
      assert j in c.calls && c.calls[j] == d.calls[j];
    }
  }

  lemma {:induction false} StrandedStep(c: Cluster, a: Action, n: nat)
    requires Inv(c) && Enabled(c, a) && Stranded(c, n)
    ensures Stranded(Next(c, a), n)
  {
    if Offered(Next(c, a), n) { OfferedBefore(c, a, n); }
  }

  lemma {:induction false} AppliedWasCarried(c: Cluster, f: nat, n: nat)
    requires Inv(c) && f < |c.followers| && 1 <= n <= c.followers[f].lastApplied
    ensures n <= |c.log| && Offered(c, n)
  {
    var x := c.followers[f];
    assert FollowerOk(c.log, x);
    assert x.applied[n - 1] == c.log[n - 1] && x.applied[n - 1] in x.applied;
  }

  /**
   * `replicate` ships `log_.back()`. If another call appends first, the overtaken entry is never
   * shipped, and no follower ever applies it or anything after it.
   */
  lemma {:induction false} StrandedForever(run: seq<Cluster>, nodes: nat, i: nat, j: nat, n: nat)
    requires IsRun(run, nodes) && i <= j < |run| && Stranded(run[i], n)
    ensures Stranded(run[j], n)
    ensures |run[j].followers| == nodes && forall f :: 0 <= f < nodes ==> run[j].followers[f].lastApplied < n
    decreases j - i
  {
    hide Offered, FollowerOk, GenuineAll, Carries, Inv, Next, Enabled;
    RunInv(run, nodes, j);
    if i < j {
      StrandedForever(run, nodes, i, j - 1, n);
      RunInv(run, nodes, j - 1);
      assert Steps(run[j - 1], run[j]);
      var a :| Enabled(run[j - 1], a) && run[j] == Next(run[j - 1], a);
      StrandedStep(run[j - 1], a, n);
    }
    forall f | 0 <= f < nodes ensures run[j].followers[f].lastApplied < n {
      if run[j].followers[f].lastApplied >= n { AppliedWasCarried(run[j], f, n); }
    }
  }

  lemma {:induction false} OfferedStep(c: Cluster, a: Action, n: nat)
    requires Inv(c) && Enabled(c, a) && 1 <= n <= |c.log| && Offered(c, n)
    ensures Offered(Next(c, a), n)
  {
    var d := Next(c, a);
    assert d.log[n - 1] == c.log[n - 1];
    if Carries(c.net, c.log[n - 1]) {
      var m :| m in c.net && c.log[n - 1] in m.entries;
      assert m in d.net;
    } else {
      var j :| j in c.calls && c.calls[j].Built? && c.log[n - 1] in c.calls[j].msg.entries;
      if a == Ship(j) { assert c.calls[j].msg in d.net; } else { assert j in d.calls && d.calls[j] == c.calls[j]; }
    }
  }

  /** Two calls that overlap are enough. */
  lemma {:induction false} StrandingIsReachable(k: Bytes, v: Bytes)
    ensures exists run :: IsRun(run, 1) && Stranded(run[|run| - 1], 1)
  {
    var s0 := Start(1);
    var s1 := Next(s0, Append(1, 1, k, v));
    var s2 := Next(s1, Append(2, 1, k, v));
    var run := [s0, s1, s2];
    assert Enabled(s0, Append(1, 1, k, v)) && Enabled(s1, Append(2, 1, k, v));
    assert Steps(run[0], run[1]) && Steps(run[1], run[2]);
    assert IsRun(run, 1) && Stranded(run[|run| - 1], 1);
  }

  // ---------- stranding in terms of the schedule ----------

  /** The step is some call reading `log_.back()`. */
  ghost predicate ReadsBack(c: Cluster, d: Cluster) {
    exists n :: Enabled(c, ReadBack(n)) && d == Next(c, ReadBack(n))
  }

  /** Some call read the log back while entry `n` was its last. */
  ghost predicate ReadWhileLast(run: seq<Cluster>, i: nat, n: nat)
    requires i < |run|
  {
    exists j :: 0 <= j < i && |run[j].log| == n && ReadsBack(run[j], run[j + 1])
  }

  lemma {:induction false} LogGrows(run: seq<Cluster>, nodes: nat, i: nat, j: nat)
    requires IsRun(run, nodes) && i <= j < |run|
    ensures |run[i].log| <= |run[j].log|
    decreases j - i
  {
    if i < j {
      LogGrows(run, nodes, i, j - 1);
      assert Steps(run[j - 1], run[j]);
    }
  }

  lemma {:induction false} ReadBackOffers(c: Cluster, d: Cluster)
    requires Inv(c) && ReadsBack(c, d)
    ensures d.log == c.log != [] && Offered(d, |d.log|)
  {
    hide Inv, Carries;
    var n :| Enabled(c, ReadBack(n)) && d == Next(c, ReadBack(n));
    assert n in d.calls && d.calls[n].Built? && d.log[|d.log| - 1] in d.calls[n].msg.entries;
  }

  /** An entry just appended is in no message yet. */
  lemma {:induction false} NewIsNotOffered(c: Cluster, a: Action)
    requires Inv(c) && Enabled(c, a) && a.Append?
    ensures !Offered(Next(c, a), |c.log| + 1)
  {
    var d := Next(c, a);
    var e := d.log[|c.log|];
    assert e.index == |c.log| + 1;
    forall m | m in c.net ensures e !in m.entries { assert GenuineMessage(c.log, m); }
    forall j | j in d.calls && d.calls[j].Built? ensures e !in d.calls[j].msg.entries { assert CallOk(c, c.calls[j]); }
  }

  /** An entry is shipped, or about to be, exactly if some call read the log back while it was the last. */
  lemma {:induction false} OfferedExactly(run: seq<Cluster>, nodes: nat, i: nat, n: nat)
    requires IsRun(run, nodes) && i < |run| && 1 <= n <= |run[i].log|
    ensures Offered(run[i], n) <==> ReadWhileLast(run, i, n)
  {
    hide Offered, Inv, ReadsBack;
    if i > 0 {
      RunInv(run, nodes, i - 1);
      var c, d := run[i - 1], run[i];
      assert Steps(c, d);
      var a :| Enabled(c, a) && d == Next(c, a);
      if n <= |c.log| {
        OfferedExactly(run, nodes, i - 1, n);
        if Offered(c, n) { OfferedStep(c, a, n); }
        if |c.log| == n && ReadsBack(c, d) { ReadBackOffers(c, d); }
        if Offered(d, n) && !Offered(c, n) {
          if n < |c.log| || !a.ReadBack? { OfferedBefore(c, a, n); }
          assert ReadsBack(c, d) by { ReadBackStep(c, a); }
        }
      } else {
        NewIsNotOffered(c, a);
        forall j | 0 <= j < i ensures |run[j].log| < n { LogGrows(run, nodes, j, i - 1); }
      }
    }
  }

  /**
   * An entry is stranded exactly if another append overtook it before any call read it back; no follower
   * then gets as far as the entry, in this state or any later one.
   */
  lemma {:induction false} OvertakingStrands(run: seq<Cluster>, nodes: nat, i: nat, j: nat, n: nat)
    requires IsRun(run, nodes) && i <= j < |run|
    ensures Stranded(run[i], n) <==> 1 <= n < |run[i].log| && !ReadWhileLast(run, i, n)
    ensures |run[j].followers| == nodes
    ensures 1 <= n < |run[i].log| && !ReadWhileLast(run, i, n) ==>
              forall f :: 0 <= f < nodes ==> run[j].followers[f].lastApplied < n
  {
    hide Offered, ReadWhileLast, IsRun, Inv;
    RunInv(run, nodes, j);
    if 1 <= n < |run[i].log| { OfferedExactly(run, nodes, i, n); }
    if Stranded(run[i], n) { StrandedForever(run, nodes, i, j, n); }
  }

  lemma {:induction false} ReadBackStep(c: Cluster, a: Action)
    requires Enabled(c, a) && a.ReadBack?
    ensures ReadsBack(c, Next(c, a))
  {
  }

  // ---------- when followers catch up ----------

  /** A call that has not read the log back yet. */
  ghost predicate Unread(c: Cluster) {
    exists j :: j in c.calls && !c.calls[j].Built?
  }

  /** The call will still announce, or is about to ship, a commit index that covers the whole log. */
  predicate OnItsWay(c: Cluster, call: Call) {
    match call
    case Appended => true
    case Committed => c.commit == |c.log|
    case CommitRead(n) => n == |c.log|
    case Built(m) => m.leaderCommit == |c.log|
  }

  ghost predicate Pledged(c: Cluster) {
    || c.log == []
    || (exists m :: m in c.net && m.leaderCommit == |c.log|)
    || exists j :: j in c.calls && OnItsWay(c, c.calls[j])
  }

  ghost predicate LastOffered(c: Cluster) {
    c.log == [] || Offered(c, |c.log|) || Unread(c)
  }

  lemma {:induction false} PledgedStep(c: Cluster, a: Action)
    requires Inv(c) && Pledged(c) && Enabled(c, a)
    ensures Pledged(Next(c, a))
  {
    var d := Next(c, a);
    if a.Append? {
      assert OnItsWay(d, d.calls[a.call]);
    } else if a.Commit? {
      assert c.log[|c.log| - 1].index == |c.log|;
      assert OnItsWay(d, d.calls[a.call]);
    } else if m :| m in c.net && m.leaderCommit == |c.log| {
      assert m in d.net;
    } else if j :| j in c.calls && OnItsWay(c, c.calls[j]) {
      if a == Ship(j) { assert c.calls[j].msg in d.net; } else { assert j in d.calls && OnItsWay(d, d.calls[j]); }
    }
  }

  lemma {:induction false} LastOfferedStep(c: Cluster, a: Action)
    requires Inv(c) && LastOffered(c) && Enabled(c, a)
    ensures LastOffered(Next(c, a))
  {
    hide Inv, Carries;
    var d := Next(c, a);
    if a.Append? {
      assert a.call in d.calls && !d.calls[a.call].Built?;
    } else if a.ReadBack? {
      ReadBackStep(c, a);
      ReadBackOffers(c, d);
    } else if c.log != [] && Offered(c, |c.log|) {
      OfferedStep(c, a, |c.log|);
    } else if j :| j in c.calls && !c.calls[j].Built? {
      assert j in d.calls && !d.calls[j].Built?;
    }
  }

  lemma {:induction false} RunPledged(run: seq<Cluster>, nodes: nat, i: nat)
    requires IsRun(run, nodes) && i < |run|
    ensures Inv(run[i]) && Pledged(run[i]) && LastOffered(run[i])
  {
    RunInv(run, nodes, i);
    if i > 0 {
      hide Inv, Pledged, LastOffered;
      RunPledged(run, nodes, i - 1);
      assert Steps(run[i - 1], run[i]);
      var a :| Enabled(run[i - 1], a) && run[i] == Next(run[i - 1], a);
      PledgedStep(run[i - 1], a);
      LastOfferedStep(run[i - 1], a);
    }
  }

  /** The follower has received every message of the network, and nothing else. */
  ghost predicate Received(net: set<Message>, f: Follower) {
    && (forall m :: m in net ==> f.commit >= m.leaderCommit && forall e :: e in m.entries ==> e in f.log)
    && forall e :: e in f.log ==> Carries(net, e)
  }

  lemma {:induction false} StrandedBlocks(c: Cluster, f: Follower, n: nat)
    requires Inv(c) && FollowerOk(c.log, f) && Received(c.net, f) && Stranded(c, n)
    ensures ApplyAll(f).applied != c.log
  {
    hide ApplyAll;
    ApplyAllExact(c.log, f);
    assert c.log[n - 1] !in f.log;
    assert c.log[n - 1] !in ApplyAll(f).applied;
  }

  lemma {:induction false} NothingStrandedCatchesUp(c: Cluster, f: Follower)
    requires Inv(c) && Pledged(c) && LastOffered(c) && c.calls == map[]
    requires FollowerOk(c.log, f) && Received(c.net, f) && forall n :: !Stranded(c, n)
    ensures ApplyAll(f).applied == c.log
  {
    hide ApplyAll, Inv, GenuineAll;
    IndexedLog(c);
    forall n | 0 <= n < |c.log| ensures c.log[n] in f.log {
      assert !Stranded(c, n + 1);
      assert Carries(c.net, c.log[n]);
    }
    if c.log != [] {
      var m :| m in c.net && m.leaderCommit == |c.log|;
      assert f.commit == |c.log|;
    }
    CaughtUp(c.log, f);
  }

  lemma {:induction false} IndexedLog(c: Cluster)
    requires Inv(c)
    ensures forall i :: 0 <= i < |c.log| ==> c.log[i].index == i + 1
  {
  }

  /**
   * Once no call is in flight, a node that has received every message applies the leader's whole log if
   * and only if no entry is stranded.
   */
  lemma {:induction false} NodeCatchesUpExactly(run: seq<Cluster>, nodes: nat, i: nat, f: nat)
    requires IsRun(run, nodes) && i < |run| && run[i].calls == map[] && f < nodes
    requires |run[i].followers| == nodes && Received(run[i].net, run[i].followers[f])
    ensures ApplyAll(run[i].followers[f]).applied == run[i].log <==> forall n :: !Stranded(run[i], n)
  {
    hide ApplyAll, Stranded, Pledged, LastOffered, Received;
    RunPledged(run, nodes, i);
    CatchesUpExactly(run[i], run[i].followers[f]);
  }

  lemma {:induction false} CatchesUpExactly(c: Cluster, f: Follower)
    requires Inv(c) && Pledged(c) && LastOffered(c) && c.calls == map[]
    requires FollowerOk(c.log, f) && Received(c.net, f)
    ensures ApplyAll(f).applied == c.log <==> forall n :: !Stranded(c, n)
  {
    hide ApplyAll, Stranded, Pledged, LastOffered, Received, Inv, FollowerOk;
    if n :| Stranded(c, n) {
      StrandedBlocks(c, f, n);
    } else {
      NothingStrandedCatchesUp(c, f);
    }
  }

  /** A follower that receives the given messages, one after the other. */
  function ReceiveAll(f: Follower, ms: seq<Message>): Follower {
    if ms == [] then f else Receive(ReceiveAll(f, ms[..|ms| - 1]), ms[|ms| - 1])
  }

  lemma {:induction false} ReceivedAll(log: seq<LogEntry>, ms: seq<Message>, m: Message)
    requires forall i :: 0 <= i < |ms| ==> GenuineMessage(log, ms[i])
    ensures FollowerOk(log, ReceiveAll(IDLE, ms)) && ReceiveAll(IDLE, ms).lastApplied == 0
    ensures m in ms ==> ReceiveAll(IDLE, ms).commit >= m.leaderCommit
                        && forall e :: e in m.entries ==> e in ReceiveAll(IDLE, ms).log
    ensures forall e :: e in ReceiveAll(IDLE, ms).log ==> exists n :: 0 <= n < |ms| && e in ms[n].entries
  {
    if ms != [] {
      var n := |ms| - 1;
      ReceivedAll(log, ms[..n], m);
      assert ms == ms[..n] + [ms[n]];
      ReceiveOk(log, ReceiveAll(IDLE, ms[..n]), ms[n]);
      forall e | e in ReceiveAll(IDLE, ms).log ensures exists j :: 0 <= j < |ms| && e in ms[j].entries {
        if e !in ms[n].entries {
          var j :| 0 <= j < n && e in ms[..n][j].entries;
          assert e in ms[j].entries;
        }
      }
    }
  }

  /**
   * The same for a new follower and any order and multiplicity of the messages, with the condition read
   * off the schedule: every entry but the last was read back by some call while it was the last.
   */
  lemma {:induction false} FollowersCatchUpExactly(run: seq<Cluster>, nodes: nat, i: nat, ms: seq<Message>)
    requires IsRun(run, nodes) && i < |run| && run[i].calls == map[]
    requires forall m :: m in ms <==> m in run[i].net
    ensures ApplyAll(ReceiveAll(IDLE, ms)).applied == run[i].log <==> forall n :: !Stranded(run[i], n)
    ensures ApplyAll(ReceiveAll(IDLE, ms)).applied == run[i].log <==>
            forall n :: 1 <= n < |run[i].log| ==> ReadWhileLast(run, i, n)
  {
    hide ApplyAll, ReceiveAll, FollowerOk, Pledged, LastOffered, Offered, ReadWhileLast, IsRun;
    RunPledged(run, nodes, i);
    var c := run[i];
    var f := ReceiveAll(IDLE, ms);
    ReceivedNet(c, ms);
    CatchesUpExactly(c, f);
    forall n: nat ensures Stranded(c, n) <==> 1 <= n < |c.log| && !ReadWhileLast(run, i, n) {
      OvertakingStrands(run, nodes, i, i, n);
    }
  }

  lemma {:induction false} ReceivedNet(c: Cluster, ms: seq<Message>)
    requires Inv(c) && forall m :: m in ms <==> m in c.net
    ensures FollowerOk(c.log, ReceiveAll(IDLE, ms)) && Received(c.net, ReceiveAll(IDLE, ms))
  {
    hide ReceiveAll, FollowerOk, GenuineAll;
    var f := ReceiveAll(IDLE, ms);
    assert forall j :: 0 <= j < |ms| ==> ms[j] in ms && GenuineMessage(c.log, ms[j]);
    ReceivedAll(c.log, ms, Message(0, 0, []));
    forall m | m in c.net ensures f.commit >= m.leaderCommit && forall e :: e in m.entries ==> e in f.log {
      ReceivedAll(c.log, ms, m);
    }
    forall e | e in f.log ensures Carries(c.net, e) {
      var n :| 0 <= n < |ms| && e in ms[n].entries;
      assert ms[n] in ms;
    }
  }

  /**
   * Once no call is in flight, the entries that have been shipped are the last one and those read back
   * while they were the last, and some message announces a commit index that covers the whole log.
   */
  lemma {:induction false} ShippedExactly(run: seq<Cluster>, nodes: nat, i: nat)
    requires IsRun(run, nodes) && i < |run| && run[i].calls == map[]
    ensures forall n :: 1 <= n <= |run[i].log| ==>
              (Carries(run[i].net, run[i].log[n - 1]) <==> n == |run[i].log| || ReadWhileLast(run, i, n))
    ensures run[i].log != [] ==> exists m :: m in run[i].net && m.leaderCommit == |run[i].log|
  {
    hide IsRun, Inv, ReadWhileLast, Carries;
    RunPledged(run, nodes, i);
    forall n | 1 <= n <= |run[i].log|
      ensures Carries(run[i].net, run[i].log[n - 1]) <==> n == |run[i].log| || ReadWhileLast(run, i, n)
    {
      OfferedExactly(run, nodes, i, n);
    }
  }

  // ---------- one call at a time ----------

  /** A message that carries the entry and announces a commit index that covers it. */
  ghost predicate Announced(c: Cluster, n: nat)
    requires 1 <= n <= |c.log|
  {
    || (exists m :: m in c.net && c.log[n - 1] in m.entries && m.leaderCommit >= n)
    || exists j :: j in c.calls && c.calls[j].Built? && c.log[n - 1] in c.calls[j].msg.entries
                   && c.calls[j].msg.leaderCommit >= n
  }

  ghost predicate SerialInv(c: Cluster) {
    && (forall i, j :: i in c.calls && j in c.calls ==> i == j)
    && (forall j :: j in c.calls && c.calls[j].Committed? ==> c.commit == |c.log|)
    && (forall j :: j in c.calls && c.calls[j].CommitRead? ==> c.calls[j].commit == |c.log|)
    && (forall n :: 1 <= n <= |c.log| ==> Announced(c, n) || (n == |c.log| && Unread(c)))
  }

  /** Calls one at a time: nobody appends while a call is in flight. */
  predicate Serial(c: Cluster, a: Action) {
    a.Append? ==> c.calls == map[]
  }

  lemma {:induction false} AnnouncedStep(c: Cluster, a: Action, n: nat)
    requires Inv(c) && Enabled(c, a) && 1 <= n <= |c.log| && Announced(c, n)
    ensures Announced(Next(c, a), n)
  {
    var d := Next(c, a);
    assert d.log[n - 1] == c.log[n - 1];
    if m :| m in c.net && c.log[n - 1] in m.entries && m.leaderCommit >= n {
      assert m in d.net;
    } else {
      var j :| j in c.calls && c.calls[j].Built? && c.log[n - 1] in c.calls[j].msg.entries
               && c.calls[j].msg.leaderCommit >= n;
      if a == Ship(j) { assert c.calls[j].msg in d.net; } else { assert j in d.calls && d.calls[j] == c.calls[j]; }
    }
  }

  lemma {:induction false} SerialAnnounces(c: Cluster, a: Action, n: nat)
    requires Inv(c) && SerialInv(c) && Enabled(c, a) && Serial(c, a) && 1 <= n <= |Next(c, a).log|
    ensures Announced(Next(c, a), n) || (n == |Next(c, a).log| && Unread(Next(c, a)))
  {
    hide Inv;
    var d := Next(c, a);
    if n > |c.log| {
      assert a.call in d.calls && !d.calls[a.call].Built?;
    } else if Announced(c, n) {
      AnnouncedStep(c, a, n);
    } else {
      assert n == |c.log| && Unread(c);
      var j :| j in c.calls && !c.calls[j].Built?;
      assert !a.Append?;
      assert d.log == c.log && j in d.calls;
      if a == ReadBack(j) { assert d.calls[j].Built? && d.log[n - 1] in d.calls[j].msg.entries; }
    }
  }

  lemma {:induction false} SerialStep(c: Cluster, a: Action)
    requires Inv(c) && SerialInv(c) && Enabled(c, a) && Serial(c, a)
    ensures SerialInv(Next(c, a))
  {
    hide Announced, Unread;
    var d := Next(c, a);
    forall n | 1 <= n <= |d.log| ensures Announced(d, n) || (n == |d.log| && Unread(d)) {
      SerialAnnounces(c, a, n);
    }
    if a.Commit? { assert c.log[|c.log| - 1].index == |c.log|; }
  }

  ghost predicate SerialSteps(c: Cluster, d: Cluster) {
    exists a :: Enabled(c, a) && Serial(c, a) && d == Next(c, a)
  }

  /** Some message in the network delivers the entry and the right to apply it. */
  ghost predicate Delivers(net: set<Message>, log: seq<LogEntry>, n: nat)
    requires 1 <= n <= |log|
  {
    exists m :: m in net && log[n - 1] in m.entries && m.leaderCommit >= n
  }

  /** With serialized calls nothing is ever stranded: once no call is in flight every entry was shipped. */
  lemma {:induction false} SerialShipsEverything(run: seq<Cluster>, nodes: nat, i: nat)
    requires IsRun(run, nodes) && i < |run|
    requires forall j :: 0 <= j < i ==> SerialSteps(run[j], run[j + 1])
    ensures SerialInv(run[i])
    ensures run[i].calls == map[] ==> forall n :: 1 <= n <= |run[i].log| ==> Delivers(run[i].net, run[i].log, n)
  {
    if i > 0 {
      SerialShipsEverything(run, nodes, i - 1);
      RunInv(run, nodes, i - 1);
      assert SerialSteps(run[i - 1], run[i]);
      var a :| Enabled(run[i - 1], a) && Serial(run[i - 1], a) && run[i] == Next(run[i - 1], a);
      SerialStep(run[i - 1], a);
    }
    if run[i].calls == map[] {
      forall n | 1 <= n <= |run[i].log| ensures Delivers(run[i].net, run[i].log, n) {
        assert Announced(run[i], n);
      }
    }
  }

  /**
   * Hence, with serialized calls, a follower that has received every message, in whatever order and
   * however often, applies the leader's whole log.
   */
  lemma {:induction false} SerialFollowersCatchUp(run: seq<Cluster>, nodes: nat, i: nat, ms: seq<Message>)
    requires IsRun(run, nodes) && i < |run| && run[i].calls == map[]
    requires forall j :: 0 <= j < i ==> SerialSteps(run[j], run[j + 1])
    requires forall m :: m in ms <==> m in run[i].net
    ensures ApplyAll(ReceiveAll(IDLE, ms)).applied == run[i].log
  {
    hide ApplyAll, ReceiveAll, ReadWhileLast, IsRun, SerialSteps;
    SerialShipsEverything(run, nodes, i);
    forall n: nat ensures !Stranded(run[i], n) {
      if 1 <= n < |run[i].log| { assert Delivers(run[i].net, run[i].log, n); }
    }
    FollowersCatchUpExactly(run, nodes, i, ms);
  }
}
