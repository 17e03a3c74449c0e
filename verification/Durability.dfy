/**
 * The writer thread on top of the group-committed log: a batch is completed only after its own `flush`
 * has returned (engine/src/engine.cpp:484-547 with engine/src/wal.cpp:54-148), before the first rotation.
 */
module Durability {
  import opened Types
  import opened Wal
  import P = WritePipeline
  import G = GroupCommit

  /** `done[b]` is the number of requests completed once batch `b` was; the next batch flushes under id `|done|`. */
  datatype State = State(w: P.State, g: G.State, done: seq<nat>)

  const START := State(P.START, G.START, [])

  datatype Action = Writer(w: P.Action) | Log(g: G.Action)

  /** The request the writer processes next. */
  function Current(w: P.State): P.Request
    requires |w.results| < |w.batch|
  {
    w.batch[|w.results|]
  }

  /** All requests of the batch are processed, so the writer is at its `flush`. */
  predicate AtFlush(w: P.State) {
    w.batch != [] && |w.results| == |w.batch|
  }

  predicate FlushReturned(s: State) {
    |s.done| in s.g.flushes && s.g.flushes[|s.done|].returned
  }

  predicate WriterEnabled(s: State, a: P.Action) {
    && P.Enabled(s.w, a)
    && (a.Process? && P.IsWrite(Current(s.w)) ==> !G.Locked(s.g))
    && (a.Complete? ==> FlushReturned(s))
  }

  predicate LogEnabled(s: State, a: G.Action) {
    && G.Enabled(s.g, a) && !a.Append?
    && (a.FlushTicket? || a.FlushLoad? || a.FlushReturn? ==> a.id == |s.done| && AtFlush(s.w))
  }

  predicate Enabled(s: State, a: Action) {
    match a
    case Writer(w) => WriterEnabled(s, w)
    case Log(g) => LogEnabled(s, g)
  }

  function Next(crc: Checksum, s: State, a: Action): State
    requires Enabled(s, a)
  {
    match a
    case Log(g) => s.(g := G.Next(s.g, g))
    case Writer(w) =>
      var t := s.(w := P.Next(s.w, w));
      if w.Process? && P.IsWrite(Current(s.w))
      then t.(g := G.Next(s.g, G.Append(Encode(crc, P.LogRecord(Current(s.w), s.w.nextSeq)))))
      else if w.Complete? then t.(done := s.done + [|t.w.completed|])
      else t
  }

  // ---------- invariant ----------

  /** The log records of the requests completed up to batch `b`. */
  function RecordsUpTo(s: State, b: nat): seq<Record>
    requires b < |s.done| && s.done[b] <= |s.w.completed|
  {
    P.Numbered(P.Requests(s.w.completed)[..s.done[b]])
  }

  ghost predicate BatchOk(crc: Checksum, s: State, b: nat)
    requires b < |s.done|
  {
    && b in s.g.flushes && s.g.flushes[b].returned
    && s.done[b] <= |s.w.completed|
    && s.g.flushes[b].begun == |EncodeAll(crc, RecordsUpTo(s, b))|
  }

  /** The flush of a batch began after the one before it had returned. */
  ghost predicate FloorOk(g: G.State, b: nat) {
    b + 1 in g.flushes ==> b in g.flushes && g.flushes[b].begun <= g.flushes[b + 1].floor
  }

  ghost predicate Inv(crc: Checksum, s: State) {
    && P.Inv(s.w) && G.Inv(s.g)
    && s.g.appended == EncodeAll(crc, s.w.log)
    && (forall id :: id in s.g.flushes ==> id <= |s.done|)
    && (forall b :: 0 <= b < |s.done| ==> BatchOk(crc, s, b))
    && (forall b: nat :: FloorOk(s.g, b))
    && (|s.done| in s.g.flushes ==> AtFlush(s.w) && s.g.flushes[|s.done|].begun == |s.g.appended|)
  }

  /** What the flushes of completed batches promise depends on the flushes and the completed requests only. */
  lemma {:induction false} BatchStays(crc: Checksum, s: State, t: State, b: nat)
    requires b < |s.done| && BatchOk(crc, s, b) && s.done <= t.done
    requires P.Requests(s.w.completed) <= P.Requests(t.w.completed)
    requires b in t.g.flushes && t.g.flushes[b].returned && t.g.flushes[b].begun == s.g.flushes[b].begun
    ensures BatchOk(crc, t, b)
  {
    hide EncodeAll, P.Numbered;
    assert |P.Requests(t.w.completed)| == |t.w.completed|;
    assert P.Requests(t.w.completed)[..s.done[b]] == P.Requests(s.w.completed)[..s.done[b]];
  }

  lemma {:induction false} ProcessStep(crc: Checksum, s: State)
    requires Inv(crc, s) && Enabled(s, Writer(P.Process))
    ensures Inv(crc, Next(crc, s, Writer(P.Process)))
  {
    hide P.Inv, G.Inv, EncodeAll, Encode, P.Requests, P.LogRecord, RecordsUpTo, P.ApplyRecord;
    var t := Next(crc, s, Writer(P.Process));
    P.InvStep(s.w, P.Process);
    var r := Current(s.w);
    if P.IsWrite(r) {
      G.InvStep(s.g, G.Append(Encode(crc, P.LogRecord(r, s.w.nextSeq))));
      EncodeAllAppend(crc, s.w.log, P.LogRecord(r, s.w.nextSeq));
    }
    assert t.g.flushes == s.g.flushes && t.w.completed == s.w.completed;
    forall b | 0 <= b < |t.done| ensures BatchOk(crc, t, b) { BatchStays(crc, s, t, b); }
    forall b: nat ensures FloorOk(t.g, b) { assert FloorOk(s.g, b); }
  }

  lemma {:induction false} CompleteStep(crc: Checksum, s: State)
    requires Inv(crc, s) && Enabled(s, Writer(P.Complete))
    ensures Inv(crc, Next(crc, s, Writer(P.Complete)))
  {
    hide G.Inv, EncodeAll, P.Numbered, P.Rebuilt;
    var t := Next(crc, s, Writer(P.Complete));
    P.InvStep(s.w, P.Complete);
    var n := |s.done|;
    assert P.Processed(t.w) == P.Requests(t.w.completed) == P.Requests(t.w.completed)[..t.done[n]];
    assert BatchOk(crc, t, n);
    forall b | 0 <= b < n ensures BatchOk(crc, t, b) { assert BatchOk(crc, s, b); BatchStays(crc, s, t, b); }
  }

  /** A log step of the writer's current flush, or of the sync thread. */
  lemma {:induction false} LogStep(crc: Checksum, s: State, a: G.Action)
    requires Inv(crc, s) && Enabled(s, Log(a))
    ensures Inv(crc, Next(crc, s, Log(a)))
  {
    hide P.Inv, G.Inv, EncodeAll, RecordsUpTo;
    var t := Next(crc, s, Log(a));
    G.InvStep(s.g, a);
    var n := |s.done|;
    forall b | 0 <= b < n ensures BatchOk(crc, t, b) { assert BatchOk(crc, s, b); BatchStays(crc, s, t, b); }
    forall b: nat ensures FloorOk(t.g, b) {
      assert FloorOk(s.g, b);
      if a.FlushTicket? && b + 1 == n {
        assert BatchOk(crc, s, b);
        ReturnedCounts(s.g, b);
      }
    }
  }

  lemma {:induction false} ReturnedCounts(g: G.State, b: nat)
    requires G.Inv(g) && b in g.flushes && g.flushes[b].returned
    ensures g.flushes[b].begun <= g.returned
  {
    assert G.FlushOk(g, g.flushes[b]);
  }

  lemma {:induction false} InvStep(crc: Checksum, s: State, a: Action)
    requires Inv(crc, s) && Enabled(s, a)
    ensures Inv(crc, Next(crc, s, a))
  {
    match a
    case Log(g) => LogStep(crc, s, g);
    case Writer(w) =>
      if w.Process? {
        ProcessStep(crc, s);
      } else if w.Complete? {
        CompleteStep(crc, s);
      } else {
        QueueStep(crc, s, w);
      }
  }

  lemma {:induction false} QueueStep(crc: Checksum, s: State, w: P.Action)
    requires Inv(crc, s) && Enabled(s, Writer(w)) && !w.Process? && !w.Complete?
    ensures Inv(crc, Next(crc, s, Writer(w)))
  {
    hide P.Inv, G.Inv, EncodeAll, P.Requests, RecordsUpTo;
    P.InvStep(s.w, w);
    var t := Next(crc, s, Writer(w));
    forall b | 0 <= b < |t.done| ensures BatchOk(crc, t, b) { assert BatchOk(crc, s, b); BatchStays(crc, s, t, b); }
  }

  ghost predicate Steps(crc: Checksum, s: State, t: State) {
    exists a :: Enabled(s, a) && t == Next(crc, s, a)
  }

  ghost predicate IsRun(crc: Checksum, run: seq<State>) {
    run != [] && run[0] == START && forall i :: 0 <= i < |run| - 1 ==> Steps(crc, run[i], run[i + 1])
  }

  lemma {:induction false} RunInv(crc: Checksum, run: seq<State>, i: nat)
    requires IsRun(crc, run) && i < |run|
    ensures Inv(crc, run[i])
  {
    if i > 0 {
      hide Inv;
      RunInv(crc, run, i - 1);
      assert Steps(crc, run[i - 1], run[i]);
      var a :| Enabled(run[i - 1], a) && run[i] == Next(crc, run[i - 1], a);
      InvStep(crc, run[i - 1], a);
    }
  }

  // ---------- what survives ----------

  lemma {:induction false} NumberedPrefix(rs: seq<P.Request>, n: nat)
    requires n <= |rs|
    ensures P.Numbered(rs[..n]) <= P.Numbered(rs)
  {
    if n == |rs| {
      assert rs[..n] == rs;
    } else {
      var init := rs[..|rs| - 1];
      assert init[..n] == rs[..n];
      NumberedPrefix(init, n);
    }
  }

  /** The bytes a crash can leave: at least what was synced, at most what was appended. */
  ghost predicate Survives(s: State, p: Bytes) {
    s.g.file <= p <= s.g.appended
  }

  /** The records of completed requests are in the log, first of all. */
  lemma {:induction false} RecordsAreLogged(crc: Checksum, s: State, b: nat)
    requires Inv(crc, s) && b < |s.done|
    ensures s.done[b] <= |s.w.completed| && RecordsUpTo(s, b) <= s.w.log
  {
    hide P.Numbered, G.Inv, EncodeAll;
    assert BatchOk(crc, s, b);
    var rs := P.Processed(s.w);
    assert rs[..s.done[b]] == P.Requests(s.w.completed)[..s.done[b]];
    NumberedPrefix(rs, s.done[b]);
  }

  lemma {:induction false} CoveredSurvives(crc: Checksum, s: State, rs: seq<Record>, p: Bytes)
    requires Inv(crc, s) && rs <= s.w.log && Survives(s, p) && |EncodeAll(crc, rs)| <= |s.g.file|
    requires Is32Bit(crc) && (forall j :: 0 <= j < |s.w.log| ==> Fits(s.w.log[j])) && NoTornCollision(crc, s.w.log, p)
    ensures rs <= Replay(crc, p, NO_FIELDS) <= s.w.log
  {
    hide EncodeAll, Replay, Whole, NoTornCollision, P.Inv, G.Inv, BatchOk;
    assert rs == s.w.log[..|rs|];
    CoveredIsWhole(crc, s.w.log, |rs|, p);
    ReplayPrefix(crc, s.w.log, p);
  }

  /**
   * Once a batch is completed, a crash at that or any later moment loses no request of an earlier batch,
   * and none of the batch itself if its flush began at a quiet moment.
   */
  lemma {:induction false} CompletedSurvives(crc: Checksum, run: seq<State>, i: nat, b: nat, p: Bytes)
    requires IsRun(crc, run) && i < |run| && b < |run[i].done| && Survives(run[i], p) && Is32Bit(crc)
    requires forall j :: 0 <= j < |run[i].w.log| ==> Fits(run[i].w.log[j])
    requires NoTornCollision(crc, run[i].w.log, p)
    ensures Replay(crc, p, NO_FIELDS) <= run[i].w.log
    ensures b in run[i].g.flushes && forall c :: 0 <= c <= b ==> run[i].done[c] <= |run[i].w.completed|
    ensures forall c :: 0 <= c < b ==> RecordsUpTo(run[i], c) <= Replay(crc, p, NO_FIELDS)
    ensures run[i].g.flushes[b].quiet ==> RecordsUpTo(run[i], b) <= Replay(crc, p, NO_FIELDS)
  {
    hide EncodeAll, Replay, NoTornCollision, P.Inv, RecordsUpTo;
    var s := run[i];
    RunInv(crc, run, i);
    assert BatchOk(crc, s, b);
    forall c | 0 <= c <= b ensures s.done[c] <= |s.w.completed| { assert BatchOk(crc, s, c); }
    forall c | 0 <= c < b ensures RecordsUpTo(s, c) <= Replay(crc, p, NO_FIELDS) {
      EarlierIsSynced(crc, s, c);
      RecordsAreLogged(crc, s, c);
      CoveredSurvives(crc, s, RecordsUpTo(s, c), p);
    }
    EncodeNothing(crc);
    CoveredSurvives(crc, s, [], p);
    if s.g.flushes[b].quiet {
      assert G.FlushOk(s.g, s.g.flushes[b]);
      RecordsAreLogged(crc, s, b);
      CoveredSurvives(crc, s, RecordsUpTo(s, b), p);
    }
  }

  /** The flush of the batch behind a completed one has made it durable. */
  lemma {:induction false} EarlierIsSynced(crc: Checksum, s: State, c: nat)
    requires Inv(crc, s) && c + 1 < |s.done|
    ensures s.done[c] <= |s.w.completed| && |EncodeAll(crc, RecordsUpTo(s, c))| <= |s.g.file|
  {
    hide EncodeAll, P.Inv, RecordsUpTo;
    assert BatchOk(crc, s, c) && BatchOk(crc, s, c + 1) && FloorOk(s.g, c);
    assert G.FlushOk(s.g, s.g.flushes[c + 1]);
  }

  /** Every prefix of the numbered records belongs to a prefix of the requests. */
  lemma {:induction false} NumberedCut(rs: seq<P.Request>, m: nat) returns (n: nat)
    requires m <= |P.Numbered(rs)|
    ensures n <= |rs| && P.Numbered(rs[..n]) == P.Numbered(rs)[..m]
  {
    if m == |P.Numbered(rs)| {
      n := |rs|;
      assert rs[..n] == rs;
    } else {
      var init := rs[..|rs| - 1];
      n := NumberedCut(init, m);
      assert rs[..n] == init[..n];
    }
  }

  /**
   * After a crash at any moment of any run, recovery builds the memtable of some first so many accepted
   * requests: for every key the last write among them.
   */
  lemma {:induction false} CrashRecovers(crc: Checksum, run: seq<State>, i: nat, p: Bytes) returns (n: nat)
    requires IsRun(crc, run) && i < |run| && Survives(run[i], p) && Is32Bit(crc)
    requires forall j :: 0 <= j < |run[i].w.log| ==> Fits(run[i].w.log[j])
    requires NoTornCollision(crc, run[i].w.log, p)
    ensures n <= |run[i].w.accepted| && Replay(crc, p, NO_FIELDS) == P.Numbered(run[i].w.accepted[..n])
    ensures forall k :: P.HoldsLast(P.Rebuilt(Replay(crc, p, NO_FIELDS)), run[i].w.accepted[..n], k)
  {
    hide EncodeAll, Replay, NoTornCollision, P.Numbered, P.Rebuilt, P.HoldsLast;
    var s := run[i];
    RunInv(crc, run, i);
    EncodeNothing(crc);
    CoveredSurvives(crc, s, [], p);
    var rs := P.Processed(s.w);
    n := NumberedCut(rs, |Replay(crc, p, NO_FIELDS)|);
    assert rs[..n] == s.w.accepted[..n];
    assert Replay(crc, p, NO_FIELDS) == P.Numbered(s.w.accepted[..n]);
    forall k ensures P.HoldsLast(P.Rebuilt(Replay(crc, p, NO_FIELDS)), s.w.accepted[..n], k) {
      P.RebuiltHolds(s.w.accepted[..n], k);
    }
  }

  /** Once everything appended is synced, recovery rebuilds the live memtable exactly. */
  lemma {:induction false} SyncedRecovery(crc: Checksum, run: seq<State>, i: nat)
    requires IsRun(crc, run) && i < |run| && Is32Bit(crc) && run[i].g.file == run[i].g.appended
    requires forall j :: 0 <= j < |run[i].w.log| ==> Fits(run[i].w.log[j])
    ensures var rs := Replay(crc, run[i].g.file, NO_FIELDS);
            && rs == run[i].w.log && P.Rebuilt(rs) == run[i].w.mem
            && (rs != [] ==> P.MaxSeq(rs, 1) + 1 == run[i].w.nextSeq)
  {
    hide EncodeAll, Replay, P.Rebuilt;
    RunInv(crc, run, i);
    ReplayAll(crc, run[i].w.log);
    P.NumberedInOrder(P.Processed(run[i].w));
    P.MaxSeqOfNumbered(run[i].w.log);
  }

  // ---------- what may be lost ----------

  lemma {:induction false} Extend(crc: Checksum, run: seq<State>, a: Action) returns (next: seq<State>)
    requires IsRun(crc, run) && run != [] && Enabled(run[|run| - 1], a)
    ensures IsRun(crc, next) && next != [] && next[|next| - 1] == Next(crc, run[|run| - 1], a) && run <= next
  {
    hide Enabled, Next;
    next := run + [Next(crc, run[|run| - 1], a)];
    assert Steps(crc, next[|run| - 1], next[|run|]);
    forall i | 0 <= i < |next| - 1 ensures Steps(crc, next[i], next[i + 1]) {
      if i < |run| - 1 { assert Steps(crc, run[i], run[i + 1]); }
    }
  }

  /** Some request was reported as stored, and replaying the synced file does not bring it back. */
  ghost predicate LosesCompleted(crc: Checksum, s: State) {
    && s.w.completed != [] && (forall c :: c in s.w.completed ==> c.1)
    && Survives(s, s.g.file) && !(P.Numbered(P.Requests(s.w.completed)) <= Replay(crc, s.g.file, NO_FIELDS))
  }

  /** Two puts in one batch; the sync thread swaps between them. */
  lemma {:induction false} TwoProcessed(crc: Checksum, r: P.Request) returns (run: seq<State>)
    requires r.op == P.PUT_OP
    ensures IsRun(crc, run) && run != []
    ensures var e, f := Encode(crc, P.LogRecord(r, 1)), Encode(crc, P.LogRecord(r, 2));
            var s := run[|run| - 1];
            && s.w.batch == [r, r] && s.w.results == [true, true] && s.w.completed == []
            && s.w.log == [P.LogRecord(r, 1), P.LogRecord(r, 2)]
            && s.g == G.START.(syncBuffer := e, writeBuffer := f, appended := e + f, phase := G.Swapped, mark := |e|)
            && s.done == []
  {
    hide IsRun, Encode, P.LogRecord, P.ApplyRecord;
    var e, f := Encode(crc, P.LogRecord(r, 1)), Encode(crc, P.LogRecord(r, 2));
    EncodedNonEmpty(crc, P.LogRecord(r, 1));
    run := [START];
    StartIsRun(crc);
    run := Extend(crc, run, Writer(P.Push(r)));
    run := Extend(crc, run, Writer(P.Push(r)));
    run := Extend(crc, run, Writer(P.PopBatch));
    assert run[|run| - 1].w.batch == [r, r];
    run := Extend(crc, run, Writer(P.Process));
    assert run[|run| - 1].g.writeBuffer == e && run[|run| - 1].g.appended == e;
    run := Extend(crc, run, Log(G.SyncBegin));
    run := Extend(crc, run, Writer(P.Process));
    assert run[|run| - 1].g.writeBuffer == f;
    assert run[|run| - 1].w.results == [true, true];
    assert run[|run| - 1].w.log == [P.LogRecord(r, 1), P.LogRecord(r, 2)];
  }

  lemma {:induction false} StartIsRun(crc: Checksum)
    ensures IsRun(crc, [START])
  {
  }

  lemma {:induction false} EncodedNonEmpty(crc: Checksum, r: Record)
    ensures |Encode(crc, r)| > 0
  {
  }

  lemma {:induction false} AllCompletedLogged(w: P.State)
    requires P.Inv(w) && w.batch == []
    ensures w.log == P.Numbered(P.Requests(w.completed))
  {
    assert P.Processed(w) == P.Requests(w.completed);
  }

  lemma {:induction false} EncodeOne(crc: Checksum, r: Record)
    ensures EncodeAll(crc, [r]) == Encode(crc, r)
  {
    hide Encode;
    assert [r][1..] == [];
  }

  // ---------- the exact condition ----------

  /** The bytes are the encoding of the first so many records of the log. */
  ghost predicate AtBoundary(crc: Checksum, log: seq<Record>, bytes: Bytes) {
    exists n :: 0 <= n <= |log| && bytes == EncodeAll(crc, log[..n])
  }

  /** Both what is synced and what the sync under way will add end between two records. */
  ghost predicate Aligned(crc: Checksum, s: State) {
    AtBoundary(crc, s.w.log, s.g.file) && AtBoundary(crc, s.w.log, s.g.file + s.g.syncBuffer)
  }

  lemma {:induction false} BoundaryStays(crc: Checksum, log: seq<Record>, log': seq<Record>, bytes: Bytes)
    requires AtBoundary(crc, log, bytes) && log <= log'
    ensures AtBoundary(crc, log', bytes)
  {
    hide EncodeAll;
    var n :| 0 <= n <= |log| && bytes == EncodeAll(crc, log[..n]);
    assert log'[..n] == log[..n];
  }

  lemma {:induction false} LogGrows(w: P.State, a: P.Action)
    requires P.Enabled(w, a)
    ensures w.log <= P.Next(w, a).log
  {
  }

  lemma {:induction false} AlignedStep(crc: Checksum, s: State, a: Action)
    requires Inv(crc, s) && Aligned(crc, s) && Enabled(s, a)
    ensures Aligned(crc, Next(crc, s, a))
  {
    hide EncodeAll, Encode, AtBoundary, P.Inv, P.LogRecord, P.ApplyRecord, BatchOk, FloorOk;
    var t := Next(crc, s, a);
    if a.Writer? {
      LogGrows(s.w, a.w);
      BoundaryStays(crc, s.w.log, t.w.log, s.g.file);
      BoundaryStays(crc, s.w.log, t.w.log, s.g.file + s.g.syncBuffer);
    } else if a.g.SyncBegin? && s.g.writeBuffer != [] {
      assert s.g.syncBuffer == [] && s.g.file + t.g.syncBuffer == s.g.appended;
      WholeLog(crc, s.w.log);
    } else if a.g.SyncWrite? {
      assert t.g.file + t.g.syncBuffer == t.g.file;
    }
  }

  lemma {:induction false} WholeLog(crc: Checksum, log: seq<Record>)
    ensures AtBoundary(crc, log, EncodeAll(crc, log))
  {
    hide EncodeAll;
    assert log[..|log|] == log;
  }

  lemma {:induction false} StartAligned(crc: Checksum)
    ensures Aligned(crc, START)
  {
    assert START.g.file == EncodeAll(crc, START.w.log[..0]);
  }

  lemma {:induction false} RunAligned(crc: Checksum, run: seq<State>, i: nat)
    requires IsRun(crc, run) && i < |run|
    ensures Inv(crc, run[i]) && Aligned(crc, run[i])
  {
    hide Inv, Aligned, Enabled, Next;
    RunInv(crc, run, i);
    if i == 0 {
      StartAligned(crc);
    } else {
      RunAligned(crc, run, i - 1);
      assert Steps(crc, run[i - 1], run[i]);
      var a :| Enabled(run[i - 1], a) && run[i] == Next(crc, run[i - 1], a);
      AlignedStep(crc, run[i - 1], a);
    }
  }

  ghost predicate AllFit(rs: seq<Record>) {
    forall i :: 0 <= i < |rs| ==> Fits(rs[i])
  }

  /** Replaying bytes that end at a boundary gives exactly the records up to there. */
  lemma {:induction false} BoundaryReplay(crc: Checksum, log: seq<Record>, bytes: Bytes) returns (n: nat)
    requires Is32Bit(crc) && AllFit(log) && AtBoundary(crc, log, bytes)
    ensures n <= |log| && bytes == EncodeAll(crc, log[..n]) && Replay(crc, bytes, NO_FIELDS) == log[..n]
  {
    hide EncodeAll, Replay;
    n :| 0 <= n <= |log| && bytes == EncodeAll(crc, log[..n]);
    ReplayAll(crc, log[..n]);
  }

  /** The batch the writer is about to flush. */
  ghost predicate AboutToFlush(s: State) {
    AtFlush(s.w) && |s.done| !in s.g.flushes
  }

  /** Batch `b` is completed, and replaying the synced file does not bring all its requests back. */
  ghost predicate Loses(crc: Checksum, s: State, b: nat) {
    && b < |s.done| && s.done[b] <= |s.w.completed|
    && !(RecordsUpTo(s, b) <= Replay(crc, s.g.file, NO_FIELDS))
  }

  /** Some continuation of the run completes batch `b` and can lose it in a crash. */
  ghost predicate CanLose(crc: Checksum, run: seq<State>, b: nat) {
    exists next, t :: Continues(crc, run, next, t) && AllFit(t.w.log) && Loses(crc, t, b)
  }

  /** `run` goes on to `next`, whose last state is `t`. */
  ghost predicate Continues(crc: Checksum, run: seq<State>, next: seq<State>, t: State) {
    IsRun(crc, next) && run != [] && run <= next && next[|next| - 1] == t
  }

  lemma {:induction false} GoOn(crc: Checksum, run: seq<State>, next: seq<State>, s: State, a: Action)
    returns (longer: seq<State>, t: State)
    requires Continues(crc, run, next, s) && Enabled(s, a)
    ensures Continues(crc, run, longer, t) && t == Next(crc, s, a)
  {
    hide Enabled, Next, IsRun;
    longer := Extend(crc, next, a);
    t := longer[|longer| - 1];
  }

  /** The sync under way writes what it swapped, if it has not done so yet. */
  lemma {:induction false} FinishWrite(crc: Checksum, run: seq<State>, next: seq<State>, s: State)
    returns (longer: seq<State>, t: State)
    requires Continues(crc, run, next, s)
    requires s.g.phase.Swapped? || (s.g.phase == G.Synced(false) && s.g.syncBuffer == [])
    ensures Continues(crc, run, longer, t) && t.w == s.w && t.done == s.done
    ensures t.g.phase == G.Synced(false) && t.g.flushes == s.g.flushes && t.g.generation == s.g.generation
    ensures t.g.file == s.g.file + s.g.syncBuffer
  {
    hide Continues;
    if s.g.phase.Swapped? {
      longer, t := GoOn(crc, run, next, s, Log(G.SyncWrite));
    } else {
      longer, t := next, s;
      assert s.g.file + s.g.syncBuffer == s.g.file;
    }
  }

  /** The flush of the current batch begins now and returns as soon as the sync under way has published. */
  lemma {:induction false} HurryFlush(crc: Checksum, run: seq<State>, s: State) returns (next: seq<State>, t: State)
    requires Continues(crc, run, run, s) && Inv(crc, s) && AboutToFlush(s) && !G.Quiet(s.g)
    ensures Continues(crc, run, next, t) && t.w == s.w && t.done == s.done && FlushReturned(t)
    ensures t.g.file == s.g.file + s.g.syncBuffer
  {
    hide Continues, Inv;
    var b := |s.done|;
    LogInv(crc, s);
    next, t := GoOn(crc, run, run, s, Log(G.FlushTicket(b)));
    next, t := GoOn(crc, run, next, t, Log(G.FlushLoad(b)));
    next, t := FinishWrite(crc, run, next, t);
    next, t := GoOn(crc, run, next, t, Log(G.SyncLoad));
    next, t := GoOn(crc, run, next, t, Log(G.SyncPublish));
    next, t := GoOn(crc, run, next, t, Log(G.FlushReturn(b)));
  }

  /** A sync that is not quiet has let go of the buffer. */
  lemma {:induction false} LogInv(crc: Checksum, s: State)
    requires Inv(crc, s)
    ensures !G.Quiet(s.g) ==> s.g.phase.Swapped? || (s.g.phase == G.Synced(false) && s.g.syncBuffer == [])
  {
    hide EncodeAll, P.Inv, G.FlushOk, BatchOk;
  }

  lemma {:induction false} UnquietCanLose(crc: Checksum, run: seq<State>)
    requires IsRun(crc, run) && Is32Bit(crc)
    requires var s := run[|run| - 1]; AboutToFlush(s) && AllFit(s.w.log) && !G.Quiet(s.g)
    ensures CanLose(crc, run, |run[|run| - 1].done|)
  {
    hide Inv, Enabled, EncodeAll, Replay, AllFit, P.Numbered, Continues, AtBoundary;
    var s := run[|run| - 1];
    RunAligned(crc, run, |run| - 1);
    Itself(crc, run);
    var next, t := HurryFlush(crc, run, s);
    CanComplete(t);
    next, t := GoOn(crc, run, next, t, Writer(P.Complete));
    var n := BoundaryReplay(crc, s.w.log, t.g.file);
    MissingBytes(crc, s, n);
    CompletedRecords(crc, run, next, t);
    assert Loses(crc, t, |s.done|);
  }

  lemma {:induction false} Itself(crc: Checksum, run: seq<State>)
    requires IsRun(crc, run)
    ensures Continues(crc, run, run, run[|run| - 1])
  {
  }

  lemma {:induction false} CanComplete(s: State)
    requires AtFlush(s.w) && FlushReturned(s)
    ensures Enabled(s, Writer(P.Complete))
  {
  }

  /** What is still in the write buffer is missing from the file. */
  lemma {:induction false} MissingBytes(crc: Checksum, s: State, n: nat)
    requires Inv(crc, s) && s.g.writeBuffer != [] && n <= |s.w.log|
    requires s.g.file + s.g.syncBuffer == EncodeAll(crc, s.w.log[..n])
    ensures n < |s.w.log|
  {
    hide EncodeAll, P.Inv, BatchOk, FloorOk;
    assert s.w.log[..|s.w.log|] == s.w.log;
  }

  /** After a completion the records of the last batch are the whole log. */
  lemma {:induction false} CompletedRecords(crc: Checksum, run: seq<State>, next: seq<State>, t: State)
    requires Continues(crc, run, next, t) && t.done != [] && t.w.batch == []
    requires t.done[|t.done| - 1] == |t.w.completed|
    ensures RecordsUpTo(t, |t.done| - 1) == t.w.log
  {
    hide EncodeAll, P.Numbered;
    RunInv(crc, next, |next| - 1);
    AllCompletedLogged(t.w);
    assert P.Requests(t.w.completed)[..|t.w.completed|] == P.Requests(t.w.completed);
  }

  /** Batch `b` waits for its flush at a quiet moment, or has begun it at one. */
  ghost predicate QuietBatch(s: State, b: nat) {
    || (|s.done| == b && AboutToFlush(s) && G.Quiet(s.g))
    || (b in s.g.flushes && s.g.flushes[b].quiet)
  }

  /** At its flush the writer appends nothing, so a quiet moment stays quiet until the flush begins. */
  lemma {:induction false} QuietStays(crc: Checksum, s: State, a: Action, b: nat)
    requires Inv(crc, s) && Enabled(s, a) && QuietBatch(s, b)
    ensures QuietBatch(Next(crc, s, a), b)
  {
    hide Inv, Encode, P.LogRecord, P.ApplyRecord;
  }

  lemma {:induction false} QuietRun(crc: Checksum, run: seq<State>, i: nat, j: nat, b: nat)
    requires IsRun(crc, run) && i <= j < |run| && QuietBatch(run[i], b)
    ensures QuietBatch(run[j], b)
    decreases j - i
  {
    hide Inv, Enabled, Next, QuietBatch;
    if i < j {
      QuietRun(crc, run, i, j - 1, b);
      RunInv(crc, run, j - 1);
      assert Steps(crc, run[j - 1], run[j]);
      var a :| Enabled(run[j - 1], a) && run[j] == Next(crc, run[j - 1], a);
      QuietStays(crc, run[j - 1], a, b);
    }
  }

  /** Bytes that end at a record boundary leave no torn record behind. */
  lemma {:induction false} NothingTorn(crc: Checksum, log: seq<Record>, bytes: Bytes)
    requires AtBoundary(crc, log, bytes)
    ensures NoTornCollision(crc, log, bytes)
  {
    hide Encode, EncodeAll, Torn, FieldsAfter;
    var n :| 0 <= n <= |log| && bytes == EncodeAll(crc, log[..n]);
    CutAtBoundary(crc, log, n);
  }

  lemma {:induction false} CutAtBoundary(crc: Checksum, log: seq<Record>, n: nat)
    requires n <= |log|
    ensures Tail(crc, log, EncodeAll(crc, log[..n])) == []
  {
    hide Encode;
    if n == 0 {
      EncodeNothing(crc);
      if log != [] { EncodedNonEmpty(crc, log[0]); }
    } else {
      EncodeFront(crc, log, n - 1);
      var p := EncodeAll(crc, log[..n]);
      assert p[|Encode(crc, log[0])|..] == EncodeAll(crc, log[1..][..n - 1]);
      CutAtBoundary(crc, log[1..], n - 1);
    }
  }

  lemma {:induction false} QuietCannotLose(crc: Checksum, run: seq<State>, next: seq<State>, t: State)
    requires IsRun(crc, run) && Is32Bit(crc) && Continues(crc, run, next, t) && AllFit(t.w.log)
    requires var s := run[|run| - 1]; AboutToFlush(s) && G.Quiet(s.g)
    ensures !Loses(crc, t, |run[|run| - 1].done|)
  {
    hide IsRun, Inv, Replay, NoTornCollision, RecordsUpTo, AtBoundary;
    var b := |run[|run| - 1].done|;
    assert next[|run| - 1] == run[|run| - 1];
    QuietRun(crc, next, |run| - 1, |next| - 1, b);
    RunAligned(crc, next, |next| - 1);
    if b < |t.done| {
      DoneWasAtFlush(crc, t, b);
      NothingTorn(crc, t.w.log, t.g.file);
      FileSurvives(crc, t);
      CompletedSurvives(crc, next, |next| - 1, b, t.g.file);
    }
  }

  lemma {:induction false} DoneWasAtFlush(crc: Checksum, s: State, b: nat)
    requires Inv(crc, s) && b < |s.done|
    ensures b in s.g.flushes
  {
    hide EncodeAll, P.Inv, G.Inv;
    assert BatchOk(crc, s, b);
  }

  lemma {:induction false} FileSurvives(crc: Checksum, s: State)
    requires Inv(crc, s)
    ensures Survives(s, s.g.file)
  {
    hide EncodeAll, P.Inv, BatchOk, FloorOk;
  }

  /**
   * When the writer is about to flush a batch, some continuation completes the batch and loses it in a
   * crash if and only if the moment is not quiet.
   */
  lemma {:induction false} CompletionExact(crc: Checksum, run: seq<State>)
    requires IsRun(crc, run) && Is32Bit(crc)
    requires AboutToFlush(run[|run| - 1]) && AllFit(run[|run| - 1].w.log)
    ensures CanLose(crc, run, |run[|run| - 1].done|) <==> !G.Quiet(run[|run| - 1].g)
  {
    hide Continues, AllFit, Loses, AboutToFlush, Steps;
    var s := run[|run| - 1];
    if G.Quiet(s.g) {
      forall next, t | Continues(crc, run, next, t) && AllFit(t.w.log) ensures !Loses(crc, t, |s.done|) {
        QuietCannotLose(crc, run, next, t);
      }
    } else {
      UnquietCanLose(crc, run);
    }
  }

  /**
   * Such a moment comes: a write that was reported as stored can be gone after a crash, because its flush
   * returned with the record still in the buffer.
   */
  lemma {:induction false} CompletedCanBeLost(crc: Checksum, r: P.Request)
    requires Is32Bit(crc) && r.op == P.PUT_OP && Fits(P.LogRecord(r, 1))
    ensures exists run: seq<State> :: IsRun(crc, run) && run != [] && LosesCompleted(crc, run[|run| - 1])
  {
    hide IsRun, Encode, P.LogRecord, Replay, P.Numbered, Fits, Inv;
    var start := TwoProcessed(crc, r);
    RunInv(crc, start, |start| - 1);
    Itself(crc, start);
    EncodedNonEmpty(crc, P.LogRecord(r, 2));
    var run, t := HurryFlush(crc, start, start[|start| - 1]);
    CanComplete(t);
    run := Extend(crc, run, Writer(P.Complete));
    var s := run[|run| - 1];
    assert s.g.file == Encode(crc, P.LogRecord(r, 1));
    assert s.w.completed == [(r, true), (r, true)];
    RunInv(crc, run, |run| - 1);
    FileSurvives(crc, s);
    WriterInv(crc, s);
    AllCompletedLogged(s.w);
    EncodeOne(crc, P.LogRecord(r, 1));
    ReplayAll(crc, [P.LogRecord(r, 1)]);
    assert LosesCompleted(crc, s);
  }

  lemma {:induction false} WriterInv(crc: Checksum, s: State)
    requires Inv(crc, s)
    ensures P.Inv(s.w)
  {
  }
}
