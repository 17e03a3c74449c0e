/**
 * The write path: pushers, the bounded queue, and the single writer that numbers, logs and completes
 * requests (engine/src/write_queue.cpp:10-29, 48-88, engine/src/engine.cpp:484-547), before the first
 * rotation.
 */
module WritePipeline {
  import opened Types
  import opened SortedMap
  import opened Wal

  const PUT_OP: byte := 1
  const DELETE_OP: byte := 2

  const MAX_QUEUE := 10000
  const MAX_BATCH := 1000

  datatype Request = Request(op: byte, key: Bytes, value: Bytes)

  /** `accepted` lists the requests in the order they entered the queue; `completed` the promises fulfilled for them. */
  datatype State = State(
    accepted: seq<Request>,
    queue: seq<Request>,
    shutdown: bool,
    refused: seq<Request>,
    batch: seq<Request>,
    results: seq<bool>,
    completed: seq<(Request, bool)>,
    mem: seq<Rec>,
    log: seq<Record>,
    nextSeq: nat)

  const START := State([], [], false, [], [], [], [], [], [], 1)

  datatype Action = Push(r: Request) | Shutdown | PopBatch | Process | Complete

  predicate Enabled(s: State, a: Action) {
    match a
    case Push(_) => s.shutdown || |s.queue| < MAX_QUEUE
    case Shutdown => true
    case PopBatch => s.batch == [] && s.queue != []
    case Process => |s.results| < |s.batch|
    case Complete => s.batch != [] && |s.results| == |s.batch|
  }

  predicate IsWrite(r: Request) {
    r.op == PUT_OP || r.op == DELETE_OP
  }

  /** A memtable after one record, live or replayed (engine/src/engine.cpp:285-291, 501-523). */
  function ApplyRecord(mem: seq<Rec>, r: Record): seq<Rec> {
    if r.op == PUT_OP then Insert(mem, r.key, Entry(r.value, r.seqNo, PUT))
    else if r.op == DELETE_OP then Insert(mem, r.key, Entry([], r.seqNo, DELETE))
    else mem
  }

  function LogRecord(r: Request, seqNo: nat): Record {
    Record(r.op, r.key, if r.op == PUT_OP then r.value else [], seqNo)
  }

  function Next(s: State, a: Action): State
    requires Enabled(s, a)
  {
    match a
    case Push(r) =>
      if s.shutdown then s.(refused := s.refused + [r])
      else s.(queue := s.queue + [r], accepted := s.accepted + [r])
    case Shutdown => s.(shutdown := true)
    case PopBatch =>
      var n := if |s.queue| < MAX_BATCH then |s.queue| else MAX_BATCH;
      s.(batch := s.queue[..n], queue := s.queue[n..], results := [])
    case Process =>
      var r := s.batch[|s.results|];
      if IsWrite(r)
      then
        var w := LogRecord(r, s.nextSeq);
        s.(mem := ApplyRecord(s.mem, w), log := s.log + [w], nextSeq := s.nextSeq + 1, results := s.results + [true])
      else s.(results := s.results + [false])
    case Complete =>
      s.(completed := s.completed
                      + seq(|s.batch|, i requires 0 <= i < |s.batch| == |s.results| => (s.batch[i], s.results[i])),
         batch := [], results := [])
  }

  // ---------- what the writer has done ----------

  /** The records of the write requests among `rs`, numbered from 1. */
  function Numbered(rs: seq<Request>): seq<Record> {
    if rs == [] then []
    else
      var init := Numbered(rs[..|rs| - 1]);
      var r := rs[|rs| - 1];
      if IsWrite(r) then init + [LogRecord(r, |init| + 1)] else init
  }

  function Rebuilt(rs: seq<Record>): seq<Rec> {
    if rs == [] then [] else ApplyRecord(Rebuilt(rs[..|rs| - 1]), rs[|rs| - 1])
  }

  function Requests(cs: seq<(Request, bool)>): seq<Request> {
    seq(|cs|, i requires 0 <= i < |cs| => cs[i].0)
  }

  /** Requests the writer has gone through, completed or not. */
  function Processed(s: State): seq<Request>
    requires |s.results| <= |s.batch|
  {
    Requests(s.completed) + s.batch[..|s.results|]
  }

  ghost predicate Inv(s: State) {
    && |s.results| <= |s.batch|
    && s.accepted == Requests(s.completed) + s.batch + s.queue
    && s.log == Numbered(Processed(s)) && s.nextSeq == |s.log| + 1
    && s.mem == Rebuilt(s.log)
    && (forall i :: 0 <= i < |s.completed| ==> s.completed[i].1 == IsWrite(s.completed[i].0))
    && (forall i :: 0 <= i < |s.results| ==> s.results[i] == IsWrite(s.batch[i]))
  }

  lemma {:induction false} NumberedAppend(rs: seq<Request>, r: Request)
    ensures Numbered(rs + [r]) == if IsWrite(r) then Numbered(rs) + [LogRecord(r, |Numbered(rs)| + 1)] else Numbered(rs)
  {
    assert (rs + [r])[..|rs|] == rs;
  }

  lemma {:induction false} RebuiltAppend(rs: seq<Record>, r: Record)
    ensures Rebuilt(rs + [r]) == ApplyRecord(Rebuilt(rs), r)
  {
    assert (rs + [r])[..|rs|] == rs;
  }

  lemma {:induction false} ProcessStep(s: State)
    requires Inv(s) && Enabled(s, Process)
    ensures Inv(Next(s, Process))
  {
    hide Numbered, Rebuilt, ApplyRecord, Requests, LogRecord;
    var t := Next(s, Process);
    var n := |s.results|;
    assert s.batch[..n + 1] == s.batch[..n] + [s.batch[n]];
    assert Processed(t) == Processed(s) + [s.batch[n]];
    NumberedAppend(Processed(s), s.batch[n]);
    RebuiltAppend(s.log, LogRecord(s.batch[n], s.nextSeq));
  }

  lemma {:induction false} CompleteStep(s: State)
    requires Inv(s) && Enabled(s, Complete)
    ensures Inv(Next(s, Complete))
  {
    hide Numbered, Rebuilt;
    var t := Next(s, Complete);
    assert Requests(t.completed) == Requests(s.completed) + s.batch;
    assert s.batch[..|s.batch|] == s.batch;
    assert Processed(t) == Processed(s);
  }

  lemma {:induction false} PopStep(s: State)
    requires Inv(s) && Enabled(s, PopBatch)
    ensures Inv(Next(s, PopBatch))
  {
    hide Numbered, Rebuilt;
    var t := Next(s, PopBatch);
    assert s.queue == t.batch + t.queue;
    assert Processed(t) == Processed(s);
  }

  lemma {:induction false} InvStep(s: State, a: Action)
    requires Inv(s) && Enabled(s, a)
    ensures Inv(Next(s, a))
  {
    hide Numbered, Rebuilt, Requests;
    match a
    case Push(r) =>
      assert Requests(s.completed) + s.batch + (s.queue + [r]) == Requests(s.completed) + s.batch + s.queue + [r];
    case Shutdown =>
    case PopBatch => PopStep(s);
    case Process => ProcessStep(s);
    case Complete => CompleteStep(s);
  }

  ghost predicate Steps(s: State, t: State) {
    exists a :: Enabled(s, a) && t == Next(s, a)
  }

  ghost predicate IsRun(run: seq<State>) {
    run != [] && run[0] == START && forall i :: 0 <= i < |run| - 1 ==> Steps(run[i], run[i + 1])
  }

  lemma {:induction false} RunInv(run: seq<State>, i: nat)
    requires IsRun(run) && i < |run|
    ensures Inv(run[i])
  {
    if i > 0 {
      RunInv(run, i - 1);
      assert Steps(run[i - 1], run[i]);
      var a :| Enabled(run[i - 1], a) && run[i] == Next(run[i - 1], a);
      InvStep(run[i - 1], a);
    }
  }

  // ---------- the results ----------

  lemma {:induction false} NumberedInOrder(rs: seq<Request>)
    ensures forall i :: 0 <= i < |Numbered(rs)| ==> Numbered(rs)[i].seqNo == i + 1
    ensures |Numbered(rs)| <= |rs|
    ensures (forall r :: r in rs ==> IsWrite(r)) ==>
              |Numbered(rs)| == |rs| && forall i :: 0 <= i < |rs| ==> Numbered(rs)[i] == LogRecord(rs[i], i + 1)
  {
    if rs != [] { NumberedInOrder(rs[..|rs| - 1]); }
  }

  /** Requests are completed exactly once, in acceptance order, and a write always succeeds. */
  lemma {:induction false} CompletedOnceInOrder(run: seq<State>, i: nat)
    requires IsRun(run) && i < |run|
    ensures Requests(run[i].completed) <= run[i].accepted
    ensures forall j :: 0 <= j < |run[i].completed| ==> run[i].completed[j].1 == IsWrite(run[i].completed[j].0)
    ensures run[i].queue == [] && run[i].batch == [] ==> Requests(run[i].completed) == run[i].accepted
  {
    RunInv(run, i);
  }

  /** The writer logs the accepted writes in acceptance order under the sequence numbers 1, 2, 3, ... */
  lemma {:induction false} NumberedInAcceptanceOrder(run: seq<State>, i: nat)
    requires IsRun(run) && i < |run|
    ensures exists n :: 0 <= n <= |run[i].accepted| && run[i].log == Numbered(run[i].accepted[..n])
    ensures forall j :: 0 <= j < |run[i].log| ==> run[i].log[j].seqNo == j + 1
    ensures run[i].nextSeq == |run[i].log| + 1
  {
    RunInv(run, i);
    var s := run[i];
    assert Processed(s) == s.accepted[..|Processed(s)|];
    NumberedInOrder(Processed(s));
  }

  // ---------- recovery ----------

  /** `recover` (engine/src/engine.cpp:279-298): memtable and next sequence number from the log file. */
  method Recover(crc: Checksum, file: Bytes, start: nat) returns (mem: seq<Rec>, nextSeq: nat)
    ensures mem == Rebuilt(Replay(crc, file, NO_FIELDS))
    ensures file == [] ==> nextSeq == start
    ensures file != [] ==> nextSeq == MaxSeq(Replay(crc, file, NO_FIELDS), start) + 1
  {
    hide Replay, ApplyRecord;
    mem, nextSeq := [], start;
    if file == [] {
      NothingToReplay(crc);
      return;
    }
    var records := ReplayFile(crc, file);
    var maxSeq := start;
    for i := 0 to |records|
      invariant mem == Rebuilt(records[..i]) && maxSeq == MaxSeq(records[..i], start)
    {
      assert records[..i + 1][..i] == records[..i];
      if records[i].seqNo > maxSeq { maxSeq := records[i].seqNo; }
      mem := ApplyRecord(mem, records[i]);
    }
    assert records[..|records|] == records;
    nextSeq := maxSeq + 1;
  }

  lemma {:induction false} NothingToReplay(crc: Checksum)
    ensures Replay(crc, [], NO_FIELDS) == []
  {
  }

  function MaxSeq(rs: seq<Record>, start: nat): nat {
    if rs == [] then start
    else
      var m := MaxSeq(rs[..|rs| - 1], start);
      if rs[|rs| - 1].seqNo > m then rs[|rs| - 1].seqNo else m
  }

  lemma {:induction false} MaxSeqOfNumbered(rs: seq<Record>)
    requires forall i :: 0 <= i < |rs| ==> rs[i].seqNo == i + 1
    ensures MaxSeq(rs, 1) == if rs == [] then 1 else |rs|
  {
    if rs != [] { MaxSeqOfNumbered(rs[..|rs| - 1]); }
  }

  /**
   * Before the first rotation, replaying the synced log rebuilds the live memtable exactly and the
   * numbering goes on where the writer was, above every replayed number.
   */
  lemma {:induction false} RecoveryRebuildsMemtable(run: seq<State>, i: nat, crc: Checksum)
    requires IsRun(run) && i < |run| && Is32Bit(crc)
    requires forall j :: 0 <= j < |run[i].log| ==> Fits(run[i].log[j])
    ensures var rs := Replay(crc, EncodeAll(crc, run[i].log), NO_FIELDS);
            && Rebuilt(rs) == run[i].mem
            && (run[i].log != [] ==> MaxSeq(rs, 1) + 1 == run[i].nextSeq)
            && forall j :: 0 <= j < |rs| ==> rs[j].seqNo < run[i].nextSeq
  {
    hide Replay, EncodeAll;
    RunInv(run, i);
    NumberedInAcceptanceOrder(run, i);
    ReplayAll(crc, run[i].log);
    MaxSeqOfNumbered(run[i].log);
  }

  // ---------- what the memtable holds ----------

  /** How many of the requests are writes: 1 is PUT and 2 is DELETE (engine/include/types.h). */
  function CountWrites(rs: seq<Request>): nat {
    if rs == [] then 0
    else CountWrites(rs[..|rs| - 1]) + if rs[|rs| - 1].op == 1 || rs[|rs| - 1].op == 2 then 1 else 0
  }

  /** The position of the last write to a key. */
  function LastWriteAt(rs: seq<Request>, k: Bytes): (i: Option<nat>)
    ensures i.Some? ==> i.value < |rs|
  {
    if rs == [] then None
    else
      var r := rs[|rs| - 1];
      if (r.op == 1 || r.op == 2) && r.key == k then Some(|rs| - 1) else LastWriteAt(rs[..|rs| - 1], k)
  }

  /** What a memtable owes a key after the requests: its last write, numbered among all writes. */
  ghost predicate HoldsLast(mem: seq<Rec>, rs: seq<Request>, k: Bytes) {
    var i := LastWriteAt(rs, k);
    if i.None? then Find(mem, k) == None
    else
      var r, n := rs[i.value], CountWrites(rs[..i.value + 1]);
      Find(mem, k) == Some(if r.op == 1 then Entry(r.value, n, PUT) else Entry([], n, DELETE))
  }

  lemma {:induction false} CountIsLength(rs: seq<Request>)
    ensures |Numbered(rs)| == CountWrites(rs)
  {
    if rs != [] { CountIsLength(rs[..|rs| - 1]); }
  }

  lemma {:induction false} RebuiltSorted(rs: seq<Record>)
    ensures Sorted(Rebuilt(rs))
  {
    if rs != [] {
      var mem, r := Rebuilt(rs[..|rs| - 1]), rs[|rs| - 1];
      RebuiltSorted(rs[..|rs| - 1]);
      InsertSorted(mem, r.key, Entry(r.value, r.seqNo, PUT));
      InsertSorted(mem, r.key, Entry([], r.seqNo, DELETE));
    }
  }

  lemma {:induction false} HoldsLastStays(mem: seq<Rec>, mem': seq<Rec>, rs: seq<Request>, r: Request, k: Bytes)
    requires HoldsLast(mem, rs, k) && Find(mem', k) == Find(mem, k) && !((r.op == 1 || r.op == 2) && r.key == k)
    ensures HoldsLast(mem', rs + [r], k)
  {
    hide Find, CountWrites;
    assert (rs + [r])[..|rs|] == rs;
    var i := LastWriteAt(rs, k);
    if i.Some? { assert (rs + [r])[..i.value + 1] == rs[..i.value + 1]; }
  }

  /** The memtable built from the records of the requests holds every key's last write, and nothing else. */
  lemma {:induction false} RebuiltHolds(rs: seq<Request>, k: Bytes)
    ensures HoldsLast(Rebuilt(Numbered(rs)), rs, k)
  {
    hide Find, Insert, Sorted;
    if rs == [] {
      EmptyHolds(k);
    } else {
      var init, r := rs[..|rs| - 1], rs[|rs| - 1];
      var mem := Rebuilt(Numbered(init));
      assert rs == init + [r];
      RebuiltHolds(init, k);
      NumberedAppend(init, r);
      CountIsLength(init);
      var w := LogRecord(r, |Numbered(init)| + 1);
      RebuiltAppend(Numbered(init), w);
      RebuiltSorted(Numbered(init));
      InsertFind(mem, r.key, Entry(w.value, w.seqNo, PUT), k);
      InsertFind(mem, r.key, Entry([], w.seqNo, DELETE), k);
      if (r.op == 1 || r.op == 2) && r.key == k {
        assert rs[..|rs|] == rs;
      } else {
        HoldsLastStays(mem, Rebuilt(Numbered(rs)), init, r, k);
      }
    }
  }

  lemma {:induction false} EmptyHolds(k: Bytes)
    ensures HoldsLast([], [], k)
  {
  }

  /** In every run the live memtable holds the last processed write of every key. */
  lemma {:induction false} MemtableHolds(run: seq<State>, i: nat, k: Bytes)
    requires IsRun(run) && i < |run|
    ensures |run[i].results| <= |run[i].batch| && HoldsLast(run[i].mem, Processed(run[i]), k)
    ensures Processed(run[i]) <= run[i].accepted
  {
    RunInv(run, i);
    RebuiltHolds(Processed(run[i]), k);
  }

  /** So does the memtable recovered from the log of any requests. */
  lemma {:induction false} RecoveredHolds(crc: Checksum, rs: seq<Request>, k: Bytes)
    requires Is32Bit(crc) && forall j :: 0 <= j < |Numbered(rs)| ==> Fits(Numbered(rs)[j])
    ensures HoldsLast(Rebuilt(Replay(crc, EncodeAll(crc, Numbered(rs)), NO_FIELDS)), rs, k)
  {
    hide Replay, EncodeAll, Numbered, Rebuilt, HoldsLast;
    ReplayAll(crc, Numbered(rs));
    RebuiltHolds(rs, k);
  }

  /** The number recovery goes on from is the greatest replayed, or the start. */
  lemma {:induction false} MaxSeqIsMax(rs: seq<Record>, start: nat)
    ensures MaxSeq(rs, start) >= start && forall i :: 0 <= i < |rs| ==> rs[i].seqNo <= MaxSeq(rs, start)
    ensures MaxSeq(rs, start) == start || exists i :: 0 <= i < |rs| && rs[i].seqNo == MaxSeq(rs, start)
  {
    if rs != [] {
      var init := rs[..|rs| - 1];
      MaxSeqIsMax(init, start);
      assert forall i :: 0 <= i < |init| ==> init[i] == rs[i];
    }
  }

  // ---------- the bounded queue ----------

  /** The actions of a run. */
  ghost predicate IsTrace(run: seq<State>, acts: seq<Action>) {
    && |run| == |acts| + 1 && run[0] == START
    && forall i :: 0 <= i < |acts| ==> Enabled(run[i], acts[i]) && run[i + 1] == Next(run[i], acts[i])
  }

  /** The requests pushed before any shutdown, or after one. */
  function Pushed(acts: seq<Action>, late: bool): seq<Request> {
    if acts == [] then []
    else
      var init, a := acts[..|acts| - 1], acts[|acts| - 1];
      Pushed(init, late) + if a.Push? && (Shutdown in init <==> late) then [a.r] else []
  }

  /** A pushed request is accepted exactly if no shutdown came before it, and refused exactly if one did. */
  lemma {:induction false} AcceptedOrRefused(run: seq<State>, acts: seq<Action>)
    requires IsTrace(run, acts)
    ensures var s := run[|acts|];
            && (s.shutdown <==> Shutdown in acts)
            && s.accepted == Pushed(acts, false) && s.refused == Pushed(acts, true)
  {
    if acts != [] {
      var n := |acts| - 1;
      assert acts == acts[..n] + [acts[n]];
      assert forall i :: 0 <= i < n ==> acts[..n][i] == acts[i];
      AcceptedOrRefused(run[..|acts|], acts[..n]);
      PushStep(run[n], acts[n]);
    }
  }

  lemma {:induction false} PushStep(s: State, a: Action)
    requires Enabled(s, a)
    ensures var t := Next(s, a);
            && t.shutdown == (s.shutdown || a == Shutdown)
            && t.accepted == s.accepted + (if a.Push? && !s.shutdown then [a.r] else [])
            && t.refused == s.refused + (if a.Push? && s.shutdown then [a.r] else [])
  {
  }

  /** The queue never holds more than 10000 requests, and the writer takes at most 1000 at a time. */
  lemma {:induction false} QueueBounded(run: seq<State>, i: nat)
    requires IsRun(run) && i < |run|
    ensures |run[i].queue| <= 10000 && |run[i].batch| <= 1000
  {
    if i > 0 {
      QueueBounded(run, i - 1);
      assert Steps(run[i - 1], run[i]);
    }
  }

  /** A batch is all there is, or the first 1000. */
  lemma {:induction false} BatchTaken(s: State)
    requires Enabled(s, PopBatch)
    ensures var t := Next(s, PopBatch);
            && t.batch + t.queue == s.queue && t.batch != []
            && (t.queue == [] || |t.batch| == 1000) && |t.batch| <= 1000
  {
  }

  // ---------- the queue object ----------

  class WriteQueue {
    var queue: seq<Request>
    var shutdown: bool
    const maxSize: nat

    constructor (maxSize: nat)
      ensures queue == [] && !shutdown && this.maxSize == maxSize
    {
      this.maxSize := maxSize;
      queue, shutdown := [], false;
    }

    /** `push` once its wait is over; `refused` is the promise set to false. */
    method Push(r: Request) returns (refused: bool)
      requires |queue| < maxSize || shutdown
      modifies this
      ensures refused == old(shutdown) && shutdown == old(shutdown)
      ensures queue == if refused then old(queue) else old(queue) + [r]
    {
      if shutdown { return true; }
      queue := queue + [r];
      refused := false;
    }

    /** The draining loop of `popBatch`, once its wait is over. */
    method PopBatch(maxBatch: nat) returns (batch: seq<Request>)
      requires queue != [] || shutdown
      modifies this`queue
      ensures batch + queue == old(queue) && |batch| <= maxBatch
      ensures |batch| == maxBatch || queue == []
    {
      batch := [];
      while queue != [] && |batch| < maxBatch
        invariant batch + queue == old(queue) && |batch| <= maxBatch
        decreases |queue|
      {
        batch := batch + [queue[0]];
        queue := queue[1..];
      }
    }
  }
}
