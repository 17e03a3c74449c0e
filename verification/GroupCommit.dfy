/**
 * Double-buffered group commit (engine/src/wal.cpp:54-79, 104-148). The sync thread's `doSync` is cut
 * where other threads can run: begin (swap or find nothing), write, load the generation, publish it.
 * A sync that finds nothing holds `buffer_mutex_` until it has published; one that swapped does not.
 */
module GroupCommit {
  import opened Types
  import opened Wal
  import Encoding

  datatype Phase = Idle | Swapped | Synced(locked: bool) | Loaded(gen: nat, locked: bool)

  /**
   * A `flush` call: it takes its own `ticket` (`fetch_add`), then loads the generation it waits for.
   * `begun` bytes had been appended when it began, `floor` of them before some flush that had already
   * returned by then began; `quiet` says what the sync thread was doing (see Quiet).
   */
  datatype Flush = Flush(ticket: nat, wait: Option<nat>, begun: nat, floor: nat, quiet: bool, returned: bool)

  /**
   * `mark` is the number of bytes appended when the current sync began, `returned` the most bytes any
   * returned flush began with.
   */
  datatype State = State(
    file: Bytes, syncBuffer: Bytes, writeBuffer: Bytes, appended: Bytes,
    phase: Phase, mark: nat, generation: nat, synced: nat,
    flushes: map<nat, Flush>, returned: nat, published: nat)

  const START := State([], [], [], [], Idle, 0, 0, 0, map[], 0, 0)

  datatype Action =
    | Append(bytes: Bytes)
    | SyncBegin
    | SyncWrite
    | SyncLoad
    | SyncPublish
    | FlushTicket(id: nat)
    | FlushLoad(id: nat)
    | FlushReturn(id: nat)

  /** The sync thread holds `buffer_mutex_`, which `append` and a waiting `flush` need. */
  predicate Locked(s: State) {
    (s.phase.Synced? || s.phase.Loaded?) && s.phase.locked
  }

  predicate Enabled(s: State, a: Action) {
    match a
    case Append(_) => !Locked(s)
    case SyncBegin => s.phase.Idle?
    case SyncWrite => s.phase.Swapped?
    case SyncLoad => s.phase.Synced?
    case SyncPublish => s.phase.Loaded?
    case FlushTicket(id) => id !in s.flushes
    case FlushLoad(id) => id in s.flushes && s.flushes[id].wait.None?
    case FlushReturn(id) =>
      && !Locked(s) && id in s.flushes && !s.flushes[id].returned
      && s.flushes[id].wait.Some? && s.synced >= s.flushes[id].wait.value
  }

  /** A moment at which a starting flush is sure to cover its own records. */
  predicate Quiet(s: State) {
    s.phase.Idle? || s.phase.Loaded? || s.writeBuffer == []
  }

  function Next(s: State, a: Action): State
    requires Enabled(s, a)
  {
    match a
    case Append(b) => s.(writeBuffer := s.writeBuffer + b, appended := s.appended + b)
    case SyncBegin =>
      if s.writeBuffer == [] then s.(phase := Synced(true), mark := |s.appended|)
      else s.(phase := Swapped, mark := |s.appended|, syncBuffer := s.writeBuffer, writeBuffer := [])
    case SyncWrite => s.(phase := Synced(false), file := s.file + s.syncBuffer, syncBuffer := [])
    case SyncLoad => s.(phase := Loaded(s.generation, s.phase.locked))
    case SyncPublish => s.(phase := Idle, synced := s.phase.gen, published := |s.appended|)
    case FlushTicket(id) =>
      s.(generation := s.generation + 1,
         flushes := s.flushes[id := Flush(s.generation + 1, None, |s.appended|, s.returned, Quiet(s), false)])
    case FlushLoad(id) => s.(flushes := s.flushes[id := s.flushes[id].(wait := Some(s.generation))])
    case FlushReturn(id) =>
      s.(flushes := s.flushes[id := s.flushes[id].(returned := true)],
         returned := if s.flushes[id].begun > s.returned then s.flushes[id].begun else s.returned)
  }

  // ---------- invariant ----------

  ghost predicate FlushOk(s: State, f: Flush) {
    && f.ticket <= s.generation && f.begun <= |s.appended| && f.floor <= s.returned
    && (f.wait.Some? ==> f.ticket <= f.wait.value)
    && (f.ticket <= s.synced ==> f.begun <= s.published && f.floor <= |s.file|)
    && (f.quiet && f.ticket <= s.synced ==> f.begun <= |s.file|)
    && (f.quiet ==> s.phase.Idle? || f.begun <= s.mark || (s.phase.Loaded? && s.phase.gen < f.ticket))
    && (f.returned ==> f.begun <= s.returned && f.ticket <= s.synced)
  }

  ghost predicate Inv(s: State) {
    && s.file + s.syncBuffer + s.writeBuffer == s.appended
    && (!s.phase.Swapped? ==> s.syncBuffer == []) && (Locked(s) ==> s.writeBuffer == [])
    && (!s.phase.Idle? ==> s.published <= s.mark && |s.file| + |s.syncBuffer| == s.mark)
    && s.mark <= |s.appended| && s.published <= |s.appended|
    && s.synced <= s.generation && (s.phase.Loaded? ==> s.synced <= s.phase.gen <= s.generation)
    && s.returned <= s.published
    && forall id :: id in s.flushes ==> FlushOk(s, s.flushes[id])
  }

  lemma {:induction false} FlushStep(s: State, a: Action, id: nat)
    requires Inv(s) && Enabled(s, a) && id in Next(s, a).flushes
    ensures FlushOk(Next(s, a), Next(s, a).flushes[id])
  {
    if id in s.flushes { assert FlushOk(s, s.flushes[id]); }
  }

  lemma {:induction false} InvStep(s: State, a: Action)
    requires Inv(s) && Enabled(s, a)
    ensures Inv(Next(s, a))
  {
    forall id | id in Next(s, a).flushes ensures FlushOk(Next(s, a), Next(s, a).flushes[id]) { FlushStep(s, a, id); }
    if a.FlushReturn? { assert FlushOk(s, s.flushes[a.id]); }
  }

  ghost predicate Steps(s: State, t: State) {
    exists a :: Enabled(s, a) && t == Next(s, a)
  }

  ghost predicate IsRun(run: seq<State>) {
    run != [] && run[0] == START && forall i :: 0 <= i < |run| - 1 ==> Steps(run[i], run[i + 1])
  }

  lemma {:induction false} RunInv(run: seq<State>, i: nat)
    requires IsRun(run) && i < |run|
    ensures Inv(run[i])
  {
    if i > 0 {
      RunInv(run, i - 1);
      assert Steps(run[i - 1], run[i]);
      var a :| Enabled(run[i - 1], a) && run[i] == Next(run[i - 1], a);
      InvStep(run[i - 1], a);
    }
  }

  /** No byte is lost, duplicated or reordered on its way to the file. */
  lemma {:induction false} NothingLost(run: seq<State>, i: nat)
    requires IsRun(run) && i < |run|
    ensures run[i].file + run[i].syncBuffer + run[i].writeBuffer == run[i].appended
  {
    RunInv(run, i);
  }

  /** When a flush may return, everything appended before an earlier, already returned flush began is in the file. */
  lemma {:induction false} EarlierFlushDurable(run: seq<State>, i: nat, id: nat)
    requires IsRun(run) && i < |run| && Enabled(run[i], FlushReturn(id))
    ensures run[i].flushes[id].floor <= |run[i].file| <= |run[i].appended|
    ensures run[i].appended[..run[i].flushes[id].floor] <= run[i].file
  {
    RunInv(run, i);
    assert FlushOk(run[i], run[i].flushes[id]);
  }

  /** `floor` means what it says: it is at least what any flush that had returned before began with. */
  lemma {:induction false} FloorCoversReturned(run: seq<State>, i: nat, id: nat, other: nat)
    requires IsRun(run) && i < |run| && Enabled(run[i], FlushTicket(id))
    requires other in run[i].flushes && run[i].flushes[other].returned
    ensures run[i].flushes[other].begun <= Next(run[i], FlushTicket(id)).flushes[id].floor
  {
    RunInv(run, i);
    assert FlushOk(run[i], run[i].flushes[other]);
  }

  /** A flush that began at a quiet moment finds its own records in the file when it returns. */
  lemma {:induction false} QuietFlushDurable(run: seq<State>, i: nat, id: nat)
    requires IsRun(run) && i < |run| && Enabled(run[i], FlushReturn(id)) && run[i].flushes[id].quiet
    ensures run[i].flushes[id].begun <= |run[i].file| <= |run[i].appended|
    ensures run[i].appended[..run[i].flushes[id].begun] <= run[i].file
  {
    RunInv(run, i);
    assert FlushOk(run[i], run[i].flushes[id]);
  }

  // ---------- the condition is exact ----------

  /** The shortest way on: take the ticket, finish the write that is under way, publish. */
  function Hurry(s: State, id: nat): (run: seq<State>)
    requires id !in s.flushes && (s.phase.Swapped? || s.phase.Synced?)
  {
    var s1 := Next(s, FlushTicket(id));
    var s2 := Next(s1, FlushLoad(id));
    var s3 := if s.phase.Swapped? then Next(s2, SyncWrite) else s2;
    var s4 := Next(s3, SyncLoad);
    var s5 := Next(s4, SyncPublish);
    if s.phase.Swapped? then [s, s1, s2, s3, s4, s5] else [s, s1, s2, s4, s5]
  }

  /**
   * Exactly when the moment is not quiet, a flush that begins there can return before its own records
   * are in the file: the sync under way swapped before them but publishes a generation loaded after.
   */
  lemma {:induction false} UnquietFlushMayLie(s: State, id: nat)
    requires Inv(s) && id !in s.flushes && !Quiet(s)
    ensures var run := Hurry(s, id);
            && (forall i :: 0 <= i < |run| - 1 ==> Steps(run[i], run[i + 1]))
            && Enabled(run[|run| - 1], FlushReturn(id))
            && run[|run| - 1].flushes[id].begun > |run[|run| - 1].file|
  {
    var s1 := Next(s, FlushTicket(id));
    var s2 := Next(s1, FlushLoad(id));
    assert Enabled(s, FlushTicket(id)) && Enabled(s1, FlushLoad(id));
    if s.phase.Swapped? {
      var s3 := Next(s2, SyncWrite);
      var s4 := Next(s3, SyncLoad);
      assert Enabled(s2, SyncWrite) && Enabled(s3, SyncLoad) && Enabled(s4, SyncPublish);
    } else {
      var s4 := Next(s2, SyncLoad);
      assert Enabled(s2, SyncLoad) && Enabled(s4, SyncPublish);
    }
  }

  /** Such a moment comes: a record appended while the sync thread is writing the one before it. */
  lemma {:induction false} UnquietIsReachable(b: Bytes)
    requires b != []
    ensures exists run: seq<State> :: IsRun(run) && !Quiet(run[|run| - 1])
  {
    var s1 := Next(START, Append(b));
    var s2 := Next(s1, SyncBegin);
    var s3 := Next(s2, Append(b));
    var run := [START, s1, s2, s3];
    assert Enabled(START, Append(b)) && Enabled(s1, SyncBegin) && Enabled(s2, Append(b));
    assert Steps(run[0], run[1]) && Steps(run[1], run[2]) && Steps(run[2], run[3]);
    assert IsRun(run);
  }

  // ---------- crashes ----------

  /**
   * Whatever byte prefix of the file survives a crash at any moment, replay applies a prefix of the
   * appended records, given no collision on the torn tuple.
   */
  lemma {:induction false} CrashReplay(run: seq<State>, i: nat, crc: Checksum, rs: seq<Record>, p: Bytes)
    requires IsRun(run) && i < |run| && Encodes(crc, rs, run[i].appended)
    requires p <= run[i].file && NoTornCollision(crc, rs, p)
    ensures AppliesPrefix(crc, rs, p)
  {
    hide Encode, EncodeAll, Whole, Tail, Replay, NoTornCollision;
    RunInv(run, i);
    assert run[i].file <= run[i].appended;
    assert p <= run[i].appended;
    ReplayPrefix(crc, rs, p);
  }

  // ---------- the log object ----------

  class WriteAheadLog {
    var file: Bytes
    var syncBuffer: Bytes
    var writeBuffer: Bytes
    var syncGeneration: nat
    var syncedGeneration: nat

    constructor ()
      ensures file == [] && syncBuffer == [] && writeBuffer == [] && syncGeneration == 0 && syncedGeneration == 0
    {
      file, syncBuffer, writeBuffer, syncGeneration, syncedGeneration := [], [], [], 0, 0;
    }

    /** `append`, field by field. */
    method Append(crc: Checksum, r: Record)
      modifies this`writeBuffer
      ensures writeBuffer == old(writeBuffer) + Encode(crc, r)
    {
      hide Encoding.ToLE;
      ghost var before := writeBuffer;
      writeBuffer := writeBuffer + Encoding.ToLE(crc(r), 4);
      writeBuffer := writeBuffer + Encoding.ToLE(r.seqNo, 8);
      writeBuffer := writeBuffer + [r.op];
      writeBuffer := writeBuffer + Encoding.ToLE(|r.key|, 4);
      writeBuffer := writeBuffer + Encoding.ToLE(|r.value|, 4);
      writeBuffer := writeBuffer + r.key;
      writeBuffer := writeBuffer + r.value;
      assert writeBuffer == before + Encode(crc, r);
    }

    /** The front of `flush`: the generation it then waits for. */
    method RequestSync() returns (myGen: nat)
      modifies this`syncGeneration
      ensures syncGeneration == old(syncGeneration) + 1 && myGen == syncGeneration
    {
      syncGeneration := syncGeneration + 1;
      myGen := syncGeneration;
    }

    /** `doSync` with nothing else in between: every flush requested before it may return. */
    method DoSync()
      requires syncBuffer == []
      modifies this
      ensures file == old(file) + old(writeBuffer) && syncBuffer == [] && writeBuffer == []
      ensures syncGeneration == old(syncGeneration) && syncedGeneration == syncGeneration
    {
      if |writeBuffer| == 0 {
        assert file == old(file) + old(writeBuffer);
        syncedGeneration := syncGeneration;
        return;
      }
      writeBuffer, syncBuffer := syncBuffer, writeBuffer;
      writeBuffer := [];
      file := file + syncBuffer;
      syncBuffer := [];
      syncedGeneration := syncGeneration;
    }
  }
}
