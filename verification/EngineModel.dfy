/**
 * The storage engine as a state machine. Rotation and each copy-edit-install of a version are one
 * step (engine/src/engine.cpp:349-360, 403-421, 435, 484-530, 643-945).
 */
module EngineModel {
  import opened Types
  import opened SortedMap
  import opened Merge
  import opened Levels
  import opened Compaction
  import opened CompactionProof

  /** A compaction between its snapshot (engine/src/engine.cpp:644, 799) and its installation. */
  datatype Pending = Pending(level: nat, snap: seq<seq<Table>>)

  /**
   * `installed` says that the immutable memtable's table is already in the version.
   * `hist` is the specification: the n-th write carries sequence number n.
   */
  datatype State = State(
    mem: seq<Rec>,
    imm: Option<seq<Rec>>,
    installed: bool,
    levels: seq<seq<Table>>,
    nextSeq: nat,
    counter: nat,
    pending: Option<Pending>,
    hist: seq<Rec>)

  datatype Action =
    | Write(key: Bytes, value: Bytes, kind: EntryType)
    | Rotate
    | FlushInstall
    | DropImmutable
    | CompactStart(level: nat)
    | CompactInstall(merged: seq<Rec>)
    | CompactSkip

  const FRESH := State([], None, false, [[], [], [], []], 1, 0, None, [])

  ghost predicate MergesInto(p: Pending, merged: seq<Rec>) {
    && LevelsOk(p.snap) && p.level + 1 < |p.snap| && p.snap[p.level] != []
    && IsMerge(Runs(Inputs(p.snap, p.level)), merged)
  }

  ghost predicate Enabled(s: State, a: Action) {
    match a
    case Write(_, _, _) => true
    case Rotate => s.imm.None?
    case FlushInstall => s.imm.Some? && s.imm.value != [] && !s.installed && |s.levels| >= 1
    case DropImmutable => s.imm.Some? && (s.installed || s.imm.value == [])
    case CompactStart(l) => s.pending.None? && l < 3 && l + 1 < |s.levels| && s.levels[l] != []
    case CompactInstall(merged) =>
      && s.pending.Some? && merged != [] && MergesInto(s.pending.value, merged)
      && LevelsOk(s.levels) && |s.levels| == |s.pending.value.snap| && TableOk(Table(s.counter + 1, merged))
    case CompactSkip => s.pending.Some? && MergesInto(s.pending.value, [])
  }

  function EntryOf(a: Action, seqNo: nat): Entry
    requires a.Write?
  {
    if a.kind == PUT then Entry(a.value, seqNo, PUT) else Entry([], seqNo, DELETE)
  }

  ghost function Next(s: State, a: Action): State
    requires Enabled(s, a)
  {
    match a
    case Write(k, _, _) =>
      var e := EntryOf(a, s.nextSeq);
      s.(mem := Insert(s.mem, k, e), nextSeq := s.nextSeq + 1, hist := s.hist + [Rec(k, e)])
    case Rotate => s.(mem := [], imm := Some(s.mem), installed := false)
    case FlushInstall =>
      s.(levels := s.levels[0 := s.levels[0] + [Table(s.counter + 1, s.imm.value)]],
         counter := s.counter + 1, installed := true)
    case DropImmutable => s.(imm := None, installed := false)
    case CompactStart(l) => s.(pending := Some(Pending(l, s.levels)))
    case CompactInstall(merged) =>
      var p := s.pending.value;
      s.(levels := Install(s.levels, p.snap, p.level, Table(s.counter + 1, merged)),
         counter := s.counter + 1, pending := None)
    case CompactSkip => s.(pending := None)
  }

  // ---------- lookups ----------

  function FindIn(m: Option<seq<Rec>>, k: Bytes): Option<Entry> {
    if m.Some? then Find(m.value, k) else None
  }

  /** `get` from its three samples (engine/src/engine.cpp:154-215, cache aside). */
  function SampledGet(mem: seq<Rec>, imm: Option<seq<Rec>>, levels: seq<seq<Table>>, k: Bytes): Option<Entry>
    requires LevelsOk(levels)
  {
    var candidate := Newer(Find(mem, k), FindIn(imm, k));
    Strip(SearchFrom(levels, 0, k, candidate))
  }

  function Lookup(s: State, k: Bytes): Option<Entry>
    requires LevelsOk(s.levels)
  {
    SampledGet(s.mem, s.imm, s.levels, k)
  }

  /** The specification: the last write to a key. */
  function LastWrite(hist: seq<Rec>, k: Bytes): Option<Entry> {
    if hist == [] then None
    else if hist[|hist| - 1].key == k then Some(hist[|hist| - 1].entry)
    else LastWrite(hist[..|hist| - 1], k)
  }

  /** The value a key holds: its last write unless that was a delete. */
  function SpecGet(hist: seq<Rec>, k: Bytes): Option<Entry> {
    Strip(LastWrite(hist, k))
  }

  // ---------- invariants ----------

  ghost predicate InHist(hist: seq<Rec>, r: Rec) {
    1 <= r.entry.seqNo <= |hist| && hist[r.entry.seqNo - 1] == r
  }

  ghost predicate Recorded(hist: seq<Rec>, recs: seq<Rec>) {
    forall i :: 0 <= i < |recs| ==> InHist(hist, recs[i])
  }

  ghost predicate MapOk(hist: seq<Rec>, recs: seq<Rec>) {
    Sorted(recs) && TombstonesEmpty(recs) && Recorded(hist, recs)
  }

  ghost predicate TablesRecorded(s: State) {
    forall l, i :: 0 <= l < |s.levels| && 0 <= i < |s.levels[l]| ==>
      Recorded(s.hist, s.levels[l][i].recs) && s.levels[l][i].id <= s.counter
  }

  /** What holds of the stores as a whole. */
  ghost predicate Structure(s: State) {
    && s.nextSeq == |s.hist| + 1
    && (forall i :: 0 <= i < |s.hist| ==> s.hist[i].entry.seqNo == i + 1)
    && MapOk(s.hist, s.mem)
    && (s.imm.Some? ==> MapOk(s.hist, s.imm.value))
    && (s.installed ==> s.imm.Some?)
    && Shaped(s.levels) && TablesRecorded(s)
    && (s.pending.Some? ==>
          && Grown(s.pending.value.snap, s.levels)
          && s.pending.value.level + 1 < |s.levels|
          && s.pending.value.snap[s.pending.value.level] != [])
  }

  ghost predicate Above(a: Option<Entry>, b: Option<Entry>) {
    a.Some? && b.Some? ==> a.value.seqNo > b.value.seqNo
  }

  /** Recency of one key over all stores: memtable, immutable memtable, levels. */
  ghost predicate Recency(s: State, k: Bytes)
    requires Structure(s)
  {
    var m, i, v := Find(s.mem, k), FindIn(s.imm, k), NewestInLevels(s.levels, k);
    && Recent(s.levels, k)
    && Above(m, i) && Above(m, v)
    && (!s.installed ==> Above(i, v))
    && (s.installed && i.Some? && v.Some? ==> i.value.seqNo >= v.value.seqNo)
    && (s.installed && i.Some? && i.value.kind == PUT ==> v == i)
  }

  ghost predicate Inv(s: State) {
    Structure(s) && forall k :: Recency(s, k)
  }

  /** The newest stored entry: memtable first, then the immutable one, then the levels. */
  function Newest(s: State, k: Bytes): Option<Entry>
    requires LevelsOk(s.levels) && |s.levels| >= 1
  {
    if Find(s.mem, k).Some? then Find(s.mem, k)
    else if FindIn(s.imm, k).Some? then FindIn(s.imm, k)
    else NewestInLevels(s.levels, k)
  }

  // ---------- facts ----------

  lemma {:induction false} FoundInHist(hist: seq<Rec>, recs: seq<Rec>, k: Bytes)
    requires Recorded(hist, recs) && Find(recs, k).Some?
    ensures InHist(hist, Rec(k, Find(recs, k).value))
  {
    var i := FindIndex(recs, k);
    assert recs[i] == Rec(k, Find(recs, k).value);
  }

  lemma {:induction false} ProbeInHist(s: State, l: nat, k: Bytes)
    requires Structure(s) && l < |s.levels| && Probe(s.levels[l], k).Some?
    ensures InHist(s.hist, Rec(k, Probe(s.levels[l], k).value))
  {
    var i := ProbeSound(s.levels[l], k);
    FoundInHist(s.hist, s.levels[l][i].recs, k);
  }

  lemma {:induction false} NewestInLevelsInHist(s: State, k: Bytes)
    requires Structure(s) && Recent(s.levels, k) && NewestInLevels(s.levels, k).Some?
    ensures InHist(s.hist, Rec(k, NewestInLevels(s.levels, k).value))
  {
    hide Find, Probe, NewestInLevels, DistinctIds, Disjoint, NoTombstones, Recent, MapOk;
    NewestIsMax(s.levels, k);
    var r := NewestInLevels(s.levels, k);
    if i :| 0 <= i < |s.levels[0]| && Find(s.levels[0][i].recs, k) == r {
      FoundInHist(s.hist, s.levels[0][i].recs, k);
    } else {
      var m :| 1 <= m < |s.levels| && Probe(s.levels[m], k) == r;
      ProbeInHist(s, m, k);
    }
  }

  /** What the level loop returns for a candidate was written, and is at least as new as the candidate. */
  lemma {:induction false} SearchResult(s: State, k: Bytes, c: Entry)
    requires Structure(s) && Recent(s.levels, k)
    ensures var r := SearchFrom(s.levels, 0, k, Some(c));
            && r.Some? && r.value.seqNo >= c.seqNo
            && (r == Some(c) || InHist(s.hist, Rec(k, r.value)))
            && (NewestInLevels(s.levels, k).Some? && c.seqNo >= NewestInLevels(s.levels, k).value.seqNo
                ==> r.value.seqNo == c.seqNo)
            && (NewestInLevels(s.levels, k).None? ==> r == Some(c))
  {
    hide Find, Probe, NewestInLevels, DistinctIds, Disjoint, NoTombstones, Recent, MapOk, SearchFrom;
    SearchWithCandidate(s.levels, 0, k, c);
    NewestIsMax(s.levels, k);
    var r := SearchFrom(s.levels, 0, k, Some(c));
    if r != Some(c) {
      if i :| 0 <= i < |s.levels[0]| && Find(s.levels[0][i].recs, k) == r {
        FoundInHist(s.hist, s.levels[0][i].recs, k);
      } else {
        var m :| 1 <= m < |s.levels| && Probe(s.levels[m], k) == r;
        ProbeInHist(s, m, k);
      }
    }
  }

  /** `get` with its early exits returns the newest stored entry. */
  lemma {:induction false} LookupIsNewest(s: State, k: Bytes)
    requires Structure(s) && Recency(s, k)
    ensures Lookup(s, k) == Strip(Newest(s, k))
  {
    hide Find, NewestInLevels, DistinctIds, Disjoint, NoTombstones, Recent, SearchFrom, Sorted, TombstonesEmpty;
    var m, i := Find(s.mem, k), FindIn(s.imm, k);
    var c := Newer(m, i);
    if c.Some? {
      SearchResult(s, k, c.value);
      if m.Some? { FoundInHist(s.hist, s.mem, k); } else { FoundInHist(s.hist, s.imm.value, k); }
    } else {
      SearchIsNewest(s.levels, k);
    }
  }

  /** ... which is the entry of maximal sequence number over all stores. */
  lemma {:induction false} NewestIsMaximum(s: State, k: Bytes)
    requires Structure(s) && Recency(s, k)
    ensures var n := Newest(s, k);
            && (Find(s.mem, k).Some? ==> n.Some? && Find(s.mem, k).value.seqNo <= n.value.seqNo)
            && (FindIn(s.imm, k).Some? ==> n.Some? && FindIn(s.imm, k).value.seqNo <= n.value.seqNo)
            && (forall l, i :: 0 <= l < |s.levels| && 0 <= i < |s.levels[l]| && Find(s.levels[l][i].recs, k).Some? ==>
                  n.Some? && Find(s.levels[l][i].recs, k).value.seqNo <= n.value.seqNo)
            && (n.Some? ==> n == Find(s.mem, k) || n == FindIn(s.imm, k)
                            || exists l, i :: 0 <= l < |s.levels| && 0 <= i < |s.levels[l]|
                                              && Find(s.levels[l][i].recs, k) == n)
  {
    hide Find, NewestInLevels, Recent, MapOk, Probe, Disjoint;
    NewestIsMax(s.levels, k);
    var n := Newest(s, k);
    forall l, i | 0 <= l < |s.levels| && 0 <= i < |s.levels[l]| && Find(s.levels[l][i].recs, k).Some?
      ensures n.Some? && Find(s.levels[l][i].recs, k).value.seqNo <= n.value.seqNo
    {
      if l > 0 { ProbeFinds(s.levels[l], k, i); }
    }
    if n.Some? && n != Find(s.mem, k) && n != FindIn(s.imm, k)
       && !exists i :: 0 <= i < |s.levels[0]| && Find(s.levels[0][i].recs, k) == n
    {
      var l :| 1 <= l < |s.levels| && Probe(s.levels[l], k) == n;
      var i := ProbeSound(s.levels[l], k);
      assert Find(s.levels[l][i].recs, k) == n;
    }
  }
}
