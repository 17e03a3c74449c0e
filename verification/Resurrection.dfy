/**
 * Keys do get uncovered: a run from a fresh engine in which a deleted key comes back, because an L0 to L1
 * compaction drops a tombstone over an older copy at level 2. Every compaction of the run starts under
 * the program's own trigger (engine/src/engine.cpp:594-613).
 */
module Resurrection {
  import opened Types
  import opened SortedMap
  import opened Merge
  import opened Levels
  import opened Compaction
  import opened CompactionProof
  import opened EngineModel
  import opened EngineProof
  import opened EngineRuns

  // ---------- the trigger ----------

  /** `klevelSizes`, in bytes. */
  const LEVEL_SIZES: seq<nat> := [0, 10 * 1024 * 1024, 100 * 1024 * 1024, 1024 * 1024 * 1024]

  function TotalSize(size: Table -> nat, ts: seq<Table>): nat {
    if ts == [] then 0 else TotalSize(size, ts[..|ts| - 1]) + size(ts[|ts| - 1])
  }

  /** `shouldCompactUnlocked`, for tables of the given file sizes. */
  predicate ShouldCompact(size: Table -> nat, levels: seq<seq<Table>>, level: nat) {
    && level < |levels| && levels[level] != []
    && if level == 0 then |levels[0]| >= 4
       else level < |LEVEL_SIZES| && TotalSize(size, levels[level]) > LEVEL_SIZES[level]
  }

  lemma {:induction false} TotalSizeAdds(size: Table -> nat, ts: seq<Table>, t: Table)
    ensures TotalSize(size, []) == 0 && TotalSize(size, ts + [t]) == TotalSize(size, ts) + size(t)
  {
    assert (ts + [t])[..|ts|] == ts;
  }

  /** When a level asks for a compaction: four tables at level 0, 10 MiB, 100 MiB and 1 GiB below, never deeper. */
  lemma {:induction false} TriggerExactly(size: Table -> nat, levels: seq<seq<Table>>, level: nat)
    requires level < |levels|
    ensures var total := TotalSize(size, levels[level]);
            ShouldCompact(size, levels, level) <==>
            || (level == 0 && |levels[0]| >= 4)
            || (level == 1 && total > 10_485_760)
            || (level == 2 && total > 104_857_600)
            || (level == 3 && total > 1_073_741_824)
  {
  }

  ghost predicate TriggeredStep(size: Table -> nat, s: State, t: State) {
    exists a :: Enabled(s, a) && t == Next(s, a) && (a.CompactStart? ==> ShouldCompact(size, s.levels, a.level))
  }

  /** A run in which a compaction starts only when its level asks for one. */
  ghost predicate IsTriggeredRun(size: Table -> nat, run: seq<State>) {
    run != [] && run[0] == FRESH && forall i :: 0 <= i < |run| - 1 ==> TriggeredStep(size, run[i], run[i + 1])
  }

  lemma {:induction false} TriggeredIsRun(size: Table -> nat, run: seq<State>)
    requires IsTriggeredRun(size, run)
    ensures IsRun(run)
  {
    hide Enabled, Next;
    forall i | 0 <= i < |run| - 1 ensures Steps(run[i], run[i + 1]) {
      assert TriggeredStep(size, run[i], run[i + 1]);
    }
  }

  // ---------- tables of one record ----------

  lemma {:induction false} FindOne(r: Rec, k: Bytes)
    ensures Find([r], k) == if r.key == k then Some(r.entry) else None
  {
    assert [r][1..] == [];
  }

  lemma {:induction false} OneOk(r: Rec)
    requires r.entry.kind == PUT
    ensures Sorted([r]) && TombstonesEmpty([r])
  {
  }

  ghost predicate Ascending(rs: seq<Rec>) {
    forall i, j :: 0 <= i < j < |rs| ==> rs[i].entry.seqNo < rs[j].entry.seqNo
  }

  /** The last record of a key is its newest one. */
  lemma {:induction false} LastIsNewest(rs: seq<Rec>, k: Bytes)
    requires Ascending(rs)
    ensures var e := LastWrite(rs, k);
            if e.Some?
            then
              && Rec(k, e.value) in rs
              && forall i :: 0 <= i < |rs| && rs[i].key == k ==> rs[i].entry.seqNo <= e.value.seqNo
            else forall i :: 0 <= i < |rs| ==> rs[i].key != k
  {
    if rs != [] { LastIsNewest(rs[..|rs| - 1], k); }
  }

  /** Table `i` holds the single record `rs[i]`. */
  ghost predicate Singles(ts: seq<Table>, rs: seq<Rec>) {
    |ts| == |rs| && forall i :: 0 <= i < |ts| ==> ts[i].recs == [rs[i]]
  }

  lemma {:induction false} MergeOfSingles(ts: seq<Table>, rs: seq<Rec>, r: Rec)
    requires Singles(ts, rs) && Ascending(rs) && r.entry.kind == PUT
    requires forall k :: Strip(LastWrite(rs, k)) == if k == r.key then Some(r.entry) else None
    ensures IsMerge(Runs(ts), [r])
  {
    hide LastWrite, Find, Sorted;
    OneOk(r);
    var runs := Runs(ts);
    forall k ensures MergedRight(runs, [r], k) {
      forall i | 0 <= i < |runs|
        ensures Find(runs[i], k) == if rs[i].key == k then Some(rs[i].entry) else None
      {
        FindOne(rs[i], k);
      }
      FindOne(r, k);
      LastIsNewest(rs, k);
      var e := LastWrite(rs, k);
      if e.Some? {
        var i :| 0 <= i < |rs| && rs[i] == Rec(k, e.value);
        assert Find(runs[i], k) == e;
        assert IsNewest(runs, k, e.value);
      }
    }
  }

  // ---------- compacting a level into an empty one ----------

  lemma {:induction false} LoneInputs(levels: seq<seq<Table>>, level: nat)
    requires LevelsOk(levels) && level + 1 < |levels| && levels[level] != [] && levels[level + 1] == []
    requires level == 0 || |levels[level]| == 1
    ensures Inputs(levels, level) == Sources(levels, level) == levels[level]
  {
    hide TableOk, HullLo, HullHi;
    assert NextInputs(levels, level) == [];
  }

  lemma {:induction false} InstallBelow(levels: seq<seq<Table>>, level: nat, table: Table)
    requires Ready(levels, levels, level, table) && levels[level + 1] == []
    requires level == 0 || |levels[level]| == 1
    ensures Install(levels, levels, level, table) == levels[level := []][level + 1 := [table]]
  {
    hide TableOk, Less, IsMerge, Disjoint, NoTombstones, DistinctIds, Inputs, FreshId, AllPut, SortByLo, InsertByLo,
         HullLo, HullHi, Ids;
    InstallLevels(levels, levels, level, table);
    LoneInputs(levels, level);
    var post: seq<seq<Table>> := Install(levels, levels, level, table);
    assert Without(levels[level + 1], Ids(Inputs(levels, level))) == [];
    SortOne(table);
    assert post[level + 1] == [table];
    assert post == levels[level := []][level + 1 := [table]];
  }

  lemma {:induction false} SortOne(table: Table)
    requires TableOk(table)
    ensures SortByLo([] + [table]) == [table]
  {
    hide TableOk;
    assert [] + [table] == [table];
    assert [table][..0] == [];
  }

  lemma {:induction false} InstallSingles(s: State, level: nat, rs: seq<Rec>, r: Rec)
    requires Inv(s) && s.pending == Some(Pending(level, s.levels))
    requires level + 1 < |s.levels| && s.levels[level] != [] && s.levels[level + 1] == []
    requires level == 0 || |s.levels[level]| == 1
    requires Singles(s.levels[level], rs) && Ascending(rs) && r.entry.kind == PUT
    requires forall k :: Strip(LastWrite(rs, k)) == if k == r.key then Some(r.entry) else None
    ensures Enabled(s, CompactInstall([r]))
    ensures Next(s, CompactInstall([r]))
            == s.(levels := s.levels[level := []][level + 1 := [Table(s.counter + 1, [r])]],
                  counter := s.counter + 1, pending := None)
  {
    hide Sorted, TombstonesEmpty, Less, Find, IsMerge, Shaped, Recency, MapOk, TablesRecorded, Install, Inputs,
         Ready, HullLo, HullHi, LastWrite, Singles, Ascending;
    assert Structure(s);
    assert LevelsOk(s.levels) && |s.levels| >= 4 by { assert Shaped(s.levels); ShapedLevels(s.levels); }
    LoneInputs(s.levels, level);
    MergeOfSingles(s.levels[level], rs, r);
    OneOk(r);
    MergedTable(s, [r]);
    InstallBelow(s.levels, level, Table(s.counter + 1, [r]));
  }

  // ---------- building the run ----------

  lemma {:induction false} Step(size: Table -> nat, run: seq<State>, a: Action) returns (next: seq<State>)
    requires IsTriggeredRun(size, run) && run != [] && Enabled(run[|run| - 1], a)
    requires a.CompactStart? ==> ShouldCompact(size, run[|run| - 1].levels, a.level)
    ensures IsTriggeredRun(size, next) && next != []
    ensures next[|next| - 1] == Next(run[|run| - 1], a) && Inv(next[|next| - 1])
  {
    hide Next, Enabled, Inv, ShouldCompact;
    next := run + [Next(run[|run| - 1], a)];
    assert TriggeredStep(size, next[|run| - 1], next[|run|]);
    forall i | 0 <= i < |next| - 1 ensures TriggeredStep(size, next[i], next[i + 1]) {
      if i < |run| - 1 {
        assert next[i] == run[i] && next[i + 1] == run[i + 1] && TriggeredStep(size, run[i], run[i + 1]);
      }
    }
    TriggeredIsRun(size, next);
    RunInv(next, |next| - 1);
  }

  /** Between flushes and compactions: nothing in memory, nothing under way. */
  predicate Settled(s: State) {
    s.mem == [] && s.imm.None? && !s.installed && s.pending.None? && |s.levels| == 4
  }

  /** A settled state after one write that is flushed at once. */
  function AfterFlush(s: State, a: Action): State
    requires a.Write? && Settled(s)
  {
    var r := Rec(a.key, EntryOf(a, s.nextSeq));
    s.(levels := s.levels[0 := s.levels[0] + [Table(s.counter + 1, [r])]], counter := s.counter + 1,
       nextSeq := s.nextSeq + 1, hist := s.hist + [r])
  }

  lemma {:induction false} WriteAndFlush(size: Table -> nat, run: seq<State>, a: Action) returns (next: seq<State>)
    requires IsTriggeredRun(size, run) && run != [] && Settled(run[|run| - 1]) && a.Write?
    ensures IsTriggeredRun(size, next) && next != [] && next[|next| - 1] == AfterFlush(run[|run| - 1], a)
  {
    hide Inv, IsTriggeredRun, ShouldCompact;
    next := Step(size, run, a);
    next := Step(size, next, Rotate);
    next := Step(size, next, FlushInstall);
    next := Step(size, next, DropImmutable);
  }

  /** The tables of a level merged into one of a single record, one level down. */
  lemma {:induction false} CompactSingles(size: Table -> nat, run: seq<State>, level: nat, rs: seq<Rec>, r: Rec)
    returns (next: seq<State>)
    requires IsTriggeredRun(size, run) && run != [] && Settled(run[|run| - 1]) && level < 3
    requires var s := run[|run| - 1];
             && ShouldCompact(size, s.levels, level) && s.levels[level + 1] == []
             && (level == 0 || |s.levels[level]| == 1) && Singles(s.levels[level], rs)
    requires Ascending(rs) && r.entry.kind == PUT
    requires forall k :: Strip(LastWrite(rs, k)) == if k == r.key then Some(r.entry) else None
    ensures IsTriggeredRun(size, next) && next != []
    ensures var s := run[|run| - 1];
            next[|next| - 1] == s.(levels := s.levels[level := []][level + 1 := [Table(s.counter + 1, [r])]],
                                   counter := s.counter + 1)
  {
    hide Inv, Install, IsTriggeredRun, LastWrite, Singles, Ascending;
    next := Step(size, run, CompactStart(level));
    InstallSingles(next[|next| - 1], level, rs, r);
    next := Step(size, next, CompactInstall([r]));
  }

  // ---------- the run ----------

  const K: Bytes := [1]
  const J: Bytes := [2]

  /** The n-th write: the key four times, its deletion, then another key three times. */
  function Nth(v: Bytes, n: nat): Rec {
    if n <= 4 then Rec(K, Entry(v, n, PUT))
    else if n == 5 then Rec(K, Entry([], n, DELETE))
    else Rec(J, Entry([], n, PUT))
  }

  function WriteOf(v: Bytes, n: nat): Action {
    if n <= 4 then Write(K, v, PUT) else if n == 5 then Write(K, [], DELETE) else Write(J, [], PUT)
  }

  /** Writes `from` up to `end`. */
  function Writes(v: Bytes, from: nat, end: nat): seq<Rec>
    requires from <= end
  {
    seq(end - from, i requires 0 <= i < end - from => Nth(v, from + i))
  }

  function TablesOf(rs: seq<Rec>, id: nat): seq<Table> {
    seq(|rs|, i requires 0 <= i < |rs| => Table(id + i, [rs[i]]))
  }

  /** Some writes flushed one by one, over the given deeper levels. */
  ghost function Batch(v: Bytes, from: nat, end: nat, id: nat, deep: seq<Table>): State
    requires 1 <= from <= end && 1 <= id
  {
    State([], None, false, [TablesOf(Writes(v, from, end), id), [], deep, []], end, id - 1 + (end - from), None,
          Writes(v, 1, end))
  }

  lemma {:induction false} FlushBatch(size: Table -> nat, run: seq<State>, v: Bytes, from: nat, end: nat, id: nat,
                                      deep: seq<Table>)
    returns (next: seq<State>)
    requires 1 <= from <= end && 1 <= id
    requires IsTriggeredRun(size, run) && run != [] && run[|run| - 1] == Batch(v, from, from, id, deep)
    ensures IsTriggeredRun(size, next) && next != [] && next[|next| - 1] == Batch(v, from, end, id, deep)
    decreases end - from
  {
    hide IsTriggeredRun;
    next := run;
    if from < end {
      var n := end - 1;
      next := FlushBatch(size, run, v, from, n, id, deep);
      var s := next[|next| - 1];
      next := WriteAndFlush(size, next, WriteOf(v, n));
      assert Rec(WriteOf(v, n).key, EntryOf(WriteOf(v, n), n)) == Nth(v, n);
      WritesGrow(v, from, n, id);
      WritesGrow(v, 1, n, id);
      assert next[|next| - 1].levels == [TablesOf(Writes(v, from, end), id), [], deep, []];
    }
  }

  lemma {:induction false} WritesGrow(v: Bytes, from: nat, n: nat, id: nat)
    requires from <= n
    ensures Writes(v, from, n + 1) == Writes(v, from, n) + [Nth(v, n)]
    ensures TablesOf(Writes(v, from, n + 1), id)
            == TablesOf(Writes(v, from, n), id) + [Table(id + (n - from), [Nth(v, n)])]
  {
  }

  lemma {:induction false} BatchSingles(v: Bytes, from: nat, end: nat, id: nat)
    requires from <= end
    ensures Singles(TablesOf(Writes(v, from, end), id), Writes(v, from, end)) && Ascending(Writes(v, from, end))
  {
    var rs := Writes(v, from, end);
    forall i | 0 <= i < |rs| ensures rs[i].entry.seqNo == from + i { assert rs[i] == Nth(v, from + i); }
  }

  function Expected(v: Bytes, from: nat, end: nat, k: Bytes): Option<Entry> {
    if from < end && k == J && end >= 7 then Some(Nth(v, end - 1).entry)
    else if from < end && k == K && from <= 5 then Some(Nth(v, if end >= 7 then 5 else end - 1).entry)
    else None
  }

  /** The key's last entry among the given writes. */
  lemma {:induction false} LastOfWrites(v: Bytes, from: nat, end: nat, k: Bytes)
    requires 1 <= from <= end <= 9
    ensures LastWrite(Writes(v, from, end), k) == Expected(v, from, end, k)
    decreases end - from
  {
    if from < end {
      WritesGrow(v, from, end - 1, 0);
      LastWriteAppend(Writes(v, from, end - 1), Nth(v, end - 1), k);
      LastOfWrites(v, from, end - 1, k);
    }
  }

  /** A table's file is at least as long as any value in it. */
  ghost predicate SizesHold(size: Table -> nat) {
    forall t: Table, i :: 0 <= i < |t.recs| ==> size(t) >= |t.recs[i].entry.value|
  }

  lemma {:induction false} BigTable(size: Table -> nat, t: Table, r: Rec)
    requires SizesHold(size) && t.recs == [r] && |r.entry.value| > LEVEL_SIZES[1]
    ensures TotalSize(size, [t]) > LEVEL_SIZES[1]
  {
    assert [t][..0] == [];
    assert size(t) >= |t.recs[0].entry.value|;
  }

  /** Four versions of the key flushed, merged, and moved on to level 2. */
  lemma {:induction false} OldCopySinks(size: Table -> nat, v: Bytes) returns (run: seq<State>)
    requires SizesHold(size) && |v| > LEVEL_SIZES[1]
    ensures IsTriggeredRun(size, run) && run != [] && run[|run| - 1] == Batch(v, 5, 5, 7, [Table(6, [Nth(v, 4)])])
  {
    hide IsTriggeredRun, LastWrite, Singles, Ascending, SizesHold;
    run := [FRESH];
    assert IsTriggeredRun(size, run) by { RunOfOne(size); }
    assert run[0] == Batch(v, 1, 1, 1, []);
    run := FlushBatch(size, run, v, 1, 5, 1, []);
    var rs := Writes(v, 1, 5);
    BatchSingles(v, 1, 5, 1);
    forall k ensures Strip(LastWrite(rs, k)) == if k == K then Some(Nth(v, 4).entry) else None {
      LastOfWrites(v, 1, 5, k);
    }
    run := CompactSingles(size, run, 0, rs, Nth(v, 4));
    var t := Table(5, [Nth(v, 4)]);
    assert run[|run| - 1].levels == [[], [t], [], []];
    BigTable(size, t, Nth(v, 4));
    OneSingle(t, Nth(v, 4));
    run := CompactSingles(size, run, 1, [Nth(v, 4)], Nth(v, 4));
    assert run[|run| - 1].levels == [[], [], [Table(6, [Nth(v, 4)])], []];
  }

  lemma {:induction false} RunOfOne(size: Table -> nat)
    ensures IsTriggeredRun(size, [FRESH])
  {
  }

  lemma {:induction false} OneSingle(t: Table, r: Rec)
    requires t.recs == [r] && r.entry.kind == PUT
    ensures Singles([t], [r]) && Ascending([r])
    ensures forall k :: Strip(LastWrite([r], k)) == if k == r.key then Some(r.entry) else None
  {
    assert [r][..0] == [];
  }

  /** The levels once the tombstone has been merged away above the old copy. */
  function FinalLevels(v: Bytes): seq<seq<Table>> {
    [[], [Table(11, [Nth(v, 8)])], [Table(6, [Nth(v, 4)])], []]
  }

  /** The deleted key is answered with its old value. */
  lemma {:induction false} DeletedKeyReturns(size: Table -> nat, v: Bytes) returns (run: seq<State>)
    requires SizesHold(size) && |v| > LEVEL_SIZES[1]
    ensures IsTriggeredRun(size, run) && run != []
    ensures var s := run[|run| - 1];
            && LevelsOk(s.levels)
            && SpecGet(s.hist, K) == None
            && Lookup(s, K) == Some(Entry(v, 4, PUT))
  {
    hide IsTriggeredRun, LastWrite, Singles, Ascending, SizesHold;
    run := OldCopySinks(size, v);
    run := FlushBatch(size, run, v, 5, 9, 7, [Table(6, [Nth(v, 4)])]);
    var rs := Writes(v, 5, 9);
    BatchSingles(v, 5, 9, 7);
    forall k ensures Strip(LastWrite(rs, k)) == if k == J then Some(Nth(v, 8).entry) else None {
      LastOfWrites(v, 5, 9, k);
    }
    run := CompactSingles(size, run, 0, rs, Nth(v, 8));
    assert run[|run| - 1].levels == FinalLevels(v);
    LastOfWrites(v, 1, 9, K);
    FinalLookup(v);
  }

  lemma {:induction false} FinalLookup(v: Bytes)
    ensures LevelsOk(FinalLevels(v)) && SampledGet([], None, FinalLevels(v), K) == Some(Entry(v, 4, PUT))
  {
    var levels := FinalLevels(v);
    var upper, lower := levels[1][0], levels[2][0];
    OneOk(Nth(v, 8));
    OneOk(Nth(v, 4));
    assert TableOk(upper) && TableOk(lower);
    assert Less(K, J) && !Less(J, K);
    assert LowerBound([upper], K) == 0 && LowerBound([lower], K) == 0;
    FindOne(Nth(v, 4), K);
    LessIrreflexive(K);
    assert Probe([upper], K) == None && Probe([lower], K) == Some(Entry(v, 4, PUT));
    assert SearchFrom(levels, 2, K, None) == Some(Entry(v, 4, PUT));
    assert SearchFrom(levels, 1, K, None) == SearchFrom(levels, 2, K, None);
    assert SearchFrom(levels, 0, K, None) == SearchFrom(levels, 1, K, None);
  }

  /** A deleted key that is answered with a value. */
  ghost predicate AnswersDeleted(s: State, k: Bytes) {
    LevelsOk(s.levels) && SpecGet(s.hist, k) == None && Lookup(s, k).Some?
  }

  /** Hence `get` is not always right: some triggered run ends with a deleted key answered. */
  lemma {:induction false} ProvisoIsNeeded(size: Table -> nat, v: Bytes)
    requires SizesHold(size) && |v| > LEVEL_SIZES[1]
    ensures exists run :: IsTriggeredRun(size, run) && IsRun(run) && AnswersDeleted(run[|run| - 1], K)
  {
    var run := DeletedKeyReturns(size, v);
    TriggeredIsRun(size, run);
    assert AnswersDeleted(run[|run| - 1], K);
  }
}
