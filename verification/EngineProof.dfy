/** Every step of the engine keeps the invariant. */
module EngineProof {
  import opened Types
  import opened SortedMap
  import opened Merge
  import opened Levels
  import opened Compaction
  import opened CompactionProof
  import opened EngineModel

  // ---------- structure ----------

  lemma {:induction false} RecordedGrows(hist: seq<Rec>, r: Rec, recs: seq<Rec>)
    requires Recorded(hist, recs)
    ensures Recorded(hist + [r], recs)
  {
    forall i | 0 <= i < |recs| ensures InHist(hist + [r], recs[i]) { assert InHist(hist, recs[i]); }
  }

  lemma {:induction false} WriteStructure(s: State, a: Action)
    requires Structure(s) && a.Write?
    ensures Structure(Next(s, a))
  {
    hide Less, Sorted, Shaped, Find, Insert, Grown;
    var e := EntryOf(a, s.nextSeq);
    var t := Next(s, a);
    var r := Rec(a.key, e);
    InsertSorted(s.mem, a.key, e);
    forall i | 0 <= i < |t.mem|
      ensures InHist(t.hist, t.mem[i]) && (t.mem[i].entry.kind == DELETE ==> t.mem[i].entry.value == [])
    {
      assert t.mem[i] == r || t.mem[i] in s.mem;
    }
    if s.imm.Some? { RecordedGrows(s.hist, r, s.imm.value); }
    forall l, i | 0 <= l < |t.levels| && 0 <= i < |t.levels[l]| ensures Recorded(t.hist, t.levels[l][i].recs) {
      RecordedGrows(s.hist, r, s.levels[l][i].recs);
    }
  }

  lemma {:induction false} FlushStructure(s: State)
    requires Structure(s) && Enabled(s, FlushInstall)
    ensures Structure(Next(s, FlushInstall))
  {
    hide Less, Sorted, Find, Disjoint, NoTombstones, TombstonesEmpty, Recorded;
    var t := Next(s, FlushInstall);
    var n := |s.levels[0]|;
    var table := Table(s.counter + 1, s.imm.value);
    assert TableOk(table);
    assert forall l, i :: 0 <= l < |t.levels| && 0 <= i < |t.levels[l]| ==>
      t.levels[l][i] == if l == 0 && i == n then table else s.levels[l][i];
    assert forall l :: 1 <= l < |t.levels| ==> t.levels[l] == s.levels[l];
  }

  /** The merged table: puts only, recorded, and a legal table. */
  lemma {:induction false} MergedTable(s: State, merged: seq<Rec>)
    requires Structure(s) && Enabled(s, CompactInstall(merged))
    ensures Recorded(s.hist, merged)
    ensures Ready(s.levels, s.pending.value.snap, s.pending.value.level, Table(s.counter + 1, merged))
  {
    hide Less, HullLo, HullHi, DistinctIds, Disjoint, NoTombstones, Overlapping;
    var p := s.pending.value;
    var inputs := Inputs(p.snap, p.level);
    forall i | 0 <= i < |merged| ensures merged[i].entry.kind == PUT && InHist(s.hist, merged[i]) {
      var k := merged[i].key;
      FindAt(merged, i);
      assert MergedRight(Runs(inputs), merged, k);
      var e :| IsNewest(Runs(inputs), k, e) && Find(merged, k) == Strip(Some(e));
      var n :| 0 <= n < |Runs(inputs)| && Find(Runs(inputs)[n], k) == Some(e);
      InputRecorded(s, n);
      FoundInHist(s.hist, inputs[n].recs, k);
    }
  }

  lemma {:induction false} InputRecorded(s: State, n: nat)
    requires Structure(s) && s.pending.Some? && LevelsOk(s.pending.value.snap)
    requires n < |Inputs(s.pending.value.snap, s.pending.value.level)|
    ensures Recorded(s.hist, Inputs(s.pending.value.snap, s.pending.value.level)[n].recs)
  {
    var p := s.pending.value;
    var src := Sources(p.snap, p.level);
    if n < |src| {
      assert src[n] == s.levels[p.level][n];
    } else {
      OverlappingMembers(p.snap[p.level + 1], HullLo(src), HullHi(src));
      assert NextInputs(p.snap, p.level)[n - |src|] in NextInputs(p.snap, p.level);
      var j :| 0 <= j < |s.levels[p.level + 1]| && s.levels[p.level + 1][j] == NextInputs(p.snap, p.level)[n - |src|];
    }
  }

  lemma {:induction false} InstallStructure(s: State, merged: seq<Rec>)
    requires Structure(s) && Enabled(s, CompactInstall(merged))
    ensures Structure(Next(s, CompactInstall(merged)))
  {
    hide Less, Sorted, Find, Disjoint, NoTombstones, TombstonesEmpty, Recorded, Inputs, Install, DistinctIds,
         MergesInto;
    var p := s.pending.value;
    var table := Table(s.counter + 1, merged);
    MergedTable(s, merged);
    InstallShaped(s.levels, p.snap, p.level, table);
    InstallLevels(s.levels, p.snap, p.level, table);
    var t := Next(s, CompactInstall(merged));
    forall l, i | 0 <= l < |t.levels| && 0 <= i < |t.levels[l]|
      ensures Recorded(t.hist, t.levels[l][i].recs) && t.levels[l][i].id <= t.counter
    {
      var j := InstallOrigin(s.levels, p.snap, p.level, table, l, i);
    }
  }

  /** Shape, uniqueness of ids and history hold after every step. */
  lemma {:induction false} StructureStep(s: State, a: Action)
    requires Structure(s) && Enabled(s, a)
    ensures Structure(Next(s, a))
  {
    match a
    case Write(_, _, _) => WriteStructure(s, a);
    case FlushInstall => FlushStructure(s);
    case CompactInstall(merged) => InstallStructure(s, merged);
    case Rotate =>
    case DropImmutable =>
    case CompactStart(_) =>
    case CompactSkip =>
  }

  // ---------- recency ----------

  lemma {:induction false} WriteRecency(s: State, a: Action, k: Bytes)
    requires Structure(s) && Recency(s, k) && a.Write? && Structure(Next(s, a))
    ensures Recency(Next(s, a), k)
    ensures Find(Next(s, a).mem, k) == if k == a.key then Some(EntryOf(a, s.nextSeq)) else Find(s.mem, k)
  {
    hide Less, Sorted, DistinctIds, Disjoint, NoTombstones, Find, Insert, Grown, Recent, NewestInLevels,
         TombstonesEmpty;
    InsertFind(s.mem, a.key, EntryOf(a, s.nextSeq), k);
    if FindIn(s.imm, k).Some? { FoundInHist(s.hist, s.imm.value, k); }
    if NewestInLevels(s.levels, k).Some? { NewestInLevelsInHist(s, k); }
  }

  /** The levels after a flush: the flushed memtable answers first. */
  lemma {:induction false} FlushNewest(s: State, k: Bytes)
    requires Structure(s) && Recency(s, k) && Enabled(s, FlushInstall) && Structure(Next(s, FlushInstall))
    ensures var t := Next(s, FlushInstall);
            && Recent(t.levels, k)
            && NewestInLevels(t.levels, k) == Newer(NewestInLevels(s.levels, k), FindIn(s.imm, k))
  {
    hide Less, Sorted, DistinctIds, Disjoint, NoTombstones, Find, TombstonesEmpty, Recorded, Probe, Grown, Scan;
    var t := Next(s, FlushInstall);
    var table := Table(s.counter + 1, s.imm.value);
    NewestIsMax(s.levels, k);
    ScanSplit(s.levels[0], [table], k, None);
    ScanCandidate([table], k, Scan(s.levels[0], k, None));
    ScanSingle(table, k);
    FirstProbeSame(s.levels, t.levels, 1, k);
    FlushRecent(s, k);
  }

  lemma {:induction false} FlushRecent(s: State, k: Bytes)
    requires Structure(s) && Recency(s, k) && Enabled(s, FlushInstall) && Structure(Next(s, FlushInstall))
    ensures Recent(Next(s, FlushInstall).levels, k)
  {
    hide Less, Sorted, DistinctIds, Disjoint, NoTombstones, Find, TombstonesEmpty, Recorded, Probe, Grown, Scan;
    var t := Next(s, FlushInstall);
    var n := |s.levels[0]|;
    NewestIsMax(s.levels, k);
    assert t.levels[0][n] == Table(s.counter + 1, s.imm.value);
    assert forall i :: 0 <= i < n ==> t.levels[0][i] == s.levels[0][i];
  }

  /** A compaction keeps recency, keeps every newest put, and otherwise only drops a newest tombstone. */
  lemma {:induction false} InstallRecency(s: State, merged: seq<Rec>, k: Bytes)
    requires Structure(s) && Recent(s.levels, k) && Enabled(s, CompactInstall(merged))
    requires Structure(Next(s, CompactInstall(merged)))
    ensures var t := Next(s, CompactInstall(merged));
            var before, after := NewestInLevels(s.levels, k), NewestInLevels(t.levels, k);
            && Recent(t.levels, k)
            && (after == before
                || (s.pending.value.level == 0 && before.Some? && before.value.kind == DELETE
                    && Above(before, after) && after == FirstProbe(s.levels, 2, k)
                    && (after.Some? ==> Resurrects(s.levels, s.pending.value.snap, k))))
  {
    hide Less, Sorted, DistinctIds, Disjoint, NoTombstones, Find, TombstonesEmpty, Recorded, Probe, Scan, Install,
         Inputs, MergesInto, Recent;
    var p := s.pending.value;
    var table := Table(s.counter + 1, merged);
    MergedTable(s, merged);
    InstallRecent(s.levels, p.snap, p.level, table, k);
    if p.level == 0 {
      L0InstallNewest(s.levels, p.snap, table, k);
      if FirstProbe(s.levels, 2, k).Some? {
        var m := FirstProbeAt(s.levels, 2, k);
        SourceAbove(s, k, m);
      }
    } else {
      DeepCompactionKeepsLookups(s.levels, p.snap, p.level, table, k);
    }
  }

  lemma {:induction false} SourceAbove(s: State, k: Bytes, m: nat)
    requires Structure(s) && Recent(s.levels, k) && s.pending.Some? && s.pending.value.level == 0
    requires LevelsOk(s.pending.value.snap)
    requires 2 <= m < |s.levels| && Probe(s.levels[m], k).Some?
    ensures Above(SourceEntry(s.pending.value.snap, 0, k), Probe(s.levels[m], k))
  {
    var snap := s.pending.value.snap;
    ScanIsMax(snap[0], k, None);
    if SourceEntry(snap, 0, k).Some? {
      var i :| 0 <= i < |snap[0]| && Find(snap[0][i].recs, k) == SourceEntry(snap, 0, k);
      assert s.levels[0][i] == snap[0][i];
    }
  }

  /** Recency is kept by every step. */
  lemma {:induction false} RecencyStep(s: State, a: Action, k: Bytes)
    requires Structure(s) && Recency(s, k) && Enabled(s, a) && Structure(Next(s, a))
    ensures Recency(Next(s, a), k)
  {
    hide Less, Sorted, Shaped, TombstonesEmpty, Recorded, Grown, Recent, NewestInLevels, Install, Insert, MergesInto;
    match a
    case Write(_, _, _) => WriteRecency(s, a, k);
    case FlushInstall => FlushNewest(s, k);
    case CompactInstall(merged) => InstallRecency(s, merged, k);
    case Rotate =>
    case DropImmutable =>
    case CompactStart(_) =>
    case CompactSkip =>
  }

  lemma {:induction false} InvStep(s: State, a: Action)
    requires Inv(s) && Enabled(s, a)
    ensures Inv(Next(s, a))
  {
    hide Structure, Recency, Enabled;
    StructureStep(s, a);
    forall k ensures Recency(Next(s, a), k) { RecencyStep(s, a, k); }
  }
}
