/**
 * Whole runs of the engine: the invariant in every reachable state, and exactly when `get` answers with
 * the key's last write (engine/src/engine.cpp:145-222).
 */
module EngineRuns {
  import opened Types
  import opened SortedMap
  import opened Merge
  import opened Levels
  import opened Compaction
  import opened CompactionProof
  import opened EngineModel
  import opened EngineProof

  ghost predicate Steps(s: State, t: State) {
    exists a :: Enabled(s, a) && t == Next(s, a)
  }

  ghost predicate IsRun(run: seq<State>) {
    run != [] && run[0] == FRESH && forall i :: 0 <= i < |run| - 1 ==> Steps(run[i], run[i + 1])
  }

  lemma {:induction false} EmptyLevels(levels: seq<seq<Table>>)
    requires |levels| == 4 && forall l :: 0 <= l < |levels| ==> levels[l] == []
    ensures Shaped(levels) && forall k :: Recent(levels, k)
  {
    hide Probe, Find;
    forall k ensures Recent(levels, k) {
      forall m | 0 <= m < |levels| ensures Probe(levels[m], k) == None { NothingProbed(k); }
    }
  }

  lemma {:induction false} NothingProbed(k: Bytes)
    ensures Probe([], k) == None
  {
  }

  lemma {:induction false} FreshInv()
    ensures Inv(FRESH)
  {
    hide Shaped, Recent, NewestInLevels;
    EmptyLevels(FRESH.levels);
    assert Structure(FRESH);
  }

  /** In every run from a fresh engine every state satisfies the invariant. */
  lemma {:induction false} RunInv(run: seq<State>, i: nat)
    requires IsRun(run) && i < |run|
    ensures Inv(run[i])
  {
    if i == 0 {
      FreshInv();
    } else {
      RunInv(run, i - 1);
      assert Steps(run[i - 1], run[i]);
      var a :| Enabled(run[i - 1], a) && run[i] == Next(run[i - 1], a);
      InvStep(run[i - 1], a);
    }
  }

  /** No table at level 1 or deeper ever holds a tombstone. */
  lemma {:induction false} NoTombstonesBelowL0(run: seq<State>, i: nat, l: nat, t: nat, r: Rec)
    requires IsRun(run) && i < |run| && 1 <= l < |run[i].levels| && t < |run[i].levels[l]|
    requires r in run[i].levels[l][t].recs
    ensures r.entry.kind == PUT
  {
    RunInv(run, i);
    assert Shaped(run[i].levels);
    assert NoTombstones(run[i].levels[l]);
  }

  // ---------- the write history ----------

  lemma {:induction false} LastWriteAppend(hist: seq<Rec>, r: Rec, k: Bytes)
    ensures LastWrite(hist + [r], k) == if r.key == k then Some(r.entry) else LastWrite(hist, k)
  {
    assert (hist + [r])[..|hist|] == hist;
  }

  lemma {:induction false} LastWriteIn(hist: seq<Rec>, k: Bytes, q: nat)
    requires forall i :: 0 <= i < |hist| ==> hist[i].entry.seqNo == i + 1
    requires q < |hist| && hist[q].key == k
    ensures LastWrite(hist, k).Some? && LastWrite(hist, k).value.seqNo >= q + 1
    ensures InHist(hist, Rec(k, LastWrite(hist, k).value))
  {
    var n := |hist| - 1;
    if hist[n].key != k { LastWriteIn(hist[..n], k, q); }
  }

  lemma {:induction false} LastWriteSound(hist: seq<Rec>, k: Bytes)
    requires forall i :: 0 <= i < |hist| ==> hist[i].entry.seqNo == i + 1
    requires LastWrite(hist, k).Some?
    ensures InHist(hist, Rec(k, LastWrite(hist, k).value))
  {
    var n := |hist| - 1;
    if hist[n].key != k { LastWriteSound(hist[..n], k); }
  }

  lemma {:induction false} HistStep(s: State, t: State)
    requires Steps(s, t)
    ensures s.hist <= t.hist && |t.hist| <= |s.hist| + 1
  {
    var a :| Enabled(s, a) && t == Next(s, a);
  }

  /** `hist` only grows, one write at a time: each of its prefixes since then was once the whole of it. */
  lemma {:induction false} HistMoment(run: seq<State>, i: nat, l: nat, h: nat) returns (m: nat)
    requires IsRun(run) && i <= l < |run| && |run[i].hist| <= h <= |run[l].hist|
    ensures i <= m <= l && run[m].hist == run[l].hist[..h]
    decreases l - i
  {
    hide Steps;
    m := l;
    if h < |run[l].hist| {
      HistStep(run[l - 1], run[l]);
      m := HistMoment(run, i, l - 1, h);
      assert run[l].hist[..h] == run[l - 1].hist[..h];
    } else {
      assert run[l].hist[..h] == run[l].hist;
    }
  }

  lemma {:induction false} HistGrows(run: seq<State>, i: nat, l: nat)
    requires IsRun(run) && i <= l < |run|
    ensures run[i].hist <= run[l].hist
    decreases l - i
  {
    hide Steps;
    if i < l {
      HistStep(run[l - 1], run[l]);
      HistGrows(run, i, l - 1);
    }
  }

  // ---------- resurrections ----------

  ghost predicate Installs(s: State, t: State) {
    exists merged :: Enabled(s, CompactInstall(merged)) && t == Next(s, CompactInstall(merged))
  }

  /** The step installs an L0 to L1 compaction that drops a tombstone of `k` over a copy at level 2 or deeper. */
  ghost predicate Resurrecting(s: State, t: State, k: Bytes) {
    && Inv(s) && s.pending.Some? && s.pending.value.level == 0 && LevelsOk(s.pending.value.snap)
    && Installs(s, t) && Resurrects(s.levels, s.pending.value.snap, k)
  }

  /** ... and that tombstone is the key's last write. */
  ghost predicate Exposes(s: State, t: State, k: Bytes) {
    Resurrecting(s, t, k) && SourceEntry(s.pending.value.snap, 0, k) == LastWrite(s.hist, k)
  }

  /** Since the key's last write, a compaction has dropped that write and uncovered an older copy. */
  ghost predicate Exposed(run: seq<State>, i: nat, k: Bytes)
    requires i < |run|
  {
    exists j :: 0 <= j < i && Exposes(run[j], run[j + 1], k) && LastWrite(run[j].hist, k) == LastWrite(run[i].hist, k)
  }

  lemma {:induction false} OnlyInstallsInstall(s: State, a: Action)
    requires Enabled(s, a) && !a.CompactInstall?
    ensures !Installs(s, Next(s, a))
  {
  }

  /** Before a resurrection the tombstone is the levels' newest entry; afterwards an older put is. */
  lemma {:induction false} ResurrectingNewest(s: State, merged: seq<Rec>, k: Bytes)
    requires Inv(s) && Enabled(s, CompactInstall(merged)) && Inv(Next(s, CompactInstall(merged)))
    requires s.pending.value.level == 0 && Resurrects(s.levels, s.pending.value.snap, k)
    ensures var v := NewestInLevels(s.levels, k);
            v == SourceEntry(s.pending.value.snap, 0, k) && v.Some? && v.value.kind == DELETE
    ensures var v := NewestInLevels(Next(s, CompactInstall(merged)).levels, k);
            v == FirstProbe(s.levels, 2, k) && v.Some? && v.value.kind == PUT
  {
    hide Less, Sorted, DistinctIds, Disjoint, NoTombstones, Find, TombstonesEmpty, Recorded, Probe, Scan, Install,
         Inputs, MergesInto, NewestInLevels;
    assert Recency(s, k);
    var snap := s.pending.value.snap;
    MergedTable(s, merged);
    L0InstallNewest(s.levels, snap, Table(s.counter + 1, merged), k);
    var m := FirstProbeAt(s.levels, 2, k);
    NextEntryKept(s.levels, snap, m - 1, k, Probe(s.levels[m], k).value);
  }

  // ---------- the stores against the specification ----------

  /**
   * How the stores stand to the last write of a key. Unless a memtable still has to deliver it, the
   * levels hold it, or have merged it away as a tombstone with nothing below, or (`exposed`) have
   * merged it away over an older put.
   */
  ghost predicate Tracks(s: State, k: Bytes, exposed: bool)
    requires Structure(s)
  {
    var m, i, v, w := Find(s.mem, k), FindIn(s.imm, k), NewestInLevels(s.levels, k), LastWrite(s.hist, k);
    var delivered := m.None? && (i.None? || s.installed);
    && (m.Some? ==> m == w)
    && (m.None? && i.Some? ==> i == w)
    && (delivered && !exposed ==> v == w || (v.None? && w.Some? && w.value.kind == DELETE))
    && (exposed ==> delivered && w.Some? && w.value.kind == DELETE && v.Some? && v.value.kind == PUT && Above(w, v))
  }

  lemma {:induction false} InstallTracks(s: State, merged: seq<Rec>, k: Bytes, exposed: bool)
    requires Inv(s) && Enabled(s, CompactInstall(merged)) && Inv(Next(s, CompactInstall(merged)))
    requires Tracks(s, k, exposed)
    ensures var t := Next(s, CompactInstall(merged)); Tracks(t, k, exposed || Exposes(s, t, k))
  {
    hide Less, Sorted, Shaped, TombstonesEmpty, Recorded, Grown, Recent, NewestInLevels, Install, LastWrite, IsMerge,
         Inputs, Resurrects, SourceEntry, Find, Inv;
    var t := Next(s, CompactInstall(merged));
    assert Structure(s) && Recency(s, k) && Structure(t) && Installs(s, t) by { InvFacts(s, k); InvFacts(t, k); }
    InstallRecency(s, merged, k);
    if Resurrecting(s, t, k) { ResurrectingNewest(s, merged, k); }
  }

  lemma {:induction false} InvFacts(s: State, k: Bytes)
    requires Inv(s)
    ensures Structure(s) && Recency(s, k)
  {
  }

  lemma {:induction false} TracksStep(s: State, a: Action, k: Bytes, exposed: bool)
    requires Inv(s) && Enabled(s, a) && Inv(Next(s, a)) && Tracks(s, k, exposed)
    ensures Tracks(Next(s, a), k, !(a.Write? && a.key == k) && (exposed || Exposes(s, Next(s, a), k)))
  {
    hide Less, Sorted, Shaped, TombstonesEmpty, Recorded, Grown, Recent, NewestInLevels, Install, Insert, MergesInto,
         LastWrite, Resurrects, Find, SourceEntry, Installs;
    assert Recency(s, k);
    if !a.CompactInstall? { OnlyInstallsInstall(s, a); }
    match a
    case Write(_, _, _) =>
      WriteRecency(s, a, k);
      LastWriteAppend(s.hist, Rec(a.key, EntryOf(a, s.nextSeq)), k);
    case FlushInstall => FlushNewest(s, k);
    case CompactInstall(merged) => InstallTracks(s, merged, k, exposed);
    case Rotate => NothingFound(k);
    case DropImmutable => NothingFound(k);
    case CompactStart(_) =>
    case CompactSkip =>
  }

  lemma {:induction false} NothingFound(k: Bytes)
    ensures Find([], k) == None
  {
  }

  /** A write ends an exposure, and nothing else does. */
  lemma {:induction false} ExposedStep(run: seq<State>, i: nat, a: Action, k: Bytes)
    requires IsRun(run) && i + 1 < |run| && Enabled(run[i], a) && run[i + 1] == Next(run[i], a)
    ensures Exposed(run, i + 1, k) <==>
            !(a.Write? && a.key == k) && (Exposed(run, i, k) || Exposes(run[i], run[i + 1], k))
  {
    hide LastWrite, Resurrecting, IsRun;
    var s, t := run[i], run[i + 1];
    if a.Write? {
      LastWriteAppend(s.hist, Rec(a.key, EntryOf(a, s.nextSeq)), k);
      NotResurrecting(s, a, k);
    }
    if a.Write? && a.key == k {
      forall j | 0 <= j < i && LastWrite(run[j].hist, k) == LastWrite(t.hist, k) ensures false {
        HistGrows(run, j, i);
        RunInv(run, j);
        RunInv(run, i);
        LastWriteSound(run[j].hist, k);
      }
    } else {
      assert LastWrite(s.hist, k) == LastWrite(t.hist, k);
      if Exposed(run, i, k) {
        var j :| 0 <= j < i && Exposes(run[j], run[j + 1], k) && LastWrite(run[j].hist, k) == LastWrite(s.hist, k);
        assert Exposes(run[j], run[j + 1], k) && LastWrite(run[j].hist, k) == LastWrite(t.hist, k);
      }
    }
  }

  lemma {:induction false} NotResurrecting(s: State, a: Action, k: Bytes)
    requires Enabled(s, a) && !a.CompactInstall?
    ensures !Resurrecting(s, Next(s, a), k)
  {
    OnlyInstallsInstall(s, a);
  }

  lemma {:induction false} RunTracks(run: seq<State>, i: nat, k: Bytes)
    requires IsRun(run) && i < |run|
    ensures Inv(run[i]) && Tracks(run[i], k, Exposed(run, i, k))
  {
    RunInv(run, i);
    if i > 0 {
      hide Inv, Enabled, Tracks, Exposed, Exposes;
      RunTracks(run, i - 1, k);
      assert Steps(run[i - 1], run[i]);
      var a :| Enabled(run[i - 1], a) && run[i] == Next(run[i - 1], a);
      TracksStep(run[i - 1], a, k, Exposed(run, i - 1, k));
      ExposedStep(run, i - 1, a, k);
    }
  }

  /** The step flushes an entry of `k` into level 0. */
  ghost predicate FlushesKey(s: State, t: State, k: Bytes) {
    Enabled(s, FlushInstall) && t == Next(s, FlushInstall) && FindIn(s.imm, k).Some?
  }

  /** Step `n` resurrects the key, and nothing of the key has been flushed since. */
  ghost predicate Uncovers(run: seq<State>, n: nat, l: nat, k: Bytes)
    requires n < l < |run|
  {
    && Resurrecting(run[n], run[n + 1], k)
    && forall m :: n < m < l ==> !FlushesKey(run[m], run[m + 1], k)
  }

  lemma {:induction false} OnlyFlushesFlush(s: State, a: Action, k: Bytes)
    requires Enabled(s, a) && (a.FlushInstall? ==> FindIn(s.imm, k).None?)
    ensures !FlushesKey(s, Next(s, a), k)
  {
    hide Find, Insert, MergesInto, Install;
  }

  /** While nothing of the key is flushed, the levels go on answering with the same put. */
  lemma {:induction false} PutStays(s: State, a: Action, k: Bytes)
    requires Inv(s) && Enabled(s, a) && Inv(Next(s, a)) && !FlushesKey(s, Next(s, a), k)
    requires NewestInLevels(s.levels, k).Some? && NewestInLevels(s.levels, k).value.kind == PUT
    ensures NewestInLevels(Next(s, a).levels, k) == NewestInLevels(s.levels, k)
  {
    hide Less, Sorted, Shaped, TombstonesEmpty, Recorded, Grown, Recent, NewestInLevels, Install, Insert, MergesInto,
         LastWrite, Resurrects, Find;
    assert Recency(s, k);
    if a.FlushInstall? { FlushNewest(s, k); }
    if a.CompactInstall? { InstallRecency(s, a.merged, k); }
  }

  lemma {:induction false} UncoveringNewest(s: State, t: State, k: Bytes)
    requires Resurrecting(s, t, k) && Inv(t)
    ensures |s.levels| >= 2 && LevelsOk(s.levels)
    ensures var v := FirstProbe(s.levels, 2, k);
            NewestInLevels(t.levels, k) == v && v.Some? && v.value.kind == PUT
  {
    hide Inv, Next, Enabled, Resurrects;
    InvFacts(s, k);
    var merged :| Enabled(s, CompactInstall(merged)) && t == Next(s, CompactInstall(merged));
    ResurrectingNewest(s, merged, k);
  }

  /** So long the levels answer with the put that step `n` uncovered at level 2 or deeper. */
  lemma {:induction false} UncoveredAnswers(run: seq<State>, n: nat, l: nat, k: Bytes)
    requires IsRun(run) && n < l < |run| && Uncovers(run, n, l, k)
    ensures Inv(run[l]) && |run[n].levels| >= 2 && LevelsOk(run[n].levels)
    ensures var v := FirstProbe(run[n].levels, 2, k);
            NewestInLevels(run[l].levels, k) == v && v.Some? && v.value.kind == PUT
    decreases l - n
  {
    hide Inv, Enabled, Next, Resurrecting, NewestInLevels, FlushesKey, FirstProbe, LevelsOk;
    RunInv(run, l);
    if l == n + 1 {
      UncoveringNewest(run[n], run[l], k);
    } else {
      UncoveredAnswers(run, n, l - 1, k);
      assert Steps(run[l - 1], run[l]);
      var a :| Enabled(run[l - 1], a) && run[l] == Next(run[l - 1], a);
      PutStays(run[l - 1], a, k);
    }
  }

  /** An exposed key's older copy is the one a resurrecting step uncovered. */
  lemma {:induction false} ExposedSource(run: seq<State>, i: nat, k: Bytes) returns (n: nat)
    requires IsRun(run) && i < |run| && Exposed(run, i, k)
    ensures n < i && Uncovers(run, n, i, k)
  {
    hide Inv, Enabled, Next, Tracks, Exposed, Resurrecting, FlushesKey;
    ExposedLater(run, i, k);
    RunTracks(run, i - 1, k);
    assert Steps(run[i - 1], run[i]);
    var a :| Enabled(run[i - 1], a) && run[i] == Next(run[i - 1], a);
    ExposedStep(run, i - 1, a, k);
    if Exposed(run, i - 1, k) {
      n := ExposedSource(run, i - 1, k);
      ExposedIsNotFlushed(run[i - 1], a, k);
    } else {
      n := i - 1;
    }
  }

  lemma {:induction false} ExposedLater(run: seq<State>, i: nat, k: Bytes)
    requires i < |run| && Exposed(run, i, k)
    ensures i > 0
  {
  }

  lemma {:induction false} ExposedIsNotFlushed(s: State, a: Action, k: Bytes)
    requires Inv(s) && Enabled(s, a) && Tracks(s, k, true)
    ensures !FlushesKey(s, Next(s, a), k)
  {
    hide Find, NewestInLevels, LastWrite, Shaped, Recency;
    OnlyFlushesFlush(s, a, k);
  }

  /** A key neither memtable holds, whose last write has been dropped over an older copy. */
  ghost predicate Uncovered(run: seq<State>, i: nat, k: Bytes)
    requires i < |run|
  {
    Find(run[i].mem, k).None? && FindIn(run[i].imm, k).None? && Exposed(run, i, k)
  }

  /**
   * In every run, `get` returns the key's last put, or nothing if it was deleted or never written, if and
   * only if the key is not uncovered. A wrong answer is an older put where a delete was last.
   */
  lemma {:induction false} GetExact(run: seq<State>, i: nat, k: Bytes)
    requires IsRun(run) && i < |run|
    ensures LevelsOk(run[i].levels)
    ensures Lookup(run[i], k) == SpecGet(run[i].hist, k) <==> !Uncovered(run, i, k)
    ensures Uncovered(run, i, k) ==>
              && LastWrite(run[i].hist, k).Some? && LastWrite(run[i].hist, k).value.kind == DELETE
              && Lookup(run[i], k).Some? && InHist(run[i].hist, Rec(k, Lookup(run[i], k).value))
  {
    hide Find, NewestInLevels, LastWrite, Recency, Shaped, Sorted, TombstonesEmpty, Exposed, Lookup, Recorded, InHist;
    RunTracks(run, i, k);
    InvFacts(run[i], k);
    ShapedLevels(run[i].levels);
    LookupIsNewest(run[i], k);
    if Uncovered(run, i, k) {
      RecentOf(run[i], k);
      NewestInLevelsInHist(run[i], k);
    }
  }

  lemma {:induction false} ShapedLevels(levels: seq<seq<Table>>)
    requires Shaped(levels)
    ensures LevelsOk(levels) && |levels| >= 4
  {
  }

  lemma {:induction false} RecentOf(s: State, k: Bytes)
    requires Structure(s) && Recency(s, k)
    ensures Recent(s.levels, k)
  {
  }

  /** A key that no compaction has exposed is answered with its last write. */
  lemma {:induction false} GetRefinesSpec(run: seq<State>, i: nat, k: Bytes)
    requires IsRun(run) && i < |run| && !Exposed(run, i, k)
    ensures LevelsOk(run[i].levels) && Lookup(run[i], k) == SpecGet(run[i].hist, k)
  {
    GetExact(run, i, k);
  }

  /** In every run a key whose last write is a put is answered with it. */
  lemma {:induction false} PutsAreAnswered(run: seq<State>, i: nat, k: Bytes)
    requires IsRun(run) && i < |run|
    requires LastWrite(run[i].hist, k).Some? && LastWrite(run[i].hist, k).value.kind == PUT
    ensures LevelsOk(run[i].levels) && Lookup(run[i], k) == LastWrite(run[i].hist, k)
  {
    GetExact(run, i, k);
  }

  /**
   * A single L0 to L1 installation changes the answer for a key if and only if it resurrects the key and
   * no memtable holds it.
   */
  lemma {:induction false} InstallChangesAnswer(s: State, merged: seq<Rec>, k: Bytes)
    requires Inv(s) && Enabled(s, CompactInstall(merged)) && s.pending.value.level == 0
    ensures LevelsOk(Next(s, CompactInstall(merged)).levels)
    ensures Lookup(Next(s, CompactInstall(merged)), k) != Lookup(s, k) <==>
            Find(s.mem, k).None? && FindIn(s.imm, k).None? && Resurrects(s.levels, s.pending.value.snap, k)
  {
    hide Less, Sorted, DistinctIds, Disjoint, NoTombstones, TombstonesEmpty, Recorded, Recent, NewestInLevels,
         Install, MergesInto, Resurrects, Lookup, Find, Inputs;
    var a := CompactInstall(merged);
    InvStep(s, a);
    assert Recency(s, k) && Recency(Next(s, a), k);
    LookupIsNewest(s, k);
    LookupIsNewest(Next(s, a), k);
    MergedTable(s, merged);
    L0CompactionExact(s.levels, s.pending.value.snap, Table(s.counter + 1, merged), k);
  }
}
