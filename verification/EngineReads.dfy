/**
 * A `get` with the cache off that samples the memtable, the immutable memtable and the version at three
 * moments, with any steps in between (engine/src/engine.cpp:154-215).
 */
module EngineReads {
  import opened Types
  import opened SortedMap
  import opened Merge
  import opened Levels
  import opened Compaction
  import opened CompactionProof
  import opened EngineModel
  import opened EngineProof
  import opened EngineRuns

  /** An answer `v` is right for a read that began when `h1` writes had happened. */
  ghost predicate Acceptable(hist: seq<Rec>, h1: nat, k: Bytes, v: Option<Entry>)
    requires h1 <= |hist|
  {
    exists h :: h1 <= h <= |hist| && Strip(v) == SpecGet(hist[..h], k)
  }

  /** `e` is no older than the key's last write at `h1`. */
  ghost predicate NoOlder(hist: seq<Rec>, h1: nat, k: Bytes, e: Entry)
    requires h1 <= |hist|
  {
    && InHist(hist, Rec(k, e))
    && (LastWrite(hist[..h1], k).Some? ==> e.seqNo >= LastWrite(hist[..h1], k).value.seqNo)
  }

  /** A write no older than the last one at the start was itself the last one at some later moment. */
  lemma {:induction false} NoOlderAcceptable(hist: seq<Rec>, h1: nat, k: Bytes, e: Entry)
    requires forall i :: 0 <= i < |hist| ==> hist[i].entry.seqNo == i + 1
    requires h1 <= |hist| && NoOlder(hist, h1, k, e)
    ensures Acceptable(hist, h1, k, Some(e))
  {
    if e.seqNo > h1 {
      var h := e.seqNo;
      assert hist[..h][h - 1] == Rec(k, e);
      assert LastWrite(hist[..h], k) == Some(e);
      assert Strip(Some(e)) == SpecGet(hist[..h], k);
    } else {
      LastWriteIn(hist[..h1], k, e.seqNo - 1);
      assert LastWrite(hist[..h1], k) == Some(e);
      assert Strip(Some(e)) == SpecGet(hist[..h1], k);
    }
  }

  lemma {:induction false} AcceptableGrows(hist: seq<Rec>, r: Rec, h1: nat, k: Bytes, v: Option<Entry>)
    requires h1 <= |hist| && Acceptable(hist, h1, k, v)
    ensures Acceptable(hist + [r], h1, k, v)
  {
    var h :| h1 <= h <= |hist| && Strip(v) == SpecGet(hist[..h], k);
    assert (hist + [r])[..h] == hist[..h];
  }

  lemma {:induction false} NoOlderGrows(hist: seq<Rec>, r: Rec, h1: nat, k: Bytes, e: Entry)
    requires h1 <= |hist| && NoOlder(hist, h1, k, e)
    ensures NoOlder(hist + [r], h1, k, e)
  {
    assert (hist + [r])[..h1] == hist[..h1];
  }

  lemma {:induction false} AcceptableSame(hist: seq<Rec>, h1: nat, k: Bytes, v: Option<Entry>, w: Option<Entry>)
    requires h1 <= |hist| && Acceptable(hist, h1, k, v) && Strip(v) == Strip(w)
    ensures Acceptable(hist, h1, k, w)
  {
    var h :| h1 <= h <= |hist| && Strip(v) == SpecGet(hist[..h], k);
    assert Strip(w) == SpecGet(hist[..h], k);
  }

  /** The last write is never older than an earlier last write. */
  lemma {:induction false} LastWriteNoOlder(hist: seq<Rec>, h1: nat, k: Bytes)
    requires forall i :: 0 <= i < |hist| ==> hist[i].entry.seqNo == i + 1
    requires h1 <= |hist| && LastWrite(hist, k).Some?
    ensures NoOlder(hist, h1, k, LastWrite(hist, k).value)
  {
    LastWriteSound(hist, k);
    if LastWrite(hist[..h1], k).Some? {
      LastWriteSound(hist[..h1], k);
      LastWriteIn(hist, k, LastWrite(hist[..h1], k).value.seqNo - 1);
    }
  }

  lemma {:induction false} NoOlderLater(hist: seq<Rec>, hist': seq<Rec>, h1: nat, k: Bytes, e: Entry)
    requires hist <= hist' && h1 <= |hist| && NoOlder(hist, h1, k, e)
    ensures NoOlder(hist', h1, k, e)
  {
    assert hist'[..h1] == hist[..h1];
  }

  lemma {:induction false} SearchNoOlder(s: State, h1: nat, k: Bytes, c: Entry)
    requires Structure(s) && Recency(s, k) && h1 <= |s.hist| && NoOlder(s.hist, h1, k, c)
    ensures var r := SearchFrom(s.levels, 0, k, Some(c)); r.Some? && NoOlder(s.hist, h1, k, r.value)
  {
    SearchResult(s, k, c);
  }

  // ---------- what a reader may rely on ----------

  /**
   * Step `n` uncovered a put that was overwritten before state `i`, and nothing of the key was flushed
   * from then until state `l`.
   */
  ghost predicate StaleFrom(run: seq<State>, n: nat, i: nat, l: nat, k: Bytes)
    requires n < l < |run| && i <= l
  {
    && Uncovers(run, n, l, k) && LastWrite(run[i].hist, k).Some?
    && FirstProbe(run[n].levels, 2, k).value.seqNo < LastWrite(run[i].hist, k).value.seqNo
  }

  ghost predicate StaleLevels(run: seq<State>, i: nat, l: nat, k: Bytes)
    requires i <= l < |run|
  {
    exists n :: 0 <= n < l && StaleFrom(run, n, i, l, k)
  }

  /** For a reader that began at `i` and has missed in both memtables. */
  ghost predicate ReadsLevels(run: seq<State>, i: nat, l: nat, k: Bytes)
    requires i <= l < |run| && Structure(run[l])
  {
    && |run[i].hist| <= |run[l].hist|
    && (Acceptable(run[l].hist, |run[i].hist|, k, NewestInLevels(run[l].levels, k)) || StaleLevels(run, i, l, k))
  }

  /** For a reader that began at `i` and has missed in the memtable. */
  ghost predicate ReadsImmutable(run: seq<State>, i: nat, l: nat, k: Bytes)
    requires i <= l < |run| && Structure(run[l])
  {
    var e := FindIn(run[l].imm, k);
    && |run[i].hist| <= |run[l].hist|
    && (e.Some? ==> NoOlder(run[l].hist, |run[i].hist|, k, e.value))
    && (e.None? || run[l].installed ==> ReadsLevels(run, i, l, k))
  }

  lemma {:induction false} ReadBegins(run: seq<State>, i: nat, k: Bytes)
    requires IsRun(run) && i < |run| && Find(run[i].mem, k).None?
    ensures Inv(run[i]) && ReadsImmutable(run, i, i, k)
  {
    hide Find, NewestInLevels, LastWrite, Recency, Disjoint, NoTombstones, DistinctIds, Exposed, Resurrecting;
    RunTracks(run, i, k);
    var s := run[i];
    var h := |s.hist|;
    var v := NewestInLevels(s.levels, k);
    assert s.hist[..h] == s.hist;
    if FindIn(s.imm, k).Some? { LastWriteNoOlder(s.hist, h, k); }
    if FindIn(s.imm, k).None? || s.installed {
      if Exposed(run, i, k) {
        var n := ExposedSource(run, i, k);
        UncoveredAnswers(run, n, i, k);
        assert StaleFrom(run, n, i, i, k);
      } else {
        assert Strip(v) == SpecGet(s.hist[..h], k);
      }
    }
  }

  lemma {:induction false} StaleStays(run: seq<State>, i: nat, l: nat, a: Action, k: Bytes)
    requires i <= l && l + 1 < |run| && StaleLevels(run, i, l, k)
    requires Enabled(run[l], a) && run[l + 1] == Next(run[l], a) && (a.FlushInstall? ==> FindIn(run[l].imm, k).None?)
    ensures StaleLevels(run, i, l + 1, k)
  {
    hide Resurrects, Disjoint, NoTombstones, DistinctIds, Installs, LastWrite, FlushesKey, Enabled, Next;
    OnlyFlushesFlush(run[l], a, k);
    var n :| 0 <= n < l && StaleFrom(run, n, i, l, k);
    assert StaleFrom(run, n, i, l + 1, k);
  }

  /** An uncovered put is either no older than the last write at `i`, or stale. */
  lemma {:induction false} UncoveredOrStale(run: seq<State>, i: nat, l: nat, k: Bytes)
    requires IsRun(run) && i <= l && l + 1 < |run| && Resurrecting(run[l], run[l + 1], k)
    requires Inv(run[l + 1]) && |run[i].hist| <= |run[l + 1].hist| && run[i].hist <= run[l + 1].hist
    ensures ReadsLevels(run, i, l + 1, k)
  {
    hide Find, NewestInLevels, LastWrite, Recency, Disjoint, NoTombstones, DistinctIds, Resurrecting, Acceptable,
         FlushesKey;
    var t := run[l + 1];
    UncoveringNewest(run[l], t, k);
    var v := NewestInLevels(t.levels, k);
    RecentOf(t, k) by { InvFacts(t, k); }
    NewestInLevelsInHist(t, k);
    assert t.hist[..|run[i].hist|] == run[i].hist;
    if NoOlder(t.hist, |run[i].hist|, k, v.value) {
      NoOlderAcceptable(t.hist, |run[i].hist|, k, v.value);
    } else {
      assert StaleFrom(run, l, i, l + 1, k);
    }
  }

  lemma {:induction false} ReadsLevelsStep(run: seq<State>, i: nat, l: nat, a: Action, k: Bytes)
    requires IsRun(run) && i <= l && l + 1 < |run| && Inv(run[l]) && Inv(run[l + 1])
    requires Enabled(run[l], a) && run[l + 1] == Next(run[l], a) && run[i].hist <= run[l + 1].hist
    requires if a.FlushInstall? && FindIn(run[l].imm, k).Some?
             then |run[i].hist| <= |run[l].hist| && NoOlder(run[l].hist, |run[i].hist|, k, FindIn(run[l].imm, k).value)
             else ReadsLevels(run, i, l, k)
    ensures ReadsLevels(run, i, l + 1, k)
  {
    hide Less, Sorted, DistinctIds, Disjoint, NoTombstones, TombstonesEmpty, Recorded, Grown, Recent, NewestInLevels,
         Install, Insert, MergesInto, LastWrite, Resurrects, InHist, Acceptable, NoOlder, SpecGet, StaleLevels,
         IsRun;
    var s, t := run[l], run[l + 1];
    var h := |run[i].hist|;
    var v, w := NewestInLevels(s.levels, k), NewestInLevels(t.levels, k);
    assert Recency(s, k);
    if a.FlushInstall? {
      FlushNewest(s, k);
      if FindIn(s.imm, k).Some? {
        NoOlderAcceptable(s.hist, h, k, FindIn(s.imm, k).value);
      } else if StaleLevels(run, i, l, k) {
        StaleStays(run, i, l, a, k);
      }
    } else if a.CompactInstall? {
      CompactReads(run, i, l, a.merged, k);
    } else {
      if StaleLevels(run, i, l, k) { StaleStays(run, i, l, a, k); }
      if a.Write? && !StaleLevels(run, i, l, k) { AcceptableGrows(s.hist, Rec(a.key, EntryOf(a, s.nextSeq)), h, k, v); }
    }
  }

  lemma {:induction false} CompactReads(run: seq<State>, i: nat, l: nat, merged: seq<Rec>, k: Bytes)
    requires IsRun(run) && i <= l && l + 1 < |run| && Inv(run[l]) && Inv(run[l + 1])
    requires Enabled(run[l], CompactInstall(merged)) && run[l + 1] == Next(run[l], CompactInstall(merged))
    requires run[i].hist <= run[l + 1].hist && ReadsLevels(run, i, l, k)
    ensures ReadsLevels(run, i, l + 1, k)
  {
    hide Less, Sorted, Disjoint, NoTombstones, DistinctIds, TombstonesEmpty, Recorded, Grown, Recent, NewestInLevels,
         Install, LastWrite, IsMerge, Inputs, Resurrects, InHist, Acceptable, SpecGet, StaleLevels, IsRun;
    var s, t := run[l], run[l + 1];
    var v, w := NewestInLevels(s.levels, k), NewestInLevels(t.levels, k);
    assert Recency(s, k);
    InstallRecency(s, merged, k);
    if w == v {
      if StaleLevels(run, i, l, k) { StaleStays(run, i, l, CompactInstall(merged), k); }
    } else if w.Some? {
      assert LevelsOk(s.pending.value.snap);
      assert Installs(s, t);
      UncoveredOrStale(run, i, l, k);
    } else {
      StaleIsPut(run, i, l, k);
      AcceptableSame(s.hist, |run[i].hist|, k, v, w);
    }
  }

  /** Stale levels answer with a put older than the last write at `i`. */
  lemma {:induction false} StaleIsPut(run: seq<State>, i: nat, l: nat, k: Bytes)
    requires IsRun(run) && i <= l < |run| && Inv(run[l])
    ensures StaleLevels(run, i, l, k) ==>
              var v, w := NewestInLevels(run[l].levels, k), LastWrite(run[i].hist, k);
              v.Some? && v.value.kind == PUT && w.Some? && v.value.seqNo < w.value.seqNo
  {
    hide Resurrecting, NewestInLevels, Inv, FirstProbe, FlushesKey, LastWrite, LevelsOk;
    if StaleLevels(run, i, l, k) {
      var n :| 0 <= n < l && StaleFrom(run, n, i, l, k);
      UncoveredAnswers(run, n, l, k);
    }
  }

  lemma {:induction false} ReadsImmutableStep(run: seq<State>, i: nat, l: nat, a: Action, k: Bytes)
    requires IsRun(run) && i <= l && l + 1 < |run| && Inv(run[l]) && Inv(run[l + 1])
    requires Enabled(run[l], a) && run[l + 1] == Next(run[l], a) && run[i].hist <= run[l + 1].hist
    requires ReadsImmutable(run, i, l, k) && Tracks(run[l], k, Exposed(run, l, k))
    ensures ReadsImmutable(run, i, l + 1, k)
  {
    hide Less, Sorted, Shaped, TombstonesEmpty, Recorded, Grown, Recent, NewestInLevels, Install, Insert, MergesInto,
         LastWrite, Resurrects, InHist, Acceptable, NoOlder, SpecGet, StaleLevels, IsRun, Find, Exposed, ReadsLevels;
    var s, t := run[l], run[l + 1];
    var h := |run[i].hist|;
    var e := FindIn(s.imm, k);
    NothingFound(k);
    if e.None? || s.installed || a.FlushInstall? { ReadsLevelsStep(run, i, l, a, k); }
    if a.Rotate? {
      if Find(s.mem, k).Some? { LastWriteNoOlder(s.hist, h, k); }
    } else if a.Write? && e.Some? {
      NoOlderGrows(s.hist, Rec(a.key, EntryOf(a, s.nextSeq)), h, k, e.value);
    }
  }

  /** A reader that missed in the memtable of `i`, at any later state. */
  lemma {:induction false} ReaderRun(run: seq<State>, i: nat, l: nat, k: Bytes)
    requires IsRun(run) && i <= l < |run| && Find(run[i].mem, k).None?
    ensures Inv(run[l]) && ReadsImmutable(run, i, l, k)
    decreases l - i
  {
    hide Inv, Enabled, Tracks, Exposed, Find, Structure, ReadsImmutable;
    if i == l {
      ReadBegins(run, i, k);
    } else {
      ReaderRun(run, i, l - 1, k);
      RunTracks(run, l - 1, k);
      RunInv(run, l);
      HistGrows(run, i, l);
      assert Steps(run[l - 1], run[l]);
      var a :| Enabled(run[l - 1], a) && run[l] == Next(run[l - 1], a);
      ReadsImmutableStep(run, i, l - 1, a, k);
    }
  }

  /** ... and one that missed in the immutable memtable of `j` too. */
  lemma {:induction false} LevelReaderRun(run: seq<State>, i: nat, j: nat, l: nat, k: Bytes)
    requires IsRun(run) && i <= j <= l < |run|
    requires Find(run[i].mem, k).None? && FindIn(run[j].imm, k).None?
    ensures Inv(run[l]) && ReadsLevels(run, i, l, k)
    decreases l - j
  {
    hide Inv, Enabled, Next, Find, Structure, ReadsLevels, NoOlder, Recency, LevelsOk;
    ReaderRun(run, i, l, k);
    if j < l {
      LevelReaderRun(run, i, j, l - 1, k);
      ReaderRun(run, i, l - 1, k);
      HistGrows(run, i, l);
      assert Steps(run[l - 1], run[l]);
      var a :| Enabled(run[l - 1], a) && run[l] == Next(run[l - 1], a);
      ReadsLevelsStep(run, i, l - 1, a, k);
    }
  }

  /** A candidate from a memtable is no older than the last write at the first sample. */
  lemma {:induction false} CandidateNoOlder(run: seq<State>, i: nat, j: nat, k: Bytes)
    requires IsRun(run) && i <= j < |run|
    requires Newer(Find(run[i].mem, k), FindIn(run[j].imm, k)).Some?
    ensures Inv(run[j]) && |run[i].hist| <= |run[j].hist|
    ensures NoOlder(run[j].hist, |run[i].hist|, k, Newer(Find(run[i].mem, k), FindIn(run[j].imm, k)).value)
  {
    hide Find, NewestInLevels, LastWrite, Recency, Shaped, Sorted, TombstonesEmpty, IsRun, Exposed, ReadsLevels;
    var h := |run[i].hist|;
    HistGrows(run, i, j);
    RunTracks(run, i, k);
    RunInv(run, j);
    assert run[j].hist[..h] == run[i].hist;
    var m, c := Find(run[i].mem, k), FindIn(run[j].imm, k);
    if m.None? {
      ReaderRun(run, i, j, k);
    } else {
      FoundInHist(run[i].hist, run[i].mem, k);
      if c.Some? { FoundInHist(run[j].hist, run[j].imm.value, k); }
    }
  }

  // ---------- the exact condition ----------

  /** Both memtables missed, and by then a put overwritten before the first sample had been uncovered. */
  ghost predicate StaleRead(run: seq<State>, i: nat, j: nat, l: nat, k: Bytes)
    requires i <= j <= l < |run|
  {
    Find(run[i].mem, k).None? && FindIn(run[j].imm, k).None? && StaleLevels(run, i, l, k)
  }

  /** The answer is what the key held at a moment between the first and the last sample. */
  ghost predicate Linearizable(run: seq<State>, i: nat, j: nat, l: nat, k: Bytes)
    requires i <= j <= l < |run| && LevelsOk(run[l].levels)
  {
    exists m :: i <= m <= l && SampledGet(run[i].mem, run[j].imm, run[l].levels, k) == SpecGet(run[m].hist, k)
  }

  lemma {:induction false} AcceptableIsLinearizable(run: seq<State>, i: nat, j: nat, l: nat, k: Bytes, r: Option<Entry>)
    requires IsRun(run) && i <= j <= l < |run| && LevelsOk(run[l].levels) && |run[i].hist| <= |run[l].hist|
    requires Strip(r) == SampledGet(run[i].mem, run[j].imm, run[l].levels, k)
    requires Acceptable(run[l].hist, |run[i].hist|, k, r)
    ensures Linearizable(run, i, j, l, k)
  {
    hide SampledGet, SpecGet, IsRun;
    var h :| |run[i].hist| <= h <= |run[l].hist| && Strip(r) == SpecGet(run[l].hist[..h], k);
    var m := HistMoment(run, i, l, h);
    assert SampledGet(run[i].mem, run[j].imm, run[l].levels, k) == SpecGet(run[m].hist, k);
  }

  lemma {:induction false} StaleIsNotLinearizable(run: seq<State>, i: nat, j: nat, l: nat, k: Bytes)
    requires IsRun(run) && i <= j <= l < |run| && StaleRead(run, i, j, l, k) && Inv(run[l])
    ensures LevelsOk(run[l].levels) && !Linearizable(run, i, j, l, k)
  {
    hide Find, NewestInLevels, LastWrite, Recency, IsRun, SearchFrom, Inv, Resurrecting, FirstProbe;
    InvFacts(run[l], k);
    SearchIsNewest(run[l].levels, k);
    StaleIsPut(run, i, l, k);
    var v := NewestInLevels(run[l].levels, k);
    assert v.Some? && v.value.seqNo < LastWrite(run[i].hist, k).value.seqNo;
    forall m | i <= m <= l ensures SpecGet(run[m].hist, k) != v {
      HistGrows(run, i, m);
      RunInv(run, m);
      InvFacts(run[m], k);
      var h := |run[i].hist|;
      assert run[m].hist[..h] == run[i].hist;
      if LastWrite(run[m].hist, k).Some? { LastWriteNoOlder(run[m].hist, h, k); }
    }
  }

  /**
   * With the cache off, a `get` that samples the memtable, the immutable memtable and the version at three
   * moments of any run answers with what the key held at a moment between the first and the last sample,
   * if and only if the read is not stale.
   */
  lemma {:induction false} SampledGetExact(run: seq<State>, i: nat, j: nat, l: nat, k: Bytes)
    requires IsRun(run) && i <= j <= l < |run|
    ensures LevelsOk(run[l].levels)
    ensures Linearizable(run, i, j, l, k) <==> !StaleRead(run, i, j, l, k)
  {
    hide Find, NewestInLevels, LastWrite, Recency, Sorted, TombstonesEmpty, SearchFrom, IsRun, NoOlder, Newest,
         Recorded, Linearizable, StaleLevels, Acceptable;
    RunInv(run, l);
    InvFacts(run[l], k);
    HistGrows(run, i, l);
    HistGrows(run, j, l);
    var h := |run[i].hist|;
    var c := Newer(Find(run[i].mem, k), FindIn(run[j].imm, k));
    var r := SearchFrom(run[l].levels, 0, k, c);
    if StaleRead(run, i, j, l, k) {
      StaleIsNotLinearizable(run, i, j, l, k);
    } else {
      if c.Some? {
        CandidateNoOlder(run, i, j, k);
        NoOlderLater(run[j].hist, run[l].hist, h, k, c.value);
        SearchNoOlder(run[l], h, k, c.value);
        NoOlderAcceptable(run[l].hist, h, k, r.value);
      } else {
        LevelReaderRun(run, i, j, l, k);
        SearchIsNewest(run[l].levels, k);
      }
      AcceptableIsLinearizable(run, i, j, l, k, r);
    }
  }

  /** A `get` of a key that no compaction before its last sample resurrected is linearizable. */
  lemma {:induction false} GetIsLinearizable(run: seq<State>, i: nat, j: nat, l: nat, k: Bytes)
    requires IsRun(run) && i <= j <= l < |run|
    requires forall n :: 0 <= n < l ==> !Resurrecting(run[n], run[n + 1], k)
    ensures LevelsOk(run[l].levels) && Linearizable(run, i, j, l, k)
  {
    hide Resurrecting, IsRun, Linearizable;
    SampledGetExact(run, i, j, l, k);
  }
}
