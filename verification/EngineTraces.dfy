/**
 * Runs of the engine with their actions: what a write stores, and what `get` returns in terms of the
 * writes that were made (engine/src/engine.cpp:501-527, engine/src/memtable.cpp:3-14).
 */
module EngineTraces {
  import opened Types
  import opened SortedMap
  import opened Merge
  import opened Levels
  import opened EngineModel
  import opened EngineProof
  import opened EngineRuns

  /** One write: the key is answered with the value just put, or not at all if it was deleted; other keys as before. */
  lemma {:induction false} WriteIsAnswered(s: State, k: Bytes, v: Bytes, kind: EntryType, j: Bytes)
    requires Inv(s)
    ensures var t := Next(s, Write(k, v, kind));
            && LevelsOk(s.levels) && LevelsOk(t.levels)
            && (kind == PUT ==> Lookup(t, k) == Some(Entry(v, s.nextSeq, PUT)))
            && (kind == DELETE ==> Lookup(t, k) == None)
            && (j != k ==> Lookup(t, j) == Lookup(s, j))
  {
    hide Less, Sorted, TombstonesEmpty, Recent, NewestInLevels, Insert, Lookup, Find, DistinctIds, Disjoint,
         NoTombstones, Recorded;
    var a := Write(k, v, kind);
    var t := Next(s, a);
    InvStep(s, a);
    assert Recency(s, k) && Recency(s, j) && Recency(t, k) && Recency(t, j);
    WriteRecency(s, a, k);
    WriteRecency(s, a, j);
    LookupIsNewest(t, k);
    LookupIsNewest(t, j);
    LookupIsNewest(s, j);
  }

  /** `run` is what the given actions make of a fresh engine. */
  ghost predicate IsTrace(run: seq<State>, acts: seq<Action>) {
    && |run| == |acts| + 1 && run[0] == FRESH
    && forall i :: 0 <= i < |acts| ==> Enabled(run[i], acts[i]) && run[i + 1] == Next(run[i], acts[i])
  }

  lemma {:induction false} TraceIsRun(run: seq<State>, acts: seq<Action>)
    requires IsTrace(run, acts)
    ensures IsRun(run)
  {
    hide Enabled, Next;
    forall i | 0 <= i < |run| - 1 ensures Steps(run[i], run[i + 1]) {
      assert Enabled(run[i], acts[i]) && run[i + 1] == Next(run[i], acts[i]);
    }
  }

  /** Every run has its actions. */
  lemma {:induction false} RunHasTrace(run: seq<State>) returns (acts: seq<Action>)
    requires IsRun(run)
    ensures IsTrace(run, acts)
  {
    hide Enabled, Next;
    if |run| == 1 {
      acts := [];
    } else {
      var init := run[..|run| - 1];
      assert forall i :: 0 <= i < |init| - 1 ==> Steps(init[i], init[i + 1]) by {
        forall i | 0 <= i < |init| - 1 ensures Steps(init[i], init[i + 1]) { assert Steps(run[i], run[i + 1]); }
      }
      var front := RunHasTrace(init);
      assert Steps(run[|run| - 2], run[|run| - 1]);
      var a :| Enabled(run[|run| - 2], a) && run[|run| - 1] == Next(run[|run| - 2], a);
      acts := front + [a];
      forall i | 0 <= i < |acts| ensures Enabled(run[i], acts[i]) && run[i + 1] == Next(run[i], acts[i]) {
        if i < |front| { assert Enabled(init[i], front[i]) && init[i + 1] == Next(init[i], front[i]); }
      }
    }
  }

  /** The writes among the actions, in order. */
  function WritesIn(acts: seq<Action>): (ws: seq<Action>)
    ensures forall i :: 0 <= i < |ws| ==> ws[i].Write?
  {
    if acts == [] then []
    else WritesIn(acts[..|acts| - 1]) + if acts[|acts| - 1].Write? then [acts[|acts| - 1]] else []
  }

  /** A trace without its last action. */
  lemma {:induction false} TraceFront(run: seq<State>, acts: seq<Action>)
    requires IsTrace(run, acts) && acts != []
    ensures var n := |acts| - 1;
            && |run| == |acts| + 1 && IsTrace(run[..|acts|], acts[..n])
            && Enabled(run[n], acts[n]) && run[|acts|] == Next(run[n], acts[n])
  {
    hide Enabled, Next;
    var n := |acts| - 1;
    forall i | 0 <= i < n ensures Enabled(run[i], acts[..n][i]) && run[..|acts|][i + 1] == Next(run[i], acts[..n][i]) {
      assert Enabled(run[i], acts[i]) && run[i + 1] == Next(run[i], acts[i]);
    }
  }

  /** What a step adds to the history. */
  lemma {:induction false} HistOfStep(s: State, a: Action)
    requires Enabled(s, a)
    ensures Next(s, a).hist == s.hist + if a.Write? then [Rec(a.key, EntryOf(a, s.nextSeq))] else []
  {
  }

  /** The n-th write of a run is recorded under number n, with its own key, value and kind. */
  lemma {:induction false} HistIsWrites(run: seq<State>, acts: seq<Action>)
    requires IsTrace(run, acts)
    ensures var hist, ws := run[|acts|].hist, WritesIn(acts);
            && |hist| == |ws|
            && forall n :: 0 <= n < |ws| ==>
                 && hist[n].key == ws[n].key && hist[n].entry.seqNo == n + 1 && hist[n].entry.kind == ws[n].kind
                 && hist[n].entry.value == if ws[n].kind == PUT then ws[n].value else []
  {
    hide Enabled, Next, IsTrace;
    if acts == [] {
      TraceStart(run);
    } else {
      var n := |acts| - 1;
      TraceFront(run, acts);
      HistIsWrites(run[..|acts|], acts[..n]);
      HistOfStep(run[n], acts[n]);
      TraceIsRun(run, acts);
      RunInv(run, n);
      assert Structure(run[n]);
    }
  }

  lemma {:induction false} TraceStart(run: seq<State>)
    requires IsTrace(run, [])
    ensures run == [FRESH]
  {
  }

  /** The last write to a key among the actions. */
  function LastTo(acts: seq<Action>, k: Bytes): (w: Option<Action>)
    ensures w.Some? ==> w.value.Write? && w.value.key == k
  {
    if acts == [] then None
    else if acts[|acts| - 1].Write? && acts[|acts| - 1].key == k then Some(acts[|acts| - 1])
    else LastTo(acts[..|acts| - 1], k)
  }

  lemma {:induction false} LastIsTo(run: seq<State>, acts: seq<Action>, k: Bytes)
    requires IsTrace(run, acts)
    ensures var l, w := LastWrite(run[|acts|].hist, k), LastTo(acts, k);
            && (l.Some? <==> w.Some?)
            && (w.Some? ==> l.value.kind == w.value.kind && (w.value.kind == PUT ==> l.value.value == w.value.value))
  {
    hide Enabled, Next, IsTrace;
    if acts == [] {
      TraceStart(run);
    } else {
      var n := |acts| - 1;
      TraceFront(run, acts);
      LastIsTo(run[..|acts|], acts[..n], k);
      HistOfStep(run[n], acts[n]);
      if acts[n].Write? {
        LastWriteAppend(run[n].hist, Rec(acts[n].key, EntryOf(acts[n], run[n].nextSeq)), k);
      } else {
        assert run[|acts|].hist == run[n].hist;
      }
    }
  }

  /**
   * What `get` returns at the end of any run, in terms of the writes made: the value of the last one if it
   * was a put; nothing if there was none; and if it was a delete, nothing exactly unless the key is uncovered.
   */
  lemma {:induction false} GetReturnsWritten(run: seq<State>, acts: seq<Action>, k: Bytes)
    requires IsTrace(run, acts)
    ensures var s, w := run[|acts|], LastTo(acts, k);
            && LevelsOk(s.levels)
            && (w.None? ==> Lookup(s, k) == None)
            && (w.Some? && w.value.kind == PUT ==> Lookup(s, k).Some? && Lookup(s, k).value.value == w.value.value)
            && (w.Some? && w.value.kind == DELETE ==> (Lookup(s, k) == None <==> !Uncovered(run, |acts|, k)))
  {
    hide IsTrace, Lookup, Uncovered, LastTo, LastWrite;
    TraceIsRun(run, acts);
    TraceLength(run, acts);
    LastIsTo(run, acts, k);
    GetExact(run, |acts|, k);
  }

  lemma {:induction false} TraceLength(run: seq<State>, acts: seq<Action>)
    requires IsTrace(run, acts)
    ensures |run| == |acts| + 1
  {
  }
}
