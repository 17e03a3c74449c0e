/** The k-way merge of both compactions (engine/src/engine.cpp:693-745, 841-893). */
module Merge {
  import opened Types
  import opened SortedMap

  /** One element of the priority queue: the current record of iterator `idx`. */
  datatype HeapElement = HeapElement(key: Bytes, seqNo: nat, kind: EntryType, idx: nat)

  /** The comparator: `a` comes out after `b`. */
  predicate ComesAfter(a: HeapElement, b: HeapElement) {
    if a.key != b.key then Less(b.key, a.key) else a.seqNo < b.seqNo
  }

  /** The entry a compaction keeps: tombstones are dropped. */
  function Strip(e: Option<Entry>): Option<Entry> {
    if e.Some? && e.value.kind == PUT then e else None
  }

  ghost predicate Holds(runs: seq<seq<Rec>>, k: Bytes) {
    exists i :: 0 <= i < |runs| && Find(runs[i], k).Some?
  }

  /** `e` is the entry of `k` with the highest sequence number over all runs. */
  ghost predicate IsNewest(runs: seq<seq<Rec>>, k: Bytes, e: Entry) {
    && (exists i :: 0 <= i < |runs| && Find(runs[i], k) == Some(e))
    && forall i :: 0 <= i < |runs| && Find(runs[i], k).Some? ==> Find(runs[i], k).value.seqNo <= e.seqNo
  }

  /** What the merge owes to key `k`. */
  ghost predicate MergedRight(runs: seq<seq<Rec>>, merged: seq<Rec>, k: Bytes) {
    if Holds(runs, k)
    then exists e :: IsNewest(runs, k, e) && Find(merged, k) == Strip(Some(e))
    else Find(merged, k) == None
  }

  ghost predicate IsMerge(runs: seq<seq<Rec>>, merged: seq<Rec>) {
    && Sorted(merged)
    && forall k :: MergedRight(runs, merged, k)
  }

  ghost predicate AllSorted(runs: seq<seq<Rec>>) {
    forall i :: 0 <= i < |runs| ==> Sorted(runs[i])
  }

  /** Cursor positions of the iterators. */
  ghost predicate Cursors(runs: seq<seq<Rec>>, pos: seq<nat>) {
    |pos| == |runs| && forall i :: 0 <= i < |pos| ==> pos[i] <= |runs[i]|
  }

  /** Iterator `i` is valid and stands on `key`. */
  ghost predicate At(runs: seq<seq<Rec>>, pos: seq<nat>, i: nat, key: Bytes)
    requires Cursors(runs, pos)
  {
    i < |runs| && pos[i] < |runs[i]| && runs[i][pos[i]].key == key
  }

  function Current(runs: seq<seq<Rec>>, pos: seq<nat>, i: nat): HeapElement
    requires i < |runs| == |pos| && pos[i] < |runs[i]|
  {
    var r := runs[i][pos[i]];
    HeapElement(r.key, r.entry.seqNo, r.entry.kind, i)
  }

  /** Every remaining record has a key above `k`. */
  ghost predicate Passed(runs: seq<seq<Rec>>, pos: seq<nat>, k: Bytes)
    requires Cursors(runs, pos)
  {
    forall i :: 0 <= i < |runs| && pos[i] < |runs[i]| ==> Less(k, runs[i][pos[i]].key)
  }

  /** Every consumed record is below every remaining one. */
  ghost predicate Frontier(runs: seq<seq<Rec>>, pos: seq<nat>)
    requires Cursors(runs, pos)
  {
    forall i :: 0 <= i < |runs| && pos[i] > 0 ==> Passed(runs, pos, runs[i][pos[i] - 1].key)
  }

  /** The queue holds exactly the current records of the valid iterators outside `out`. */
  ghost predicate HeapMatches(runs: seq<seq<Rec>>, pos: seq<nat>, heap: set<HeapElement>, out: set<nat>)
    requires Cursors(runs, pos)
  {
    && (forall h :: h in heap ==>
          h.idx < |runs| && h.idx !in out && pos[h.idx] < |runs[h.idx]| && h == Current(runs, pos, h.idx))
    && (forall i :: 0 <= i < |runs| && i !in out && pos[i] < |runs[i]| ==> Current(runs, pos, i) in heap)
  }

  lemma {:induction false} ComesAfterWeakOrder(t: HeapElement, h: HeapElement, g: HeapElement)
    requires ComesAfter(t, h) && !ComesAfter(t, g)
    ensures !ComesAfter(h, g)
  {
    LessTotal(t.key, g.key);
    LessIrreflexive(t.key);
    if ComesAfter(h, g) && h.key != g.key && t.key != h.key { LessTransitive(g.key, h.key, t.key); }
  }

  /** `pq.top()`: some element that no other precedes. */
  method Top(heap: set<HeapElement>) returns (top: HeapElement)
    requires heap != {}
    ensures top in heap
    ensures forall h :: h in heap ==> !ComesAfter(top, h)
  {
    top :| top in heap;
    var rest := heap - {top};
    LessIrreflexive(top.key);
    while rest != {}
      invariant top in heap && rest <= heap
      invariant forall h :: h in heap - rest ==> !ComesAfter(top, h)
      decreases |rest|
    {
      var h :| h in rest;
      if ComesAfter(top, h) {
        forall g | g in heap - rest ensures !ComesAfter(h, g) { ComesAfterWeakOrder(top, h, g); }
        LessIrreflexive(h.key);
        top := h;
      }
      rest := rest - {h};
    }
  }

  /** The records of `key` that the iterators in `out` stand on; `best` is the newest of them. */
  ghost predicate BestOf(runs: seq<seq<Rec>>, pos: seq<nat>, out: set<nat>, key: Bytes, best: Entry)
    requires Cursors(runs, pos)
  {
    && (forall i :: i in out ==> At(runs, pos, i, key) && runs[i][pos[i]].entry.seqNo <= best.seqNo)
    && exists i :: i in out && At(runs, pos, i, key) && runs[i][pos[i]].entry == best
  }

  /** No iterator outside `out` can still hold `key`. */
  lemma {:induction false} GroupIsComplete(runs: seq<seq<Rec>>, pos: seq<nat>, out: set<nat>, key: Bytes, best: Entry)
    requires AllSorted(runs) && Cursors(runs, pos) && Frontier(runs, pos)
    requires BestOf(runs, pos, out, key, best)
    requires forall i :: 0 <= i < |runs| && i !in out && pos[i] < |runs[i]| ==> Less(key, runs[i][pos[i]].key)
    ensures IsNewest(runs, key, best)
  {
    var w :| w in out && At(runs, pos, w, key) && runs[w][pos[w]].entry == best;
    FindAt(runs[w], pos[w]);
    forall i | 0 <= i < |runs| && Find(runs[i], key).Some?
      ensures Find(runs[i], key).value.seqNo <= best.seqNo
    {
      if i in out {
        FindAt(runs[i], pos[i]);
      } else {
        if pos[i] > 0 { assert Passed(runs, pos, runs[i][pos[i] - 1].key); }
        FindInGap(runs[i], key, pos[i]);
      }
    }
  }

  /** The step past `key`: the iterators in `out` advance. */
  ghost predicate Advanced(runs: seq<seq<Rec>>, pos: seq<nat>, out: set<nat>, pos': seq<nat>)
    requires Cursors(runs, pos)
  {
    && Cursors(runs, pos')
    && forall i :: 0 <= i < |runs| ==> pos'[i] == if i in out then pos[i] + 1 else pos[i]
  }

  lemma {:induction false} AdvanceKeepsFrontier(runs: seq<seq<Rec>>, pos: seq<nat>, out: set<nat>, key: Bytes,
                                                pos': seq<nat>, best: Entry)
    requires AllSorted(runs) && Cursors(runs, pos) && Frontier(runs, pos)
    requires BestOf(runs, pos, out, key, best)
    requires forall i :: 0 <= i < |runs| && i !in out && pos[i] < |runs[i]| ==> Less(key, runs[i][pos[i]].key)
    requires Advanced(runs, pos, out, pos')
    ensures Passed(runs, pos', key) && Frontier(runs, pos')
    ensures Remaining(runs, pos') < Remaining(runs, pos)
  {
    hide Less;
    var w :| w in out && At(runs, pos, w, key) && runs[w][pos[w]].entry == best;
    RemainingShrinks(runs, pos, pos', w);
    forall j | 0 <= j < |runs| && pos'[j] < |runs[j]| ensures Less(key, runs[j][pos'[j]].key) {
      if j in out { assert Less(runs[j][pos[j]].key, runs[j][pos'[j]].key); }
    }
    forall i | 0 <= i < |runs| && pos'[i] > 0 ensures Passed(runs, pos', runs[i][pos'[i] - 1].key) {
      if i !in out {
        assert Passed(runs, pos, runs[i][pos[i] - 1].key);
        forall j | 0 <= j < |runs| && pos'[j] < |runs[j]|
          ensures Less(runs[i][pos'[i] - 1].key, runs[j][pos'[j]].key)
        {
          LessTransitive(runs[i][pos[i] - 1].key, key, runs[j][pos'[j]].key);
        }
      }
    }
  }

  /** After the step, the merge is right for every key the cursors have passed. */
  lemma {:induction false} StepIsRight(runs: seq<seq<Rec>>, pos: seq<nat>, out: set<nat>, key: Bytes, best: Entry,
                                       pos': seq<nat>, merged: seq<Rec>, merged': seq<Rec>, k: Bytes)
    requires AllSorted(runs) && Cursors(runs, pos) && Frontier(runs, pos)
    requires BestOf(runs, pos, out, key, best)
    requires forall i :: 0 <= i < |runs| && i !in out && pos[i] < |runs[i]| ==> Less(key, runs[i][pos[i]].key)
    requires Advanced(runs, pos, out, pos')
    requires Sorted(merged) && (merged != [] ==> Passed(runs, pos, merged[|merged| - 1].key))
    requires merged' == if best.kind == PUT then merged + [Rec(key, best)] else merged
    requires Sorted(merged')
    requires Passed(runs, pos, k) ==> MergedRight(runs, merged, k)
    requires Passed(runs, pos', k)
    ensures MergedRight(runs, merged', k)
  {
    hide Less, Sorted, Find;
    if best.kind == PUT { FindAppend(merged, Rec(key, best), k); }
    LessTotal(k, key);
    if k == key {
      GroupIsComplete(runs, pos, out, key, best);
      BelowGroup(runs, pos, out, key, best, merged, key);
      assert IsNewest(runs, k, best) && Find(merged', k) == Strip(Some(best));
    } else if Less(k, key) {
      forall i | 0 <= i < |runs| && pos[i] < |runs[i]| ensures Less(k, runs[i][pos[i]].key) {
        if i !in out { LessTransitive(k, key, runs[i][pos[i]].key); }
      }
    } else {
      forall i | 0 <= i < |runs| ensures Find(runs[i], k) == None {
        BetweenGroups(runs, pos, out, key, best, pos', k, i);
      }
      BelowGroup(runs, pos, out, key, best, merged, k);
    }
  }

  /** The merged list ends below the group's key. */
  lemma {:induction false} BelowGroup(runs: seq<seq<Rec>>, pos: seq<nat>, out: set<nat>, key: Bytes, best: Entry,
                                      merged: seq<Rec>, k: Bytes)
    requires Cursors(runs, pos) && BestOf(runs, pos, out, key, best)
    requires Sorted(merged) && (merged != [] ==> Passed(runs, pos, merged[|merged| - 1].key))
    requires k == key || Less(key, k)
    ensures Find(merged, k) == None
  {
    hide Less, Sorted, Find;
    var o :| o in out && At(runs, pos, o, key) && runs[o][pos[o]].entry == best;
    if merged != [] && k != key { LessTransitive(merged[|merged| - 1].key, key, k); }
    FindInGap(merged, k, |merged|);
  }

  /** A key between the group and the records that remain is in no run. */
  lemma {:induction false} BetweenGroups(runs: seq<seq<Rec>>, pos: seq<nat>, out: set<nat>, key: Bytes, best: Entry,
                                         pos': seq<nat>, k: Bytes, i: nat)
    requires AllSorted(runs) && Cursors(runs, pos) && Frontier(runs, pos) && i < |runs|
    requires BestOf(runs, pos, out, key, best) && Advanced(runs, pos, out, pos')
    requires Less(key, k) && Passed(runs, pos', k)
    ensures Find(runs[i], k) == None
  {
    hide Less, Sorted, Find;
    var o :| o in out && At(runs, pos, o, key) && runs[o][pos[o]].entry == best;
    if pos'[i] > 0 && i !in out {
      assert Passed(runs, pos, runs[i][pos[i] - 1].key);
      LessTransitive(runs[i][pos[i] - 1].key, key, k);
    }
    FindInGap(runs[i], k, pos'[i]);
  }

  lemma {:induction false} AppendSorted(merged: seq<Rec>, r: Rec)
    requires Sorted(merged) && (merged != [] ==> Less(merged[|merged| - 1].key, r.key))
    ensures Sorted(merged + [r])
  {
    forall i | 0 <= i < |merged| - 1 ensures Less(merged[i].key, r.key) {
      LessTransitive(merged[i].key, merged[|merged| - 1].key, r.key);
    }
  }

  lemma {:induction false} BestGrows(runs: seq<seq<Rec>>, pos: seq<nat>, out: set<nat>, key: Bytes, best: Entry, i: nat,
                                     best': Entry)
    requires Cursors(runs, pos) && BestOf(runs, pos, out, key, best)
    requires At(runs, pos, i, key)
    requires best' == if runs[i][pos[i]].entry.seqNo > best.seqNo then runs[i][pos[i]].entry else best
    ensures BestOf(runs, pos, out + {i}, key, best')
  {
    if best' == best {
      var w :| w in out && At(runs, pos, w, key) && runs[w][pos[w]].entry == best;
      assert w in out + {i};
    } else {
      assert i in out + {i};
    }
  }

  lemma {:induction false} KeyAbove(top: HeapElement, next: HeapElement, h: HeapElement)
    requires !ComesAfter(top, next) && !ComesAfter(next, h) && next.key != top.key
    ensures Less(top.key, h.key)
  {
    LessTotal(top.key, next.key);
    LessTotal(next.key, h.key);
    if h.key != next.key { LessTransitive(top.key, next.key, h.key); }
  }

  lemma {:induction false} PopMatches(runs: seq<seq<Rec>>, pos: seq<nat>, heap: set<HeapElement>, out: set<nat>,
                                      h: HeapElement)
    requires Cursors(runs, pos) && HeapMatches(runs, pos, heap, out) && h in heap
    ensures At(runs, pos, h.idx, h.key) && h.idx !in out
    ensures HeapMatches(runs, pos, heap - {h}, out + {h.idx})
  {
  }

  /** Pops every element of the queue that stands on the smallest key and keeps the newest entry. */
  method PopGroup(runs: seq<seq<Rec>>, pos: seq<nat>, heap: set<HeapElement>)
    returns (key: Bytes, best: Entry, out: set<nat>, rest: set<HeapElement>)
    requires Cursors(runs, pos) && HeapMatches(runs, pos, heap, {}) && heap != {}
    ensures BestOf(runs, pos, out, key, best)
    ensures HeapMatches(runs, pos, rest, out)
    ensures forall i :: i in out ==> i < |runs| && pos[i] < |runs[i]|
    ensures forall i :: 0 <= i < |runs| && i !in out && pos[i] < |runs[i]| ==> Less(key, runs[i][pos[i]].key)
  {
    hide Less;
    var top := Top(heap);
    PopMatches(runs, pos, heap, {}, top);
    key, best := top.key, runs[top.idx][pos[top.idx]].entry;
    out, rest := {top.idx}, heap - {top};
    var more := true;
    while more
      invariant rest <= heap
      invariant HeapMatches(runs, pos, rest, out)
      invariant BestOf(runs, pos, out, key, best)
      invariant !more ==> forall h :: h in rest ==> Less(key, h.key)
      decreases |rest|, more
    {
      more := false;
      if rest != {} {
        var next := Top(rest);
        if next.key == key {
          more := true;
          PopMatches(runs, pos, rest, out, next);
          var entry := runs[next.idx][pos[next.idx]].entry;
          BestGrows(runs, pos, out, key, best, next.idx, if next.seqNo > best.seqNo then entry else best);
          rest, out := rest - {next}, out + {next.idx};
          if next.seqNo > best.seqNo { best := entry; }
        } else {
          forall h | h in rest ensures Less(key, h.key) { KeyAbove(top, next, h); }
        }
      }
    }
    forall i | 0 <= i < |runs| && i !in out && pos[i] < |runs[i]| ensures Less(key, runs[i][pos[i]].key) {
      assert Current(runs, pos, i) in rest;
    }
  }

  /** Moving one cursor leaves the other iterators' records alone. */
  lemma {:induction false} CurrentLocal(runs: seq<seq<Rec>>, pos: seq<nat>, pos': seq<nat>, i: nat)
    requires Cursors(runs, pos) && Cursors(runs, pos')
    requires i < |pos| && pos' == pos[i := pos'[i]]
    ensures forall j :: 0 <= j < |runs| && pos[j] < |runs[j]| ==> Current(runs, pos, j).idx == j
    ensures forall j :: 0 <= j < |runs| && pos'[j] < |runs[j]| ==> Current(runs, pos', j).idx == j
    ensures forall j :: 0 <= j < |runs| && j != i && pos[j] < |runs[j]| ==>
              Current(runs, pos', j) == Current(runs, pos, j)
  {
  }

  /** Advances the popped iterators and refills the queue. */
  method Refill(runs: seq<seq<Rec>>, pos: seq<nat>, rest: set<HeapElement>, out: set<nat>)
    returns (pos': seq<nat>, heap: set<HeapElement>)
    requires Cursors(runs, pos) && HeapMatches(runs, pos, rest, out)
    requires forall i :: i in out ==> i < |runs| && pos[i] < |runs[i]|
    ensures Advanced(runs, pos, out, pos')
    ensures HeapMatches(runs, pos', heap, {})
  {
    hide Current;
    pos', heap := pos, rest;
    var todo := out;
    while todo != {}
      invariant todo <= out
      invariant Advanced(runs, pos, out - todo, pos')
      invariant HeapMatches(runs, pos', heap, todo)
      decreases |todo|
    {
      var i :| i in todo;
      var moved := pos'[i := pos'[i] + 1];
      todo := todo - {i};
      CurrentLocal(runs, pos', moved, i);
      pos' := moved;
      if pos'[i] < |runs[i]| { heap := heap + {Current(runs, pos', i)}; }
    }
    assert out - todo == out;
  }

  /** The queue at the start: one element per non-empty run. */
  method FillHeap(runs: seq<seq<Rec>>, pos: seq<nat>) returns (heap: set<HeapElement>)
    requires |pos| == |runs| && forall i :: 0 <= i < |pos| ==> pos[i] == 0
    ensures HeapMatches(runs, pos, heap, {})
  {
    heap := {};
    for i := 0 to |runs|
      invariant forall h :: h in heap ==>
                  h.idx < i && pos[h.idx] < |runs[h.idx]| && h == Current(runs, pos, h.idx)
      invariant forall j :: 0 <= j < i && pos[j] < |runs[j]| ==> Current(runs, pos, j) in heap
    {
      if 0 < |runs[i]| { heap := heap + {Current(runs, pos, i)}; }
    }
  }

  /** What the merge loop keeps. */
  ghost predicate Progress(runs: seq<seq<Rec>>, pos: seq<nat>, merged: seq<Rec>) {
    && Cursors(runs, pos) && Frontier(runs, pos)
    && Sorted(merged) && (merged != [] ==> Passed(runs, pos, merged[|merged| - 1].key))
    && (forall r :: r in merged ==> r.entry.kind == PUT)
    && forall k :: Passed(runs, pos, k) ==> MergedRight(runs, merged, k)
  }

  lemma {:induction false} ProgressAtStart(runs: seq<seq<Rec>>, pos: seq<nat>)
    requires AllSorted(runs)
    requires |pos| == |runs| && forall i :: 0 <= i < |pos| ==> pos[i] == 0
    ensures Progress(runs, pos, [])
  {
    forall k | Passed(runs, pos, k) ensures MergedRight(runs, [], k) {
      forall i | 0 <= i < |runs| ensures Find(runs[i], k) == None { FindInGap(runs[i], k, 0); }
    }
  }

  lemma {:induction false} PassedBelow(runs: seq<seq<Rec>>, pos: seq<nat>, k: Bytes, key: Bytes)
    requires Cursors(runs, pos) && Passed(runs, pos, key) && Less(k, key)
    ensures Passed(runs, pos, k)
  {
    forall i | 0 <= i < |runs| && pos[i] < |runs[i]| ensures Less(k, runs[i][pos[i]].key) {
      LessTransitive(k, key, runs[i][pos[i]].key);
    }
  }

  lemma {:induction false} ProgressAtEnd(runs: seq<seq<Rec>>, pos: seq<nat>, merged: seq<Rec>)
    requires Progress(runs, pos, merged) && HeapMatches(runs, pos, {}, {})
    ensures IsMerge(runs, merged)
  {
    forall k ensures MergedRight(runs, merged, k) { assert Passed(runs, pos, k); }
  }

  lemma {:induction false} ProgressStep(runs: seq<seq<Rec>>, pos: seq<nat>, out: set<nat>, key: Bytes, best: Entry,
                                        pos': seq<nat>, merged: seq<Rec>, merged': seq<Rec>)
    requires AllSorted(runs) && Progress(runs, pos, merged)
    requires BestOf(runs, pos, out, key, best)
    requires forall i :: 0 <= i < |runs| && i !in out && pos[i] < |runs[i]| ==> Less(key, runs[i][pos[i]].key)
    requires Advanced(runs, pos, out, pos')
    requires merged' == if best.kind == PUT then merged + [Rec(key, best)] else merged
    ensures Progress(runs, pos', merged')
    ensures Remaining(runs, pos') < Remaining(runs, pos)
  {
    hide Less, Sorted, Frontier, MergedRight, BestOf, At;
    AdvanceKeepsFrontier(runs, pos, out, key, pos', best);
    MergedGrows(runs, pos, out, key, best, pos', merged, merged');
    forall k | Passed(runs, pos', k) ensures MergedRight(runs, merged', k) {
      StepIsRight(runs, pos, out, key, best, pos', merged, merged', k);
    }
  }

  /** The merged list stays sorted, below the frontier, and free of tombstones. */
  lemma {:induction false} MergedGrows(runs: seq<seq<Rec>>, pos: seq<nat>, out: set<nat>, key: Bytes, best: Entry,
                                       pos': seq<nat>, merged: seq<Rec>, merged': seq<Rec>)
    requires Cursors(runs, pos) && Cursors(runs, pos') && BestOf(runs, pos, out, key, best) && Passed(runs, pos', key)
    requires Sorted(merged) && (merged != [] ==> Passed(runs, pos, merged[|merged| - 1].key))
    requires merged' == if best.kind == PUT then merged + [Rec(key, best)] else merged
    requires forall r :: r in merged ==> r.entry.kind == PUT
    ensures Sorted(merged') && (merged' != [] ==> Passed(runs, pos', merged'[|merged'| - 1].key))
    ensures forall r :: r in merged' ==> r.entry.kind == PUT
  {
    hide Less, Sorted;
    var o :| o in out && At(runs, pos, o, key) && runs[o][pos[o]].entry == best;
    if merged != [] { PassedBelow(runs, pos', merged[|merged| - 1].key, key); }
    AppendSorted(merged, Rec(key, best));
  }

  /**
   * The merge itself. It terminates, its result is sorted, and every key gets its
   * highest-sequence entry over all inputs, or nothing when that entry is a DELETE.
   */
  method KWayMerge(runs: seq<seq<Rec>>) returns (merged: seq<Rec>)
    requires AllSorted(runs)
    ensures IsMerge(runs, merged)
    ensures forall r :: r in merged ==> r.entry.kind == PUT
  {
    hide Less, MergedRight, Frontier, Passed, Sorted, HeapMatches, BestOf, Advanced;
    var pos: seq<nat> := seq(|runs|, _ => 0);
    var heap := FillHeap(runs, pos);
    merged := [];
    ProgressAtStart(runs, pos);
    while heap != {}
      invariant Progress(runs, pos, merged)
      invariant HeapMatches(runs, pos, heap, {})
      decreases Remaining(runs, pos)
    {
      var key, best, out, rest := PopGroup(runs, pos, heap);
      var pos', heap' := Refill(runs, pos, rest, out);
      var merged' := if best.kind == PUT then merged + [Rec(key, best)] else merged;
      ProgressStep(runs, pos, out, key, best, pos', merged, merged');
      pos, heap, merged := pos', heap', merged';
    }
    ProgressAtEnd(runs, pos, merged);
  }

  /** Records not yet consumed. */
  ghost function Remaining(runs: seq<seq<Rec>>, pos: seq<nat>): nat
    requires Cursors(runs, pos)
  {
    if runs == [] then 0
    else |runs[0]| - pos[0] + Remaining(runs[1..], pos[1..])
  }

  lemma {:induction false} RemainingShrinks(runs: seq<seq<Rec>>, pos: seq<nat>, pos': seq<nat>, i: nat)
    requires Cursors(runs, pos) && Cursors(runs, pos')
    requires forall j :: 0 <= j < |runs| ==> pos[j] <= pos'[j]
    ensures Remaining(runs, pos') <= Remaining(runs, pos)
    ensures i < |runs| && pos[i] < pos'[i] ==> Remaining(runs, pos') < Remaining(runs, pos)
  {
    if runs != [] {
      RemainingShrinks(runs[1..], pos[1..], pos'[1..], if i > 0 then i - 1 else |runs|);
    }
  }
}
