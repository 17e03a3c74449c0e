/**
 * What a compaction does to the levels: pick inputs from a snapshot, merge them, and edit the
 * version that is current when the result is installed
 * (engine/src/engine.cpp:643-796 for level 0, 798-945 for deeper levels).
 */
module Compaction {
  import opened Types
  import opened SortedMap
  import opened Levels

  // ---------- picking the inputs ----------

  /** The smallest key over the source tables. */
  function HullLo(ts: seq<Table>): Bytes
    requires ts != [] && AllOk(ts)
  {
    if |ts| == 1 then Lo(ts[0])
    else
      var rest := HullLo(ts[..|ts| - 1]);
      if Less(Lo(ts[|ts| - 1]), rest) then Lo(ts[|ts| - 1]) else rest
  }

  function HullHi(ts: seq<Table>): Bytes
    requires ts != [] && AllOk(ts)
  {
    if |ts| == 1 then Hi(ts[0])
    else
      var rest := HullHi(ts[..|ts| - 1]);
      if Less(rest, Hi(ts[|ts| - 1])) then Hi(ts[|ts| - 1]) else rest
  }

  predicate Overlaps(t: Table, lo: Bytes, hi: Bytes)
    requires t.recs != []
  {
    !(Less(Hi(t), lo) || Less(hi, Lo(t)))
  }

  function Overlapping(ts: seq<Table>, lo: Bytes, hi: Bytes): seq<Table>
    requires AllOk(ts)
  {
    if ts == [] then []
    else (if Overlaps(ts[0], lo, hi) then [ts[0]] else []) + Overlapping(ts[1..], lo, hi)
  }

  /** Level 0 compacts as a whole, deeper levels one table at a time. */
  function Sources(snap: seq<seq<Table>>, level: nat): (ts: seq<Table>)
    requires LevelsOk(snap) && level < |snap| && snap[level] != []
    ensures ts != [] && AllOk(ts)
  {
    if level == 0 then snap[0] else [snap[level][0]]
  }

  function NextInputs(snap: seq<seq<Table>>, level: nat): seq<Table>
    requires LevelsOk(snap) && level + 1 < |snap| && snap[level] != []
  {
    var src := Sources(snap, level);
    Overlapping(snap[level + 1], HullLo(src), HullHi(src))
  }

  function Inputs(snap: seq<seq<Table>>, level: nat): seq<Table>
    requires LevelsOk(snap) && level + 1 < |snap| && snap[level] != []
  {
    Sources(snap, level) + NextInputs(snap, level)
  }

  /** What the iterators over the tables enumerate. */
  function Runs(ts: seq<Table>): seq<seq<Rec>> {
    seq(|ts|, i requires 0 <= i < |ts| => ts[i].recs)
  }

  function Ids(ts: seq<Table>): set<nat> {
    set i | 0 <= i < |ts| :: ts[i].id
  }

  // ---------- editing the version ----------

  /** `removeSSTablesByIds` on one level. */
  function Without(ts: seq<Table>, ids: set<nat>): seq<Table> {
    if ts == [] then []
    else (if ts[0].id in ids then [] else [ts[0]]) + Without(ts[1..], ids)
  }

  function WithoutAll(levels: seq<seq<Table>>, ids: set<nat>): seq<seq<Table>> {
    seq(|levels|, l requires 0 <= l < |levels| => Without(levels[l], ids))
  }

  function InsertByLo(ts: seq<Table>, t: Table): seq<Table>
    requires AllOk(ts) && TableOk(t)
  {
    if ts == [] then [t]
    else if Less(Lo(t), Lo(ts[0])) then [t] + ts
    else [ts[0]] + InsertByLo(ts[1..], t)
  }

  /** `std::sort` by smallest key. */
  function SortByLo(ts: seq<Table>): (r: seq<Table>)
    requires AllOk(ts)
    ensures forall t :: t in r <==> t in ts
    ensures |r| == |ts| && AllOk(r)
  {
    if ts == [] then []
    else
      var n := |ts| - 1;
      assert ts == ts[..n] + [ts[n]];
      InsertMembers(SortByLo(ts[..n]), ts[n]);
      InsertByLo(SortByLo(ts[..n]), ts[n])
  }

  lemma {:induction false} InsertMembers(ts: seq<Table>, t: Table)
    requires AllOk(ts) && TableOk(t)
    ensures AllOk(InsertByLo(ts, t)) && |InsertByLo(ts, t)| == |ts| + 1
    ensures forall u :: u in InsertByLo(ts, t) <==> u == t || u in ts
  {
    if ts != [] {
      assert ts == [ts[0]] + ts[1..];
      InsertMembers(ts[1..], t);
    }
  }

  /** The copy-edit-install of a compaction of `snap` on the version `cur`. */
  function Install(cur: seq<seq<Table>>, snap: seq<seq<Table>>, level: nat, merged: Table): seq<seq<Table>>
    requires LevelsOk(cur) && LevelsOk(snap) && TableOk(merged)
    requires level + 1 < |snap| == |cur| && snap[level] != []
  {
    var edited := WithoutAll(cur, Ids(Inputs(snap, level)));
    assert AllOk(edited[level + 1]) by { WithoutMembers(cur[level + 1], Ids(Inputs(snap, level))); }
    edited[level + 1 := SortByLo(edited[level + 1] + [merged])]
  }

  lemma {:induction false} WithoutMembers(ts: seq<Table>, ids: set<nat>)
    ensures forall t :: t in Without(ts, ids) <==> t in ts && t.id !in ids
    ensures AllOk(ts) ==> AllOk(Without(ts, ids))
  {
    if ts != [] {
      assert ts == [ts[0]] + ts[1..];
      WithoutMembers(ts[1..], ids);
    }
  }

  lemma {:induction false} WithoutNone(ts: seq<Table>, ids: set<nat>)
    requires forall i :: 0 <= i < |ts| ==> ts[i].id !in ids
    ensures Without(ts, ids) == ts
  {
    if ts != [] { WithoutNone(ts[1..], ids); assert ts == [ts[0]] + ts[1..]; }
  }

  lemma {:induction false} WithoutSplit(a: seq<Table>, b: seq<Table>, ids: set<nat>)
    ensures Without(a + b, ids) == Without(a, ids) + Without(b, ids)
  {
    if a == [] {
      assert a + b == b;
    } else {
      assert (a + b)[1..] == a[1..] + b;
      WithoutSplit(a[1..], b, ids);
    }
  }

  lemma {:induction false} WithoutEvery(ts: seq<Table>, ids: set<nat>)
    requires forall i :: 0 <= i < |ts| ==> ts[i].id in ids
    ensures Without(ts, ids) == []
  {
    if ts != [] { WithoutEvery(ts[1..], ids); }
  }

  lemma {:induction false} WithoutDisjoint(ts: seq<Table>, ids: set<nat>)
    requires AllOk(ts) && Disjoint(ts)
    ensures AllOk(Without(ts, ids)) && Disjoint(Without(ts, ids))
  {
    WithoutMembers(ts, ids);
    if ts != [] {
      WithoutDisjoint(ts[1..], ids);
      WithoutMembers(ts[1..], ids);
      var rest := Without(ts[1..], ids);
      forall j | 0 <= j < |rest| ensures Less(Hi(ts[0]), Lo(rest[j])) {
        assert rest[j] in ts[1..];
      }
    }
  }

  // ---------- the inputs and what is left ----------

  lemma {:induction false} OverlappingMembers(ts: seq<Table>, lo: Bytes, hi: Bytes)
    requires AllOk(ts)
    ensures forall t :: t in Overlapping(ts, lo, hi) <==> t in ts && TableOk(t) && Overlaps(t, lo, hi)
    ensures AllOk(Overlapping(ts, lo, hi))
  {
    if ts != [] {
      assert ts == [ts[0]] + ts[1..];
      OverlappingMembers(ts[1..], lo, hi);
    }
  }

  lemma {:induction false} HullCovers(ts: seq<Table>)
    requires ts != [] && AllOk(ts)
    ensures forall i :: 0 <= i < |ts| ==> !Less(Lo(ts[i]), HullLo(ts)) && !Less(HullHi(ts), Hi(ts[i]))
  {
    var n := |ts| - 1;
    LessIrreflexive(Lo(ts[n]));
    LessIrreflexive(Hi(ts[n]));
    if n > 0 {
      HullCovers(ts[..n]);
      var lo, hi := HullLo(ts[..n]), HullHi(ts[..n]);
      forall i | 0 <= i < n ensures !Less(Lo(ts[i]), HullLo(ts)) && !Less(HullHi(ts), Hi(ts[i])) {
        assert ts[..n][i] == ts[i];
        if Less(Lo(ts[n]), lo) { LessChain(Lo(ts[n]), lo, Lo(ts[i])); LessAsymmetric(Lo(ts[n]), Lo(ts[i])); }
        if Less(hi, Hi(ts[n])) { LessChain(Hi(ts[i]), hi, Hi(ts[n])); LessAsymmetric(Hi(ts[i]), Hi(ts[n])); }
      }
    }
  }

  /** ... and no wider than needed: its ends are ends of source tables. */
  lemma {:induction false} HullReached(ts: seq<Table>) returns (i: nat, j: nat)
    requires ts != [] && AllOk(ts)
    ensures i < |ts| && Lo(ts[i]) == HullLo(ts) && j < |ts| && Hi(ts[j]) == HullHi(ts)
  {
    hide Less, Sorted;
    var n := |ts| - 1;
    i, j := n, n;
    if n > 0 {
      var a, b := HullReached(ts[..n]);
      if !Less(Lo(ts[n]), HullLo(ts[..n])) { i := a; }
      if !Less(HullHi(ts[..n]), Hi(ts[n])) { j := b; }
    }
  }

  /** Two ranges overlap exactly if some key lies in both. */
  lemma {:induction false} OverlapsExactly(t: Table, lo: Bytes, hi: Bytes)
    requires TableOk(t) && !Less(hi, lo)
    ensures Overlaps(t, lo, hi) <==>
            exists x :: !Less(x, lo) && !Less(hi, x) && !Less(x, Lo(t)) && !Less(Hi(t), x)
  {
    hide Less, Sorted;
    RangeOrdered(t);
    LessTotal(lo, Lo(t));
    LessIrreflexive(lo);
    LessIrreflexive(Lo(t));
    if Overlaps(t, lo, hi) {
      var x := if Less(lo, Lo(t)) then Lo(t) else lo;
      if Less(lo, Lo(t)) { LessAsymmetric(lo, Lo(t)); }
      assert !Less(x, lo) && !Less(hi, x) && !Less(x, Lo(t)) && !Less(Hi(t), x);
    }
    if x :| !Less(x, lo) && !Less(hi, x) && !Less(x, Lo(t)) && !Less(Hi(t), x) {
      LessChain(lo, x, Hi(t));
      LessChain(Lo(t), x, hi);
    }
  }

  lemma {:induction false} LessAsymmetric(a: Bytes, b: Bytes)
    ensures !(Less(a, b) && Less(b, a))
  {
    if Less(a, b) && Less(b, a) { LessTransitive(a, b, a); LessIrreflexive(a); }
  }

  /** A source key lies inside the hull, so a next-level table holding it is an input. */
  lemma {:induction false} HolderOverlaps(src: seq<Table>, i: nat, t: Table, k: Bytes)
    requires src != [] && AllOk(src) && i < |src| && TableOk(t)
    requires Find(src[i].recs, k).Some? && Find(t.recs, k).Some?
    ensures Overlaps(t, HullLo(src), HullHi(src))
  {
    var lo, hi := HullLo(src), HullHi(src);
    HullCovers(src);
    FindInRange(src[i], k);
    FindInRange(t, k);
    LessChain(lo, Lo(src[i]), k);
    LessChain(lo, k, Hi(t));
    LessChain(k, Hi(src[i]), hi);
    LessChain(Lo(t), k, hi);
  }

  /** Separation of a table that stays from a key that goes into the merged table. */
  ghost predicate Apart(r: Table, k: Bytes, lo: Bytes)
    requires r.recs != []
  {
    if Less(Hi(r), lo) then Less(Hi(r), k) else Less(k, Lo(r))
  }

  lemma {:induction false} SourceKeyApart(src: seq<Table>, i: nat, r: Table, k: Bytes)
    requires src != [] && AllOk(src) && i < |src| && TableOk(r) && Find(src[i].recs, k).Some?
    requires !Overlaps(r, HullLo(src), HullHi(src))
    ensures Apart(r, k, HullLo(src))
  {
    HullCovers(src);
    FindInRange(src[i], k);
    LessChain(HullLo(src), Lo(src[i]), k);
    LessChain(Hi(r), HullLo(src), k);
    LessChain(k, Hi(src[i]), HullHi(src));
    LessChain(k, HullHi(src), Lo(r));
  }

  lemma {:induction false} NextKeyApart(next: seq<Table>, o: nat, r: nat, lo: Bytes, hi: Bytes, k: Bytes)
    requires AllOk(next) && Disjoint(next) && o < |next| && r < |next| && !Less(hi, lo)
    requires Overlaps(next[o], lo, hi) && !Overlaps(next[r], lo, hi) && Find(next[o].recs, k).Some?
    ensures Apart(next[r], k, lo)
  {
    var chosen, other := next[o], next[r];
    FindInRange(chosen, k);
    RangeOrdered(other);
    RangeOrdered(chosen);
    if Less(Hi(other), lo) {
      if o < r {
        LessChain(Hi(chosen), Lo(other), Hi(other));
        LessChain(Hi(chosen), Hi(other), lo);
        LessTransitive(Hi(chosen), Hi(other), lo);
        assert false;
      }
      LessChain(Hi(other), Lo(chosen), k);
    } else {
      if r < o {
        LessChain(hi, Lo(other), Hi(other));
        LessTransitive(hi, Hi(other), Lo(chosen));
        assert false;
      }
      LessChain(k, Hi(chosen), Lo(other));
    }
  }

  lemma {:induction false} HullOrdered(ts: seq<Table>)
    requires ts != [] && AllOk(ts)
    ensures !Less(HullHi(ts), HullLo(ts))
  {
    HullCovers(ts);
    RangeOrdered(ts[0]);
    LessChain(HullLo(ts), Lo(ts[0]), Hi(ts[0]));
    LessChain(HullLo(ts), Hi(ts[0]), HullHi(ts));
  }

  // ---------- inserting the merged table ----------

  /** `t` lies wholly on one side of every table of `ts`. */
  ghost predicate FitsInto(ts: seq<Table>, t: Table)
    requires AllOk(ts) && TableOk(t)
  {
    forall i :: 0 <= i < |ts| ==> Less(Hi(ts[i]), Lo(t)) || Less(Hi(t), Lo(ts[i]))
  }

  lemma {:induction false} InsertDisjoint(ts: seq<Table>, t: Table)
    requires AllOk(ts) && Disjoint(ts) && TableOk(t) && FitsInto(ts, t)
    ensures AllOk(InsertByLo(ts, t)) && Disjoint(InsertByLo(ts, t))
  {
    hide Less, Sorted, TombstonesEmpty;
    InsertMembers(ts, t);
    if ts != [] {
      RangeOrdered(ts[0]);
      RangeOrdered(t);
      if Less(Lo(t), Lo(ts[0])) {
        LessChain(Lo(ts[0]), Hi(ts[0]), Lo(t));
        LessAsymmetric(Lo(t), Lo(ts[0]));
        forall j | 0 < j < |ts| ensures Less(Hi(t), Lo(ts[j])) {
          LessChain(Hi(t), Lo(ts[0]), Hi(ts[0]));
          LessTransitive(Hi(t), Hi(ts[0]), Lo(ts[j]));
        }
      } else {
        LessChain(Lo(t), Hi(t), Lo(ts[0]));
        InsertMembers(ts[1..], t);
        InsertDisjoint(ts[1..], t);
        var rest := InsertByLo(ts[1..], t);
        forall j | 0 <= j < |rest| ensures Less(Hi(ts[0]), Lo(rest[j])) {
          assert rest[j] == t || rest[j] in ts[1..];
        }
      }
    }
  }

  /** Sorting a level that is already sorted changes nothing. */
  lemma {:induction false} SortFixed(ts: seq<Table>)
    requires AllOk(ts) && Disjoint(ts)
    ensures SortByLo(ts) == ts
  {
    if ts != [] {
      var n := |ts| - 1;
      SortFixed(ts[..n]);
      assert ts == ts[..n] + [ts[n]];
      InsertLast(ts[..n], ts[n]);
    }
  }

  lemma {:induction false} InsertLast(ts: seq<Table>, t: Table)
    requires AllOk(ts) && TableOk(t) && forall i :: 0 <= i < |ts| ==> Less(Hi(ts[i]), Lo(t))
    ensures InsertByLo(ts, t) == ts + [t]
  {
    if ts != [] {
      RangeOrdered(ts[0]);
      LessChain(Lo(ts[0]), Hi(ts[0]), Lo(t));
      LessAsymmetric(Lo(ts[0]), Lo(t));
      InsertLast(ts[1..], t);
      assert ts + [t] == [ts[0]] + (ts[1..] + [t]);
    }
  }

  lemma {:induction false} SortInserts(ts: seq<Table>, t: Table)
    requires AllOk(ts) && Disjoint(ts) && TableOk(t)
    ensures AllOk(ts + [t]) && SortByLo(ts + [t]) == InsertByLo(ts, t)
  {
    assert (ts + [t])[..|ts|] == ts;
    SortFixed(ts);
  }
}
