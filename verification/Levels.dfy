/**
 * The levels of tables a version holds: lookups (engine/src/engine.cpp:171-209) and the edit a
 * compaction makes (engine/src/engine.cpp:643-945).
 */
module Levels {
  import opened Types
  import opened SortedMap

  /** A table as its point reads and iterator show it; the file format is in SSTable. */
  datatype Table = Table(id: nat, recs: seq<Rec>)

  predicate TableOk(t: Table) {
    t.recs != [] && Sorted(t.recs) && TombstonesEmpty(t.recs)
  }

  function Lo(t: Table): Bytes
    requires t.recs != []
  {
    t.recs[0].key
  }

  function Hi(t: Table): Bytes
    requires t.recs != []
  {
    t.recs[|t.recs| - 1].key
  }

  ghost predicate AllOk(ts: seq<Table>) {
    forall i :: 0 <= i < |ts| ==> TableOk(ts[i])
  }

  ghost predicate NoTombstones(ts: seq<Table>) {
    forall i, r :: 0 <= i < |ts| && r in ts[i].recs ==> r.entry.kind == PUT
  }

  /** Sorted by key range, ranges pairwise disjoint. */
  ghost predicate Disjoint(ts: seq<Table>)
    requires AllOk(ts)
  {
    forall i, j :: 0 <= i < j < |ts| ==> Less(Hi(ts[i]), Lo(ts[j]))
  }

  // ---------- lookups ----------

  /** `record && (!candidate || record->seq > candidate->seq)`. */
  function Newer(candidate: Option<Entry>, record: Option<Entry>): Option<Entry> {
    if record.Some? && (candidate.None? || record.value.seqNo > candidate.value.seqNo) then record else candidate
  }

  /** Level 0: every table is read, in order. */
  function Scan(ts: seq<Table>, k: Bytes, candidate: Option<Entry>): Option<Entry> {
    if ts == [] then candidate
    else Scan(ts[1..], k, Newer(candidate, Find(ts[0].recs, k)))
  }

  /** `std::lower_bound` on the tables' greatest keys. */
  function LowerBound(ts: seq<Table>, k: Bytes): (i: nat)
    requires AllOk(ts)
    ensures i <= |ts|
  {
    if ts == [] then 0
    else if Less(Hi(ts[0]), k) then 1 + LowerBound(ts[1..], k)
    else 0
  }

  /** Level 1 and deeper: only the table `lower_bound` points at is read. */
  function Probe(ts: seq<Table>, k: Bytes): Option<Entry>
    requires AllOk(ts)
  {
    var i := LowerBound(ts, k);
    if i < |ts| && !Less(k, Lo(ts[i])) then Find(ts[i].recs, k) else None
  }

  ghost predicate LevelsOk(levels: seq<seq<Table>>) {
    forall l :: 0 <= l < |levels| ==> AllOk(levels[l])
  }

  /** The level loop of `get`, with its early exits. */
  function SearchFrom(levels: seq<seq<Table>>, l: nat, k: Bytes, candidate: Option<Entry>): Option<Entry>
    requires LevelsOk(levels) && l <= |levels|
    decreases |levels| - l
  {
    if l == |levels| then candidate
    else if levels[l] == [] then SearchFrom(levels, l + 1, k, candidate)
    else
      var c := if l == 0 then Scan(levels[0], k, candidate) else Newer(candidate, Probe(levels[l], k));
      if c.Some? then c else SearchFrom(levels, l + 1, k, c)
  }

  // ---------- well-formed levels ----------

  ghost predicate DistinctIds(levels: seq<seq<Table>>) {
    forall l, i, m, j | 0 <= l < |levels| && 0 <= i < |levels[l]| && 0 <= m < |levels| && 0 <= j < |levels[m]| ::
      levels[l][i].id == levels[m][j].id ==> l == m && i == j
  }

  /** Shape: level 1 and deeper are sorted, disjoint and free of tombstones. */
  ghost predicate Shaped(levels: seq<seq<Table>>) {
    && |levels| >= 4
    && LevelsOk(levels)
    && DistinctIds(levels)
    && forall l :: 1 <= l < |levels| ==> Disjoint(levels[l]) && NoTombstones(levels[l])
  }

  /** Recency of one key: later level-0 tables are newer, and every level is newer than the ones below. */
  ghost predicate Recent(levels: seq<seq<Table>>, k: Bytes)
    requires LevelsOk(levels) && |levels| >= 1
  {
    && (forall i, j :: 0 <= i < j < |levels[0]|
                       && Find(levels[0][i].recs, k).Some? && Find(levels[0][j].recs, k).Some? ==>
          Find(levels[0][i].recs, k).value.seqNo < Find(levels[0][j].recs, k).value.seqNo)
    && (forall i, m :: 0 <= i < |levels[0]| && 1 <= m < |levels|
                       && Find(levels[0][i].recs, k).Some? && Probe(levels[m], k).Some? ==>
          Probe(levels[m], k).value.seqNo < Find(levels[0][i].recs, k).value.seqNo)
    && (forall l, m :: 1 <= l < m < |levels| && Probe(levels[l], k).Some? && Probe(levels[m], k).Some? ==>
          Probe(levels[m], k).value.seqNo < Probe(levels[l], k).value.seqNo)
  }

  /** The newest entry of `k` in levels `l` and deeper. */
  function FirstProbe(levels: seq<seq<Table>>, l: nat, k: Bytes): Option<Entry>
    requires LevelsOk(levels) && l <= |levels|
    decreases |levels| - l
  {
    if l == |levels| then None
    else if Probe(levels[l], k).Some? then Probe(levels[l], k)
    else FirstProbe(levels, l + 1, k)
  }

  function NewestInLevels(levels: seq<seq<Table>>, k: Bytes): Option<Entry>
    requires LevelsOk(levels) && |levels| >= 1
  {
    var c := Scan(levels[0], k, None);
    if c.Some? then c else FirstProbe(levels, 1, k)
  }

  // ---------- facts about single levels ----------

  lemma {:induction false} FindInRange(t: Table, k: Bytes)
    requires TableOk(t) && Find(t.recs, k).Some?
    ensures !Less(k, Lo(t)) && !Less(Hi(t), k)
  {
    if Less(k, Lo(t)) { FindInGap(t.recs, k, 0); }
    if Less(Hi(t), k) { FindInGap(t.recs, k, |t.recs|); }
  }

  lemma {:induction false} RangeOrdered(t: Table)
    requires TableOk(t)
    ensures !Less(Hi(t), Lo(t))
  {
    FindAt(t.recs, 0);
    FindInRange(t, Lo(t));
  }

  /** `a <= b` in terms of the strict order. */
  lemma {:induction false} LessChain(a: Bytes, b: Bytes, c: Bytes)
    ensures Less(a, b) && !Less(c, b) ==> Less(a, c)
    ensures !Less(b, a) && Less(b, c) ==> Less(a, c)
    ensures !Less(b, a) && !Less(c, b) ==> !Less(c, a)
  {
    LessTotal(a, b);
    LessTotal(b, c);
    LessIrreflexive(a);
    if Less(a, b) && Less(b, c) { LessTransitive(a, b, c); }
    if Less(c, a) {
      if Less(a, b) { LessTransitive(c, a, b); }
      if Less(b, c) { LessTransitive(b, c, a); }
    }
  }

  /** In a disjoint level the probe answers with the only table that can hold the key. */
  lemma {:induction false} ProbeFinds(ts: seq<Table>, k: Bytes, i: nat)
    requires AllOk(ts) && Disjoint(ts) && i < |ts| && Find(ts[i].recs, k).Some?
    ensures LowerBound(ts, k) == i && Probe(ts, k) == Find(ts[i].recs, k)
  {
    FindInRange(ts[i], k);
    if i > 0 {
      LessChain(Hi(ts[0]), Lo(ts[i]), k);
      ProbeFinds(ts[1..], k, i - 1);
    }
  }

  lemma {:induction false} ProbeSound(ts: seq<Table>, k: Bytes) returns (i: nat)
    requires AllOk(ts) && Probe(ts, k).Some?
    ensures i < |ts| && Find(ts[i].recs, k) == Probe(ts, k)
  {
    i := LowerBound(ts, k);
  }

  /** The scan returns an entry of maximal sequence number among the candidate and the tables. */
  lemma {:induction false} ScanIsMax(ts: seq<Table>, k: Bytes, c: Option<Entry>)
    ensures var r := Scan(ts, k, c);
            && (c.Some? ==> r.Some? && c.value.seqNo <= r.value.seqNo)
            && (forall i :: 0 <= i < |ts| && Find(ts[i].recs, k).Some? ==>
                  r.Some? && Find(ts[i].recs, k).value.seqNo <= r.value.seqNo)
            && (r == c || exists i :: 0 <= i < |ts| && Find(ts[i].recs, k) == r)
  {
    if ts != [] {
      var c' := Newer(c, Find(ts[0].recs, k));
      ScanIsMax(ts[1..], k, c');
      var r := Scan(ts, k, c);
      forall i | 0 <= i < |ts| && Find(ts[i].recs, k).Some?
        ensures r.Some? && Find(ts[i].recs, k).value.seqNo <= r.value.seqNo
      {
        if i > 0 { assert ts[1..][i - 1] == ts[i]; }
      }
      if r != c && r != Find(ts[0].recs, k) {
        var i :| 0 <= i < |ts[1..]| && Find(ts[1..][i].recs, k) == r;
        assert Find(ts[i + 1].recs, k) == r;
      }
    }
  }

  /** A scan splits at any point. */
  lemma {:induction false} ScanSplit(a: seq<Table>, b: seq<Table>, k: Bytes, c: Option<Entry>)
    ensures Scan(a + b, k, c) == Scan(b, k, Scan(a, k, c))
  {
    if a == [] {
      assert a + b == b;
    } else {
      assert (a + b)[1..] == a[1..] + b;
      ScanSplit(a[1..], b, k, Newer(c, Find(a[0].recs, k)));
    }
  }

  /** Scanning with a candidate is scanning without one and comparing once. */
  lemma {:induction false} ScanCandidate(ts: seq<Table>, k: Bytes, c: Option<Entry>)
    ensures Scan(ts, k, c) == Newer(c, Scan(ts, k, None))
  {
    if ts != [] {
      var f := Find(ts[0].recs, k);
      ScanCandidate(ts[1..], k, Newer(c, f));
      ScanCandidate(ts[1..], k, Newer(None, f));
    }
  }

  lemma {:induction false} FirstProbeAt(levels: seq<seq<Table>>, l: nat, k: Bytes) returns (m: nat)
    requires LevelsOk(levels) && l <= |levels| && FirstProbe(levels, l, k).Some?
    ensures l <= m < |levels| && Probe(levels[m], k) == FirstProbe(levels, l, k)
    ensures forall n :: l <= n < m ==> Probe(levels[n], k).None?
    decreases |levels| - l
  {
    if Probe(levels[l], k).Some? { m := l; } else { m := FirstProbeAt(levels, l + 1, k); }
  }

  lemma {:induction false} FirstProbeNone(levels: seq<seq<Table>>, l: nat, k: Bytes, m: nat)
    requires LevelsOk(levels) && l <= m < |levels| && FirstProbe(levels, l, k).None?
    ensures Probe(levels[m], k).None?
    decreases |levels| - l
  {
    if l < m { FirstProbeNone(levels, l + 1, k, m); }
  }

  /** With no candidate, `get`'s level loop finds exactly the newest entry below. */
  lemma {:induction false} SearchBelow(levels: seq<seq<Table>>, l: nat, k: Bytes)
    requires LevelsOk(levels) && 1 <= l <= |levels|
    ensures SearchFrom(levels, l, k, None) == FirstProbe(levels, l, k)
    decreases |levels| - l
  {
    if l < |levels| { SearchBelow(levels, l + 1, k); }
  }

  lemma {:induction false} SearchIsNewest(levels: seq<seq<Table>>, k: Bytes)
    requires LevelsOk(levels) && |levels| >= 1
    ensures SearchFrom(levels, 0, k, None) == NewestInLevels(levels, k)
  {
    SearchBelow(levels, 1, k);
  }

  /** With a candidate, the loop stops at the first non-empty level, with something at least as new. */
  lemma {:induction false} SearchWithCandidate(levels: seq<seq<Table>>, l: nat, k: Bytes, c: Entry)
    requires LevelsOk(levels) && l <= |levels|
    ensures var r := SearchFrom(levels, l, k, Some(c));
            && r.Some? && c.seqNo <= r.value.seqNo
            && (r == Some(c)
                || (l == 0 && levels != [] && exists i :: 0 <= i < |levels[0]| && Find(levels[0][i].recs, k) == r)
                || exists m :: 1 <= m < |levels| && Probe(levels[m], k) == r)
    decreases |levels| - l
  {
    if l < |levels| {
      if levels[l] == [] {
        SearchWithCandidate(levels, l + 1, k, c);
      } else if l == 0 {
        ScanIsMax(levels[0], k, Some(c));
      } else {
        assert SearchFrom(levels, l, k, Some(c)) == Newer(Some(c), Probe(levels[l], k));
      }
    }
  }

  /** Under recency, the first hit is the entry of maximal sequence number over all tables. */
  lemma {:induction false} NewestIsMax(levels: seq<seq<Table>>, k: Bytes)
    requires LevelsOk(levels) && |levels| >= 1 && Recent(levels, k)
    ensures var r := NewestInLevels(levels, k);
            && (forall i :: 0 <= i < |levels[0]| && Find(levels[0][i].recs, k).Some? ==>
                  r.Some? && Find(levels[0][i].recs, k).value.seqNo <= r.value.seqNo)
            && (forall m :: 1 <= m < |levels| && Probe(levels[m], k).Some? ==>
                  r.Some? && Probe(levels[m], k).value.seqNo <= r.value.seqNo)
            && (r.Some? ==> (exists i :: 0 <= i < |levels[0]| && Find(levels[0][i].recs, k) == r)
                            || exists m :: 1 <= m < |levels| && Probe(levels[m], k) == r)
  {
    ScanIsMax(levels[0], k, None);
    var c := Scan(levels[0], k, None);
    if c.None? {
      if FirstProbe(levels, 1, k).Some? {
        var l := FirstProbeAt(levels, 1, k);
        assert Probe(levels[l], k) == NewestInLevels(levels, k);
      } else {
        forall m | 1 <= m < |levels| ensures Probe(levels[m], k).None? { FirstProbeNone(levels, 1, k, m); }
      }
    }
  }
}
