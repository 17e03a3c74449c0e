/** Compactions keep the shape and the recency of the levels, and change lookups only by resurrection. */
module CompactionProof {
  import opened Types
  import opened SortedMap
  import opened Merge
  import opened Levels
  import opened Compaction

  /** `cur` is `snap` after any number of flushes. */
  ghost predicate Grown(snap: seq<seq<Table>>, cur: seq<seq<Table>>) {
    && 1 <= |snap| == |cur|
    && snap[0] <= cur[0]
    && forall l :: 1 <= l < |snap| ==> cur[l] == snap[l]
  }

  ghost predicate FreshId(levels: seq<seq<Table>>, id: nat) {
    forall l, i :: 0 <= l < |levels| && 0 <= i < |levels[l]| ==> levels[l][i].id != id
  }

  ghost predicate AllPut(recs: seq<Rec>) {
    forall r :: r in recs ==> r.entry.kind == PUT
  }

  /** A compaction of `snap` at `level`, ready to be installed on `cur` with its merged table. */
  ghost predicate Ready(cur: seq<seq<Table>>, snap: seq<seq<Table>>, level: nat, merged: Table) {
    && Shaped(cur) && Grown(snap, cur) && LevelsOk(snap)
    && level + 1 < |snap| && snap[level] != []
    && TableOk(merged) && FreshId(cur, merged.id) && AllPut(merged.recs)
    && IsMerge(Runs(Inputs(snap, level)), merged.recs)
  }

  /** The tables of the next level that are not inputs. */
  ghost function Rest(cur: seq<seq<Table>>, snap: seq<seq<Table>>, level: nat): seq<Table>
    requires LevelsOk(snap) && level + 1 < |snap| == |cur| && snap[level] != []
  {
    Without(cur[level + 1], Ids(Inputs(snap, level)))
  }

  /** A table's place in the current levels, for an input of the compaction. */
  lemma {:induction false} InputPlace(cur: seq<seq<Table>>, snap: seq<seq<Table>>, level: nat, id: nat)
    returns (l: nat, i: nat)
    requires Shaped(cur) && Grown(snap, cur) && LevelsOk(snap)
    requires level + 1 < |snap| && snap[level] != []
    requires id in Ids(Inputs(snap, level))
    ensures l < |cur| && i < |cur[l]| && cur[l][i].id == id
    ensures (l == level && i < |Sources(snap, level)|)
            || (l == level + 1
                && Overlaps(cur[l][i], HullLo(Sources(snap, level)), HullHi(Sources(snap, level))))
  {
    hide Less, Sorted, TombstonesEmpty, HullLo, HullHi, Overlapping, Disjoint, NoTombstones, DistinctIds, Overlaps,
         TableOk;
    var src := Sources(snap, level);
    var next := NextInputs(snap, level);
    var n :| 0 <= n < |Inputs(snap, level)| && Inputs(snap, level)[n].id == id;
    if n < |src| {
      l, i := level, n;
      assert snap[l][i] == cur[l][i];
    } else {
      OverlappingMembers(snap[level + 1], HullLo(src), HullHi(src));
      var t := next[n - |src|];
      assert t in next;
      l := level + 1;
      i :| 0 <= i < |cur[l]| && cur[l][i] == t;
    }
  }

  /** The ids removed are those of the sources and of the overlapping next-level tables, nothing else. */
  lemma {:induction false} RemovedIds(cur: seq<seq<Table>>, snap: seq<seq<Table>>, level: nat, l: nat, i: nat)
    requires Shaped(cur) && Grown(snap, cur) && LevelsOk(snap)
    requires level + 1 < |snap| && snap[level] != []
    requires l < |cur| && i < |cur[l]|
    ensures cur[l][i].id in Ids(Inputs(snap, level)) <==>
            || (l == level && i < |Sources(snap, level)|)
            || (l == level + 1 && Overlaps(cur[l][i], HullLo(Sources(snap, level)), HullHi(Sources(snap, level))))
  {
    hide Less, Sorted, TombstonesEmpty, HullLo, HullHi, Overlapping, NoTombstones, Overlaps;
    var src := Sources(snap, level);
    var inputs := Inputs(snap, level);
    if cur[l][i].id in Ids(inputs) {
      var m, j := InputPlace(cur, snap, level, cur[l][i].id);
    }
    if l == level && i < |src| {
      assert inputs[i] == cur[l][i];
    }
    if l == level + 1 && Overlaps(cur[l][i], HullLo(src), HullHi(src)) {
      OverlappingMembers(snap[level + 1], HullLo(src), HullHi(src));
      assert cur[l][i] in NextInputs(snap, level);
      var n :| 0 <= n < |NextInputs(snap, level)| && NextInputs(snap, level)[n] == cur[l][i];
      assert inputs[|src| + n] == cur[l][i];
    }
  }

  lemma {:induction false} OtherLevelsKept(cur: seq<seq<Table>>, snap: seq<seq<Table>>, level: nat, l: nat)
    requires Shaped(cur) && Grown(snap, cur) && LevelsOk(snap) && level + 1 < |snap| && snap[level] != []
    requires l < |cur| && l != level && l != level + 1
    ensures Without(cur[l], Ids(Inputs(snap, level))) == cur[l]
  {
    hide Shaped, Grown, LevelsOk, Inputs, Ids, Without;
    forall i | 0 <= i < |cur[l]| ensures cur[l][i].id !in Ids(Inputs(snap, level)) {
      RemovedIds(cur, snap, level, l, i);
    }
    WithoutNone(cur[l], Ids(Inputs(snap, level)));
  }

  lemma {:induction false} SourcesRemoved(cur: seq<seq<Table>>, snap: seq<seq<Table>>, level: nat)
    requires Shaped(cur) && Grown(snap, cur) && LevelsOk(snap) && level + 1 < |snap| && snap[level] != []
    ensures |Sources(snap, level)| <= |cur[level]|
    ensures Without(cur[level], Ids(Inputs(snap, level))) == cur[level][|Sources(snap, level)|..]
  {
    hide Shaped, LevelsOk, Inputs, Ids, Without;
    var ids := Ids(Inputs(snap, level));
    var n := |Sources(snap, level)|;
    forall i | 0 <= i < |cur[level]| ensures cur[level][i].id in ids <==> i < n {
      RemovedIds(cur, snap, level, level, i);
    }
    assert cur[level] == cur[level][..n] + cur[level][n..];
    WithoutSplit(cur[level][..n], cur[level][n..], ids);
    WithoutEvery(cur[level][..n], ids);
    WithoutNone(cur[level][n..], ids);
  }

  /** The edit, level by level: flushed tables stay, sources go, the rest of the levels is untouched. */
  lemma {:induction false} InstallLevels(cur: seq<seq<Table>>, snap: seq<seq<Table>>, level: nat, merged: Table)
    requires Ready(cur, snap, level, merged)
    ensures var post := Install(cur, snap, level, merged);
            && |post| == |cur|
            && |Sources(snap, level)| <= |cur[level]|
            && post[level] == cur[level][|Sources(snap, level)|..]
            && |Sources(snap, level)| == (if level == 0 then |snap[0]| else 1)
            && (forall l :: 0 <= l < |cur| && l != level && l != level + 1 ==> post[l] == cur[l])
    ensures AllOk(Rest(cur, snap, level)) && Disjoint(Rest(cur, snap, level))
  {
    hide Less, TableOk, Inputs, DistinctIds, NoTombstones, IsMerge, SortByLo, Without, Ids;
    forall l | 0 <= l < |cur| && l != level && l != level + 1
      ensures Without(cur[l], Ids(Inputs(snap, level))) == cur[l]
    {
      OtherLevelsKept(cur, snap, level, l);
    }
    SourcesRemoved(cur, snap, level);
    WithoutDisjoint(cur[level + 1], Ids(Inputs(snap, level)));
  }

  lemma {:induction false} RunsFind(ts: seq<Table>, k: Bytes)
    ensures Holds(Runs(ts), k) <==> exists i :: 0 <= i < |ts| && Find(ts[i].recs, k).Some?
  {
    if i :| 0 <= i < |ts| && Find(ts[i].recs, k).Some? { assert Runs(ts)[i] == ts[i].recs; }
  }

  /** Every table that stays next to the merged one lies wholly on one side of it. */
  lemma {:induction false} MergedFits(cur: seq<seq<Table>>, snap: seq<seq<Table>>, level: nat, merged: Table)
    requires Ready(cur, snap, level, merged)
    ensures AllOk(Rest(cur, snap, level)) && FitsInto(Rest(cur, snap, level), merged)
  {
    var src := Sources(snap, level);
    var lo, hi := HullLo(src), HullHi(src);
    var rest := Rest(cur, snap, level);
    WithoutMembers(cur[level + 1], Ids(Inputs(snap, level)));
    forall n | 0 <= n < |rest| ensures Less(Hi(rest[n]), Lo(merged)) || Less(Hi(merged), Lo(rest[n])) {
      assert rest[n] in rest;
      var r :| 0 <= r < |cur[level + 1]| && cur[level + 1][r] == rest[n];
      RemovedIds(cur, snap, level, level + 1, r);
      MergedKeyApart(cur, snap, level, merged, r, 0);
      MergedKeyApart(cur, snap, level, merged, r, |merged.recs| - 1);
    }
  }

  lemma {:induction false} MergedKeyApart(cur: seq<seq<Table>>, snap: seq<seq<Table>>, level: nat, merged: Table,
                                          r: nat, m: nat)
    requires Ready(cur, snap, level, merged) && r < |cur[level + 1]| && m < |merged.recs|
    requires !Overlaps(cur[level + 1][r], HullLo(Sources(snap, level)), HullHi(Sources(snap, level)))
    ensures Apart(cur[level + 1][r], merged.recs[m].key, HullLo(Sources(snap, level)))
  {
    hide Less, Sorted, TombstonesEmpty, HullLo, HullHi, Overlapping, Overlaps, IsNewest, DistinctIds, NoTombstones,
         Find, Disjoint, Apart;
    var src := Sources(snap, level);
    var inputs := Inputs(snap, level);
    var k := merged.recs[m].key;
    FindAt(merged.recs, m);
    assert MergedRight(Runs(inputs), merged.recs, k);
    RunsFind(inputs, k);
    var n :| 0 <= n < |inputs| && Find(inputs[n].recs, k).Some?;
    if n < |src| {
      SourceKeyApart(src, n, cur[level + 1][r], k);
    } else {
      var t := NextInputs(snap, level)[n - |src|];
      OverlappingMembers(snap[level + 1], HullLo(src), HullHi(src));
      assert t in NextInputs(snap, level);
      var o :| 0 <= o < |cur[level + 1]| && cur[level + 1][o] == t;
      HullOrdered(src);
      NextKeyApart(cur[level + 1], o, r, HullLo(src), HullHi(src), k);
    }
  }

  /** The next level: what stays plus the merged table, in order and disjoint. */
  lemma {:induction false} InstallTarget(cur: seq<seq<Table>>, snap: seq<seq<Table>>, level: nat, merged: Table)
    requires Ready(cur, snap, level, merged)
    ensures var target := Install(cur, snap, level, merged)[level + 1];
            && AllOk(target) && Disjoint(target) && NoTombstones(target)
            && (forall t :: t in target <==> t == merged || t in Rest(cur, snap, level))
  {
    hide Less, Sorted, TombstonesEmpty, HullLo, HullHi, Overlapping, IsMerge, DistinctIds, SortByLo, InsertByLo,
         Disjoint, Inputs, FitsInto;
    InstallLevels(cur, snap, level, merged);
    var rest := Rest(cur, snap, level);
    MergedFits(cur, snap, level, merged);
    SortInserts(rest, merged);
    InsertMembers(rest, merged);
    InsertDisjoint(rest, merged);
    var target := Install(cur, snap, level, merged)[level + 1];
    WithoutMembers(cur[level + 1], Ids(Inputs(snap, level)));
    forall i, r | 0 <= i < |target| && r in target[i].recs ensures r.entry.kind == PUT {
      assert target[i] in target;
      if target[i] != merged {
        assert target[i] in cur[level + 1];
        var j :| 0 <= j < |cur[level + 1]| && cur[level + 1][j] == target[i];
      }
    }
  }

  /** Where a table of the new levels comes from. */
  lemma {:induction false} InstallOrigin(cur: seq<seq<Table>>, snap: seq<seq<Table>>, level: nat, merged: Table, l: nat,
                                         i: nat)
    returns (j: nat)
    requires Ready(cur, snap, level, merged)
    requires l < |cur| && i < |Install(cur, snap, level, merged)[l]|
    requires |Install(cur, snap, level, merged)| == |cur|
    ensures (Install(cur, snap, level, merged)[l][i] == merged && l == level + 1)
            || (j < |cur[l]| && cur[l][j] == Install(cur, snap, level, merged)[l][i])
  {
    hide Less, Sorted, TombstonesEmpty, HullLo, HullHi, Overlapping, Inputs, DistinctIds, NoTombstones, IsMerge,
         SortByLo, Overlaps, Disjoint;
    InstallLevels(cur, snap, level, merged);
    var post: seq<seq<Table>> := Install(cur, snap, level, merged);
    j := 0;
    if l == level {
      j := i + |Sources(snap, level)|;
    } else if l == level + 1 {
      InstallTarget(cur, snap, level, merged);
      if post[l][i] != merged {
        assert post[l][i] in post[l];
        WithoutMembers(cur[l], Ids(Inputs(snap, level)));
        assert post[l][i] in cur[l];
        j :| 0 <= j < |cur[l]| && cur[l][j] == post[l][i];
      }
    } else {
      j := i;
    }
  }

  /** In a disjoint level no table occurs twice. */
  lemma {:induction false} DisjointUnique(ts: seq<Table>, i: nat, j: nat)
    requires AllOk(ts) && Disjoint(ts) && i < |ts| && j < |ts| && ts[i] == ts[j]
    ensures i == j
  {
    RangeOrdered(ts[i]);
  }

  lemma {:induction false} InstallDistinct(cur: seq<seq<Table>>, snap: seq<seq<Table>>, level: nat, merged: Table)
    requires Ready(cur, snap, level, merged)
    ensures DistinctIds(Install(cur, snap, level, merged))
  {
    hide Less, Sorted, TombstonesEmpty, HullLo, HullHi, Inputs, NoTombstones, IsMerge, Install, Disjoint, TableOk;
    var post: seq<seq<Table>> := Install(cur, snap, level, merged);
    InstallLevels(cur, snap, level, merged);
    InstallTarget(cur, snap, level, merged);
    forall l, i, m, j | 0 <= l < |post| && 0 <= i < |post[l]| && 0 <= m < |post| && 0 <= j < |post[m]|
                        && post[l][i].id == post[m][j].id
      ensures l == m && i == j
    {
      var a := InstallOrigin(cur, snap, level, merged, l, i);
      var b := InstallOrigin(cur, snap, level, merged, m, j);
      if l == level + 1 && m == level + 1 {
        if post[l][i] == post[m][j] { DisjointUnique(post[l], i, j); }
      }
    }
  }

  /** Every compaction keeps the levels sorted, disjoint and tombstone-free below level 0. */
  lemma {:induction false} InstallShaped(cur: seq<seq<Table>>, snap: seq<seq<Table>>, level: nat, merged: Table)
    requires Ready(cur, snap, level, merged)
    ensures Shaped(Install(cur, snap, level, merged))
  {
    hide Less, Sorted, TombstonesEmpty, HullLo, HullHi, Inputs, IsMerge, Install, TableOk, DistinctIds;
    var post: seq<seq<Table>> := Install(cur, snap, level, merged);
    InstallLevels(cur, snap, level, merged);
    InstallTarget(cur, snap, level, merged);
    InstallDistinct(cur, snap, level, merged);
    var n := |Sources(snap, level)|;
    assert forall i :: 0 <= i < |post[level]| ==> post[level][i] == cur[level][n + i];
    forall l | 0 <= l < |post| ensures AllOk(post[l]) && (l >= 1 ==> Disjoint(post[l]) && NoTombstones(post[l])) {
    }
  }

  // ---------- one key at a time ----------

  /** The newest entry of `k` among the source tables. */
  function SourceEntry(snap: seq<seq<Table>>, level: nat, k: Bytes): Option<Entry>
    requires LevelsOk(snap) && level < |snap| && snap[level] != []
  {
    Scan(Sources(snap, level), k, None)
  }

  /** What the merged table holds for a key, from the sources and the tables they overlap. */
  lemma {:induction false} MergedEntry(cur: seq<seq<Table>>, snap: seq<seq<Table>>, level: nat, merged: Table, k: Bytes)
    requires Ready(cur, snap, level, merged) && Recent(cur, k)
    ensures SourceEntry(snap, level, k).Some? ==> Find(merged.recs, k) == Strip(SourceEntry(snap, level, k))
    ensures SourceEntry(snap, level, k).None? && Find(merged.recs, k).Some? ==>
              Find(merged.recs, k) == Probe(cur[level + 1], k)
  {
    hide Less, Sorted, TombstonesEmpty, HullLo, HullHi, Overlapping, DistinctIds, Find, LowerBound;
    var src := Sources(snap, level);
    var inputs := Inputs(snap, level);
    var runs := Runs(inputs);
    assert forall i :: 0 <= i < |inputs| ==> runs[i] == inputs[i].recs;
    assert MergedRight(runs, merged.recs, k);
    ScanIsMax(src, k, None);
    var s := SourceEntry(snap, level, k);
    if s.Some? {
      var i :| 0 <= i < |src| && Find(src[i].recs, k) == s;
      assert Find(runs[i], k) == s;
      var e :| IsNewest(runs, k, e) && Find(merged.recs, k) == Strip(Some(e));
      NewestFromSources(cur, snap, level, k, i, e);
    } else if Holds(runs, k) {
      var e :| IsNewest(runs, k, e) && Find(merged.recs, k) == Strip(Some(e));
      NewestFromNext(cur, snap, level, k, e);
    }
  }

  /** A next-level table that overlaps the sources passes its entries on. */
  lemma {:induction false} OverlappedEntry(cur: seq<seq<Table>>, snap: seq<seq<Table>>, level: nat, merged: Table,
                                           k: Bytes, i: nat)
    requires Ready(cur, snap, level, merged) && Recent(cur, k)
    requires SourceEntry(snap, level, k).None?
    requires i < |cur[level + 1]| && Find(cur[level + 1][i].recs, k).Some?
    requires Overlaps(cur[level + 1][i], HullLo(Sources(snap, level)), HullHi(Sources(snap, level)))
    ensures Find(merged.recs, k) == Find(cur[level + 1][i].recs, k)
  {
    hide Less, Sorted, TombstonesEmpty, HullLo, HullHi, Overlapping, DistinctIds, Find, LowerBound, Recent, Disjoint,
         NoTombstones, IsNewest;
    var src := Sources(snap, level);
    var runs := Runs(Inputs(snap, level));
    OverlappingMembers(snap[level + 1], HullLo(src), HullHi(src));
    assert cur[level + 1][i] in NextInputs(snap, level);
    var n :| 0 <= n < |NextInputs(snap, level)| && NextInputs(snap, level)[n] == cur[level + 1][i];
    assert Find(runs[|src| + n], k).Some?;
    ProbeFinds(cur[level + 1], k, i);
    NextEntryKept(cur, snap, level, k, Probe(cur[level + 1], k).value);
    MergedEntry(cur, snap, level, merged, k);
    assert MergedRight(runs, merged.recs, k);
    var e :| IsNewest(runs, k, e) && Find(merged.recs, k) == Strip(Some(e));
    NewestFromNext(cur, snap, level, k, e);
  }

  /** When no source holds the key, the newest input entry is the next level's. */
  lemma {:induction false} NewestFromNext(cur: seq<seq<Table>>, snap: seq<seq<Table>>, level: nat, k: Bytes, e: Entry)
    requires Shaped(cur) && Grown(snap, cur) && LevelsOk(snap) && level + 1 < |snap| && snap[level] != []
    requires SourceEntry(snap, level, k).None? && IsNewest(Runs(Inputs(snap, level)), k, e)
    ensures Probe(cur[level + 1], k) == Some(e) && e.kind == PUT
  {
    var src := Sources(snap, level);
    var runs := Runs(Inputs(snap, level));
    ScanIsMax(src, k, None);
    var n :| 0 <= n < |runs| && Find(runs[n], k) == Some(e);
    assert n >= |src|;
    NextInputEntry(cur, snap, level, k, n - |src|);
    NextEntryKept(cur, snap, level, k, e);
  }

  /** Entries that reach the merged table from the next level are puts. */
  lemma {:induction false} NextEntryKept(cur: seq<seq<Table>>, snap: seq<seq<Table>>, level: nat, k: Bytes, e: Entry)
    requires Shaped(cur) && level + 1 < |cur| && Probe(cur[level + 1], k) == Some(e)
    ensures e.kind == PUT
  {
    var i := ProbeSound(cur[level + 1], k);
    var j := FindIndex(cur[level + 1][i].recs, k);
    assert cur[level + 1][i].recs[j] in cur[level + 1][i].recs;
  }

  lemma {:induction false} NextInputEntry(cur: seq<seq<Table>>, snap: seq<seq<Table>>, level: nat, k: Bytes, n: nat)
    requires Shaped(cur) && Grown(snap, cur) && LevelsOk(snap) && level + 1 < |snap| && snap[level] != []
    requires n < |NextInputs(snap, level)| && Find(NextInputs(snap, level)[n].recs, k).Some?
    ensures Probe(cur[level + 1], k) == Find(NextInputs(snap, level)[n].recs, k)
  {
    var src := Sources(snap, level);
    OverlappingMembers(snap[level + 1], HullLo(src), HullHi(src));
    var t := NextInputs(snap, level)[n];
    assert t in NextInputs(snap, level);
    var o :| 0 <= o < |cur[level + 1]| && cur[level + 1][o] == t;
    ProbeFinds(cur[level + 1], k, o);
  }

  /** When a source holds the key, the newest input entry is the newest source entry. */
  lemma {:induction false} NewestFromSources(cur: seq<seq<Table>>, snap: seq<seq<Table>>, level: nat, k: Bytes, i: nat,
                                             e: Entry)
    requires Shaped(cur) && Grown(snap, cur) && LevelsOk(snap) && level + 1 < |snap| && snap[level] != []
    requires Recent(cur, k)
    requires i < |Sources(snap, level)| && Find(Sources(snap, level)[i].recs, k) == SourceEntry(snap, level, k)
    requires SourceEntry(snap, level, k).Some?
    requires IsNewest(Runs(Inputs(snap, level)), k, e)
    ensures SourceEntry(snap, level, k) == Some(e)
  {
    hide Less, Sorted, TombstonesEmpty, HullLo, HullHi, Overlapping, DistinctIds, Find, LowerBound, Disjoint, Scan;
    var src := Sources(snap, level);
    var inputs := Inputs(snap, level);
    var runs := Runs(inputs);
    ScanIsMax(src, k, None);
    var n :| 0 <= n < |runs| && Find(runs[n], k) == Some(e);
    assert runs[i] == src[i].recs;
    if n < |src| {
      assert runs[n] == src[n].recs;
      if level == 0 {
        assert cur[0][n] == src[n] && cur[0][i] == src[i];
      }
    } else {
      assert runs[n] == NextInputs(snap, level)[n - |src|].recs;
      if level == 0 {
        assert cur[0][i] == src[i];
      } else {
        assert cur[level][0] == src[0];
        ProbeFinds(cur[level], k, 0);
      }
      NextInputEntry(cur, snap, level, k, n - |src|);
    }
  }

  /** The member of a level that holds a key is the one its probe reads. */
  lemma {:induction false} ProbeMember(ts: seq<Table>, t: Table, k: Bytes)
    requires AllOk(ts) && Disjoint(ts) && t in ts && Find(t.recs, k).Some?
    ensures Probe(ts, k) == Find(t.recs, k)
  {
    var i :| 0 <= i < |ts| && ts[i] == t;
    ProbeFinds(ts, k, i);
  }

  /** The next level's answer for a key after the installation. */
  lemma {:induction false} TargetProbe(cur: seq<seq<Table>>, snap: seq<seq<Table>>, level: nat, merged: Table, k: Bytes)
    requires Ready(cur, snap, level, merged) && Recent(cur, k)
    ensures AllOk(Install(cur, snap, level, merged)[level + 1])
    ensures var s := SourceEntry(snap, level, k);
            Probe(Install(cur, snap, level, merged)[level + 1], k)
            == Strip(if s.Some? then s else Probe(cur[level + 1], k))
  {
    hide Less, Sorted, TombstonesEmpty, HullLo, HullHi, Overlapping, DistinctIds, Find, LowerBound, Install, Scan,
         IsMerge, Inputs, Disjoint, NoTombstones, Probe, Overlaps;
    var src := Sources(snap, level);
    var lo, hi := HullLo(src), HullHi(src);
    var s := SourceEntry(snap, level, k);
    var next := cur[level + 1];
    InstallLevels(cur, snap, level, merged);
    var target: seq<Table> := Install(cur, snap, level, merged)[level + 1];
    var ids := Ids(Inputs(snap, level));
    InstallTarget(cur, snap, level, merged);
    MergedEntry(cur, snap, level, merged, k);
    WithoutMembers(next, ids);
    if s.Some? {
      ScanIsMax(src, k, None);
      var i :| 0 <= i < |src| && Find(src[i].recs, k) == s;
      if Probe(target, k).Some? {
        var m := ProbeSound(target, k);
        assert target[m] in target;
        if target[m] != merged {
          assert target[m] in next;
          var r :| 0 <= r < |next| && next[r] == target[m];
          HolderOverlaps(src, i, next[r], k);
          RemovedIds(cur, snap, level, level + 1, r);
        }
      }
      if Strip(s).Some? { ProbeMember(target, merged, k); }
    } else if Probe(next, k).Some? {
      NextEntryKept(cur, snap, level, k, Probe(next, k).value);
      var i := ProbeSound(next, k);
      RemovedIds(cur, snap, level, level + 1, i);
      if Overlaps(next[i], lo, hi) {
        OverlappedEntry(cur, snap, level, merged, k, i);
        ProbeMember(target, merged, k);
      } else {
        ProbeMember(target, next[i], k);
      }
    } else if Probe(target, k).Some? {
      var m := ProbeSound(target, k);
      assert target[m] in target;
      if target[m] != merged {
        assert target[m] in next;
        ProbeMember(next, target[m], k);
      }
    }
  }

  lemma {:induction false} ScanSingle(t: Table, k: Bytes)
    ensures Scan([t], k, None) == Find(t.recs, k)
  {
    assert [t][1..] == [];
  }

  /** A deeper source level's answer: the compacted table no longer speaks for the key. */
  lemma {:induction false} SourceProbe(cur: seq<seq<Table>>, snap: seq<seq<Table>>, level: nat, merged: Table, k: Bytes)
    requires Ready(cur, snap, level, merged) && level >= 1
    ensures AllOk(Install(cur, snap, level, merged)[level])
    ensures SourceEntry(snap, level, k).Some? ==> SourceEntry(snap, level, k) == Probe(cur[level], k)
    ensures Probe(Install(cur, snap, level, merged)[level], k)
            == if SourceEntry(snap, level, k).Some? then None else Probe(cur[level], k)
  {
    hide Less, Sorted, TombstonesEmpty, HullLo, HullHi, DistinctIds, Find, LowerBound, Install, IsMerge, Inputs,
         Probe;
    InstallLevels(cur, snap, level, merged);
    var post: seq<Table> := Install(cur, snap, level, merged)[level];
    var s := SourceEntry(snap, level, k);
    ScanSingle(cur[level][0], k);
    if s.Some? { ProbeFinds(cur[level], k, 0); }
    if Probe(post, k).Some? {
      var i := ProbeSound(post, k);
      ProbeFinds(cur[level], k, i + 1);
    } else if Probe(cur[level], k).Some? && s.None? {
      var i := ProbeSound(cur[level], k);
      assert post[i - 1] == cur[level][i];
      ProbeFinds(post, k, i - 1);
    }
  }

  /** The levels' newest entry, from level 0 down, split where a compaction works. */
  lemma {:induction false} FirstProbeSame(a: seq<seq<Table>>, b: seq<seq<Table>>, l: nat, k: Bytes)
    requires LevelsOk(a) && LevelsOk(b) && |a| == |b| && l <= |a|
    requires forall m :: l <= m < |a| ==> a[m] == b[m]
    ensures FirstProbe(a, l, k) == FirstProbe(b, l, k)
    decreases |a| - l
  {
    if l < |a| { FirstProbeSame(a, b, l + 1, k); }
  }

  /** The tables of level 0 that were flushed after the snapshot. */
  function Flushed(cur: seq<seq<Table>>, snap: seq<seq<Table>>): seq<Table>
    requires |snap| >= 1 && |cur| >= 1 && |snap[0]| <= |cur[0]|
  {
    cur[0][|snap[0]|..]
  }

  /**
   * The one way an L0 to L1 compaction changes an answer: the newest merged version of the key is a
   * tombstone, nothing newer was flushed meanwhile, and a table at level 2 or deeper holds the key.
   */
  predicate Resurrects(cur: seq<seq<Table>>, snap: seq<seq<Table>>, k: Bytes)
    requires LevelsOk(cur) && LevelsOk(snap) && |snap| >= 1 && |cur| >= 2 && |snap[0]| <= |cur[0]| && snap[0] != []
  {
    && SourceEntry(snap, 0, k).Some? && SourceEntry(snap, 0, k).value.kind == DELETE
    && Scan(Flushed(cur, snap), k, None).None?
    && FirstProbe(cur, 2, k).Some?
  }

  /** The newest entry after an L0 to L1 compaction, key by key. */
  lemma {:induction false} L0InstallNewest(cur: seq<seq<Table>>, snap: seq<seq<Table>>, merged: Table, k: Bytes)
    requires Ready(cur, snap, 0, merged) && Recent(cur, k)
    requires Shaped(Install(cur, snap, 0, merged))
    ensures var before, after := NewestInLevels(cur, k), NewestInLevels(Install(cur, snap, 0, merged), k);
            if SourceEntry(snap, 0, k).Some? && SourceEntry(snap, 0, k).value.kind == DELETE
               && Scan(Flushed(cur, snap), k, None).None?
            then before == SourceEntry(snap, 0, k) && after == FirstProbe(cur, 2, k)
            else after == before
  {
    hide Less, Sorted, TombstonesEmpty, HullLo, HullHi, DistinctIds, Find, Install, IsMerge, Inputs, Probe, Scan,
         Disjoint;
    InstallLevels(cur, snap, 0, merged);
    var post: seq<seq<Table>> := Install(cur, snap, 0, merged);
    TargetProbe(cur, snap, 0, merged, k);
    FirstProbeSame(cur, post, 2, k);
    var s := SourceEntry(snap, 0, k);
    var f := Scan(Flushed(cur, snap), k, None);
    assert cur[0] == snap[0] + Flushed(cur, snap);
    ScanSplit(snap[0], Flushed(cur, snap), k, None);
    ScanCandidate(Flushed(cur, snap), k, s);
    assert post[0] == Flushed(cur, snap);
    if s.Some? && f.Some? { FlushedNewer(cur, snap, k); }
    if s.None? && Probe(cur[1], k).Some? { NextEntryKept(cur, snap, 0, k, Probe(cur[1], k).value); }
  }

  lemma {:induction false} FlushedNewer(cur: seq<seq<Table>>, snap: seq<seq<Table>>, k: Bytes)
    requires LevelsOk(cur) && Grown(snap, cur) && Recent(cur, k)
    requires Scan(snap[0], k, None).Some? && Scan(Flushed(cur, snap), k, None).Some?
    ensures Scan(snap[0], k, None).value.seqNo < Scan(Flushed(cur, snap), k, None).value.seqNo
  {
    ScanIsMax(snap[0], k, None);
    ScanIsMax(Flushed(cur, snap), k, None);
    var i :| 0 <= i < |snap[0]| && Find(snap[0][i].recs, k) == Scan(snap[0], k, None);
    var j :| 0 <= j < |Flushed(cur, snap)| && Find(Flushed(cur, snap)[j].recs, k) == Scan(Flushed(cur, snap), k, None);
    assert cur[0][i] == snap[0][i] && cur[0][|snap[0]| + j] == Flushed(cur, snap)[j];
  }

  /**
   * An L0 to L1 compaction, however many flushes came between its snapshot and its installation,
   * loses no flushed table and answers every key as before if and only if it does not resurrect it.
   */
  lemma {:induction false} L0CompactionExact(cur: seq<seq<Table>>, snap: seq<seq<Table>>, merged: Table, k: Bytes)
    requires Ready(cur, snap, 0, merged) && Recent(cur, k)
    ensures var post := Install(cur, snap, 0, merged);
            && Shaped(post)
            && post[0] == Flushed(cur, snap)
            && (Strip(NewestInLevels(post, k)) == Strip(NewestInLevels(cur, k)) <==> !Resurrects(cur, snap, k))
  {
    hide Less, Sorted, TombstonesEmpty, HullLo, HullHi, DistinctIds, Find, Install, IsMerge, Inputs, Probe, Scan;
    InstallShaped(cur, snap, 0, merged);
    InstallLevels(cur, snap, 0, merged);
    L0InstallNewest(cur, snap, merged, k);
    if FirstProbe(cur, 2, k).Some? {
      var m := FirstProbeAt(cur, 2, k);
      NextEntryKept(cur, snap, m - 1, k, Probe(cur[m], k).value);
    }
  }

  /** A deeper compaction never changes the newest entry of any key. */
  lemma {:induction false} DeepCompactionKeepsLookups(cur: seq<seq<Table>>, snap: seq<seq<Table>>, level: nat,
                                                      merged: Table, k: Bytes)
    requires Ready(cur, snap, level, merged) && level >= 1 && Recent(cur, k)
    ensures Shaped(Install(cur, snap, level, merged))
    ensures NewestInLevels(Install(cur, snap, level, merged), k) == NewestInLevels(cur, k)
  {
    hide Less, Sorted, TombstonesEmpty, HullLo, HullHi, DistinctIds, Find, Install, IsMerge, Inputs, Probe, Scan,
         Disjoint, SourceEntry;
    InstallShaped(cur, snap, level, merged);
    InstallLevels(cur, snap, level, merged);
    var post: seq<seq<Table>> := Install(cur, snap, level, merged);
    TargetProbe(cur, snap, level, merged, k);
    SourceProbe(cur, snap, level, merged, k);
    if Probe(cur[level], k).Some? { NextEntryKept(cur, snap, level - 1, k, Probe(cur[level], k).value); }
    if Probe(cur[level + 1], k).Some? { NextEntryKept(cur, snap, level, k, Probe(cur[level + 1], k).value); }
    FirstProbeSame(cur, post, level + 2, k);
    assert FirstProbe(cur, level, k) == FirstProbe(post, level, k);
    FirstProbeAbove(cur, post, 1, level, k);
  }

  lemma {:induction false} FirstProbeAbove(a: seq<seq<Table>>, b: seq<seq<Table>>, l: nat, m: nat, k: Bytes)
    requires LevelsOk(a) && LevelsOk(b) && |a| == |b| && l <= m <= |a|
    requires forall n :: l <= n < m ==> a[n] == b[n]
    requires FirstProbe(a, m, k) == FirstProbe(b, m, k)
    ensures FirstProbe(a, l, k) == FirstProbe(b, l, k)
    decreases m - l
  {
    if l < m { FirstProbeAbove(a, b, l + 1, m, k); }
  }

  lemma {:induction false} L0InstallRecent(cur: seq<seq<Table>>, snap: seq<seq<Table>>, merged: Table, k: Bytes)
    requires Ready(cur, snap, 0, merged) && Recent(cur, k)
    requires Shaped(Install(cur, snap, 0, merged))
    ensures Recent(Install(cur, snap, 0, merged), k)
  {
    hide Less, Sorted, TombstonesEmpty, HullLo, HullHi, DistinctIds, Find, Install, IsMerge, Inputs, Probe, Scan,
         Disjoint, NoTombstones;
    InstallLevels(cur, snap, 0, merged);
    var post: seq<seq<Table>> := Install(cur, snap, 0, merged);
    TargetProbe(cur, snap, 0, merged, k);
    var n, s := |snap[0]|, SourceEntry(snap, 0, k);
    assert forall i :: 0 <= i < |post[0]| ==> post[0][i] == cur[0][n + i];
    if s.Some? {
      ScanIsMax(snap[0], k, None);
      var j :| 0 <= j < n && Find(snap[0][j].recs, k) == s;
      assert cur[0][j] == snap[0][j];
    }
  }

  lemma {:induction false} DeepInstallRecent(cur: seq<seq<Table>>, snap: seq<seq<Table>>, level: nat, merged: Table,
                                             k: Bytes)
    requires Ready(cur, snap, level, merged) && level >= 1 && Recent(cur, k)
    requires Shaped(Install(cur, snap, level, merged))
    ensures Recent(Install(cur, snap, level, merged), k)
  {
    hide Less, Sorted, TombstonesEmpty, HullLo, HullHi, DistinctIds, Find, Install, IsMerge, Inputs, Probe, Scan,
         Disjoint, NoTombstones, SourceEntry;
    InstallLevels(cur, snap, level, merged);
    TargetProbe(cur, snap, level, merged, k);
    SourceProbe(cur, snap, level, merged, k);
  }

  /** Recency of a key survives every compaction. */
  lemma {:induction false} InstallRecent(cur: seq<seq<Table>>, snap: seq<seq<Table>>, level: nat, merged: Table,
                                         k: Bytes)
    requires Ready(cur, snap, level, merged) && Recent(cur, k)
    requires Shaped(Install(cur, snap, level, merged))
    ensures Recent(Install(cur, snap, level, merged), k)
  {
    hide Ready, Recent, Shaped, Install;
    if level == 0 {
      L0InstallRecent(cur, snap, merged, k);
    } else {
      DeepInstallRecent(cur, snap, level, merged, k);
    }
  }
}
