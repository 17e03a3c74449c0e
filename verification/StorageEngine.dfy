/**
 * The engine object (engine/src/engine.cpp): each method performs one event of CachedEngine on the
 * fields the program has.
 */
module StorageEngines {
  import opened Types
  import opened SortedMap
  import opened Merge
  import opened Levels
  import opened Compaction
  import opened EngineModel
  import opened EngineRuns
  import opened CachedEngine
  import opened Versions
  import Lru

  ghost predicate IdsUpTo(ts: seq<Table>, n: nat) {
    forall i :: 0 <= i < |ts| ==> ts[i].id <= n
  }

  lemma {:induction false} FreshNotFound(ts: seq<Table>, n: nat)
    requires IdsUpTo(ts, n)
    ensures FindById(ts, n + 1) == None
  {
    if ts != [] { FreshNotFound(ts[1..], n); }
  }

  lemma {:induction false} WithoutIdsUpTo(ts: seq<Table>, ids: set<nat>, n: nat)
    requires IdsUpTo(ts, n)
    ensures IdsUpTo(Without(ts, ids), n)
  {
    WithoutMembers(ts, ids);
    var w := Without(ts, ids);
    forall i | 0 <= i < |w| ensures w[i].id <= n { assert w[i] in w; }
  }

  lemma {:induction false} InsertAtEnd(s: seq<Rec>, r: Rec)
    requires Sorted(s + [r])
    ensures Insert(s, r.key, r.entry) == s + [r]
  {
    if s != [] {
      assert (s + [r])[0] == s[0] && (s + [r])[|s|] == r;
      LessAsymmetric(s[0].key, r.key);
      LessIrreflexive(r.key);
      assert (s + [r])[1..] == s[1..] + [r];
      InsertAtEnd(s[1..], r);
      assert s + [r] == [s[0]] + (s[1..] + [r]);
    }
  }

  // ---------- reading a version ----------

  /** Level 0 (engine/src/engine.cpp:178-188). */
  method ScanLevel0(v: TableVersion, k: Bytes, candidate: Option<Entry>) returns (c: Option<Entry>)
    requires v.Consistent() && |v.levels| >= 1
    ensures c == Scan(v.Tables()[0], k, candidate)
  {
    c := candidate;
    ghost var ts := v.Tables()[0];
    var metas := v.levels[0];
    for i := 0 to |metas|
      invariant Scan(ts, k, candidate) == Scan(ts[i..], k, c)
    {
      var sst := v.FindSSTableById(metas[i].id);
      assert sst == Some(ts[i]) && ts[i..][1..] == ts[i + 1..];
      if sst.Some? {
        var record := Find(sst.value.recs, k);
        if record.Some? && (c.None? || record.value.seqNo > c.value.seqNo) { c := record; }
      }
    }
  }

  /** A deeper level: `lower_bound`, then one table (engine/src/engine.cpp:190-197). */
  method ProbeLevel(v: TableVersion, l: nat, k: Bytes) returns (record: Option<Entry>)
    requires v.Consistent() && l < |v.levels|
    ensures record == Probe(v.Tables()[l], k)
  {
    ghost var ts := v.Tables()[l];
    var metas := v.levels[l];
    var i := 0;
    while i < |metas| && Less(metas[i].maxKey, k)
      invariant 0 <= i <= |metas|
      invariant LowerBound(ts, k) == i + LowerBound(ts[i..], k)
    {
      assert ts[i..][0] == ts[i] && ts[i..][1..] == ts[i + 1..];
      i := i + 1;
    }
    assert LowerBound(ts[i..], k) == 0 by {
      if i < |metas| { assert ts[i..][0] == ts[i]; }
    }
    record := None;
    if i < |metas| && !Less(k, metas[i].minKey) {
      var sst := v.FindSSTableById(metas[i].id);
      if sst.Some? { record := Find(sst.value.recs, k); }
    }
  }

  /** The level loop of `get` (engine/src/engine.cpp:171-209). */
  method SearchVersion(v: TableVersion, k: Bytes, candidate: Option<Entry>) returns (c: Option<Entry>)
    requires v.Consistent()
    ensures c == SearchFrom(v.Tables(), 0, k, candidate)
  {
    c := candidate;
    ghost var ts := v.Tables();
    var l := 0;
    while l < |v.levels|
      invariant 0 <= l <= |v.levels|
      invariant SearchFrom(ts, 0, k, candidate) == SearchFrom(ts, l, k, c)
    {
      if v.levels[l] != [] {
        if l == 0 {
          c := ScanLevel0(v, k, c);
        } else {
          var record := ProbeLevel(v, l, k);
          if record.Some? && (c.None? || record.value.seqNo > c.value.seqNo) { c := record; }
        }
        if c.Some? { return; }
      }
      l := l + 1;
    }
  }

  // ---------- picking compaction inputs ----------

  /** The key range of the tables behind `metas` (engine/src/engine.cpp:651-658). */
  method HullOf(v: TableVersion, metas: seq<Meta>) returns (lo: Bytes, hi: Bytes)
    requires metas != [] && Known(metas, v.sstables)
    ensures lo == HullLo(Resolve(metas, v.sstables)) && hi == HullHi(Resolve(metas, v.sstables))
  {
    ghost var ts := Resolve(metas, v.sstables);
    lo, hi := metas[0].minKey, metas[0].maxKey;
    for i := 1 to |metas|
      invariant lo == HullLo(ts[..i]) && hi == HullHi(ts[..i])
    {
      assert ts[..i + 1][..i] == ts[..i];
      if Less(metas[i].minKey, lo) { lo := metas[i].minKey; }
      if Less(hi, metas[i].maxKey) { hi := metas[i].maxKey; }
    }
    assert ts[..|ts|] == ts;
  }

  /** The tables of `metas`, with their ids. */
  method Fetch(v: TableVersion, metas: seq<Meta>) returns (ts: seq<Table>, ids: seq<nat>)
    requires Known(metas, v.sstables)
    ensures ts == Resolve(metas, v.sstables)
    ensures |ids| == |ts| && forall i :: 0 <= i < |ts| ==> ids[i] == ts[i].id
  {
    ts, ids := [], [];
    for n := 0 to |metas|
      invariant |ts| == |ids| == n
      invariant forall i :: 0 <= i < n ==> ts[i] == Resolve(metas, v.sstables)[i] && ids[i] == ts[i].id
    {
      var sst := v.FindSSTableById(metas[n].id);
      if sst.Some? { ts, ids := ts + [sst.value], ids + [metas[n].id]; }
    }
  }

  lemma {:induction false} OverlappingLast(ts: seq<Table>, t: Table, lo: Bytes, hi: Bytes)
    requires AllOk(ts) && TableOk(t)
    ensures Overlapping(ts + [t], lo, hi) == Overlapping(ts, lo, hi) + (if Overlaps(t, lo, hi) then [t] else [])
  {
    if ts == [] {
      assert [t][1..] == [];
    } else {
      assert (ts + [t])[1..] == ts[1..] + [t];
      OverlappingLast(ts[1..], t, lo, hi);
    }
  }

  /** The metadata of a level that overlaps a key range (engine/src/engine.cpp:673-681, 821-829). */
  method OverlappingMetas(v: TableVersion, metas: seq<Meta>, lo: Bytes, hi: Bytes) returns (found: seq<Meta>)
    requires Known(metas, v.sstables)
    ensures Known(found, v.sstables)
    ensures Resolve(found, v.sstables) == Overlapping(Resolve(metas, v.sstables), lo, hi)
  {
    found := [];
    ghost var ts := Resolve(metas, v.sstables);
    for n := 0 to |metas|
      invariant Known(found, v.sstables)
      invariant Resolve(found, v.sstables) == Overlapping(ts[..n], lo, hi)
    {
      assert ts[..n + 1] == ts[..n] + [ts[n]];
      OverlappingLast(ts[..n], ts[n], lo, hi);
      if !(Less(metas[n].maxKey, lo) || Less(hi, metas[n].minKey)) {
        ghost var before := Resolve(found, v.sstables);
        found := found + [metas[n]];
        assert Resolve(found, v.sstables) == before + [ts[n]];
      }
    }
    assert ts[..|metas|] == ts;
  }

  lemma {:induction false} IdsMatch(ids: seq<nat>, ts: seq<Table>)
    requires |ids| == |ts| && forall i :: 0 <= i < |ts| ==> ids[i] == ts[i].id
    ensures IdSet(ids) == Ids(ts)
  {
    forall id ensures id in IdSet(ids) <==> id in Ids(ts) {
      if id in IdSet(ids) { var i :| 0 <= i < |ids| && ids[i] == id; assert ts[i].id in Ids(ts); }
      if id in Ids(ts) { var i :| 0 <= i < |ts| && ts[i].id == id; assert ids[i] in IdSet(ids); }
    }
  }

  /** Everything a compaction reads from its snapshot: the tables to merge and the ids to remove. */
  method PickInputs(v: TableVersion, level: nat) returns (inputs: seq<Table>, ids: seq<nat>)
    requires v.Consistent() && level + 1 < |v.levels| && v.levels[level] != []
    ensures inputs == Inputs(v.Tables(), level)
    ensures IdSet(ids) == Ids(inputs)
  {
    hide IdSet, Ids, TableOk, HullLo, HullHi, Overlapping;
    var sources := if level == 0 then v.levels[0] else [v.levels[level][0]];
    assert Known(sources, v.sstables) && Resolve(sources, v.sstables) == Sources(v.Tables(), level);
    var src, srcIds := Fetch(v, sources);
    var lo, hi := HullOf(v, sources);
    var overlapping := OverlappingMetas(v, v.levels[level + 1], lo, hi);
    var next, nextIds := Fetch(v, overlapping);
    inputs, ids := src + next, srcIds + nextIds;
    IdsMatch(ids, inputs);
  }

  /** The entry-by-entry copy a rotation makes. */
  method CopyMap(m: seq<Rec>) returns (copy: seq<Rec>)
    requires Sorted(m) && TombstonesEmpty(m)
    ensures copy == m
  {
    copy := [];
    for i := 0 to |m|
      invariant copy == m[..i]
    {
      var r := m[i];
      var value := if r.entry.kind == PUT then r.entry.value else [];
      var e := Entry(value, r.entry.seqNo, r.entry.kind);
      assert e == r.entry && m[..i + 1] == m[..i] + [r];
      InsertAtEnd(copy, r);
      copy := Insert(copy, r.key, e);
    }
  }

  /** Picks and merges the inputs of a compaction. */
  method MergeInputs(v: TableVersion, level: nat) returns (inputs: seq<Table>, ids: seq<nat>, merged: seq<Rec>)
    requires v.Consistent() && level + 1 < |v.levels| && v.levels[level] != []
    ensures inputs == Inputs(v.Tables(), level) && IdSet(ids) == Ids(inputs)
    ensures MergesInto(Pending(level, v.Tables()), merged)
    ensures Sorted(merged) && TombstonesEmpty(merged)
  {
    inputs, ids := PickInputs(v, level);
    InputsOk(v.Tables(), level);
    merged := KWayMerge(Runs(inputs));
    MergeIsTable(Runs(inputs), merged);
  }

  class StorageEngine {
    var memtable: seq<Rec>
    var immutable: Option<seq<Rec>>
    var flushed: bool
    var current: TableVersion
    var seqNumber: nat
    var flushCounter: nat
    var compacting: TableVersion?
    var compactingLevel: nat
    const cache: Lru.LRUCache?
    ghost var hist: seq<Rec>

    ghost predicate Readable()
      reads this, current, compacting
    {
      current.Consistent() && (compacting != null ==> compacting.Consistent())
    }

    ghost function Capacity(): nat {
      if cache == null then 0 else cache.capacity
    }

    ghost function CacheModel(): Lru.Cache
      reads cache
    {
      if cache == null then Lru.EMPTY else cache.Model()
    }

    ghost predicate CacheOk()
      reads cache
    {
      cache != null ==> cache.Ok()
    }

    ghost function Model(): Cached
      requires Readable()
      reads this, current, compacting, cache
    {
      Cached(
        State(memtable, immutable, flushed, current.Tables(), seqNumber, flushCounter,
              if compacting == null then None else Some(Pending(compactingLevel, compacting.Tables())), hist),
        CacheModel())
    }

    ghost predicate Valid()
      reads this, current, compacting, cache
    {
      && Readable() && CacheOk()
      && IdsUpTo(current.sstables, flushCounter)
      && Transparent(Model(), Capacity())
    }

    /** A cache size of 0 means no cache. */
    constructor (cacheSize: nat)
      ensures Valid() && Model() == Cached(FRESH, Lru.EMPTY) && Capacity() == cacheSize
      ensures cache != null ==> fresh(cache)
    {
      memtable, immutable, flushed := [], None, false;
      current := new TableVersion.Initial();
      seqNumber, flushCounter, compacting, compactingLevel := 1, 0, null, 0;
      if cacheSize > 0 {
        var lru := new Lru.LRUCache(cacheSize);
        cache := lru;
      } else {
        cache := null;
      }
      hist := [];
      new;
      FreshInv();
    }

    /** One request of the writer loop (engine/src/engine.cpp:501-527). */
    method ApplyWrite(key: Bytes, value: Bytes, kind: EntryType)
      requires Valid()
      modifies this, cache
      ensures Valid() && Model() == After(old(Model()), Capacity(), Do(Write(key, value, kind)))
    {
      hide Transparent, Insert, Inv, Lru.Agree, KnownAll, ResolveAll, IdsUpTo;
      var a := Write(key, value, kind);
      assert Possible(Model(), Do(a)) by { Invariant(); }
      TransparentStep(Model(), Capacity(), Do(a));
      var e := EntryOf(a, seqNumber);
      memtable := Insert(memtable, key, e);
      hist := hist + [Rec(key, e)];
      seqNumber := seqNumber + 1;
      if cache != null { cache.InvalidateKey(key); }
    }

    lemma {:induction false} Invariant()
      requires Valid()
      ensures Inv(Model().base)
    {
    }

    lemma {:induction false} CacheRight(key: Bytes)
      requires Valid()
      ensures LevelsOk(Model().base.levels)
      ensures cache != null && key in cache.cache ==> Lookup(Model().base, key) == Some(cache.cache[key])
    {
    }

    lemma {:induction false} MemtablesOk()
      requires Valid()
      ensures Sorted(memtable) && TombstonesEmpty(memtable)
      ensures immutable.Some? ==> Sorted(immutable.value) && TombstonesEmpty(immutable.value)
      ensures |current.levels| >= 4
    {
      assert Structure(Model().base);
    }

    /** A `get` with no other step in between (engine/src/engine.cpp:145-222). */
    method Get(key: Bytes) returns (r: Option<Entry>)
      requires Valid()
      modifies cache
      ensures Valid() && Model() == After(old(Model()), Capacity(), Read(key))
      ensures LevelsOk(Model().base.levels) && r == Lookup(Model().base, key)
    {
      hide Transparent, SampledGet, Inv, Lru.Agree, KnownAll, ResolveAll, IdsUpTo, LevelsOk;
      Invariant();
      CacheRight(key);
      TransparentStep(Model(), Capacity(), Read(key));
      if cache != null {
        var cached := cache.Get(key);
        if cached.Some? { return cached; }
      }
      r := ReadStores(key);
      if r.Some? && cache != null { cache.Put(key, r.value); }
    }

    /** The read behind a cache miss (engine/src/engine.cpp:154-215). */
    method ReadStores(key: Bytes) returns (r: Option<Entry>)
      requires Readable()
      ensures r == SampledGet(memtable, immutable, current.Tables(), key)
    {
      hide SearchFrom, Find;
      var candidate := Find(memtable, key);
      if immutable.Some? {
        var record := Find(immutable.value, key);
        if record.Some? && (candidate.None? || record.value.seqNo > candidate.value.seqNo) { candidate := record; }
      }
      candidate := SearchVersion(current, key, candidate);
      r := if candidate.None? || candidate.value.kind == DELETE then None else candidate;
    }

    /** Rotation: the memtable becomes the immutable one (engine/src/engine.cpp:349-360). */
    method CheckFlush()
      requires Valid() && immutable.None?
      modifies this
      ensures Valid() && Model() == After(old(Model()), Capacity(), Do(Rotate))
    {
      hide Transparent, Inv, Sorted, TombstonesEmpty, Lru.Agree, KnownAll, ResolveAll, IdsUpTo;
      Invariant();
      MemtablesOk();
      TransparentStep(Model(), Capacity(), Do(Rotate));
      var copy := CopyMap(memtable);
      memtable := [];
      immutable, flushed := Some(copy), false;
    }

    /** The flush thread puts the immutable memtable's table into a new version (engine/src/engine.cpp:399-430). */
    method InstallFlush()
      requires Valid() && immutable.Some? && immutable.value != [] && !flushed
      modifies this, cache
      ensures Valid() && Model() == After(old(Model()), Capacity(), Do(FlushInstall))
    {
      hide Transparent, Inv, FindById, TombstonesEmpty, Sorted, Lru.Agree, KnownAll, ResolveAll;
      Invariant();
      MemtablesOk();
      TransparentStep(Model(), Capacity(), Do(FlushInstall));
      ghost var before := Model();
      FreshNotFound(current.sstables, flushCounter);
      flushCounter := flushCounter + 1;
      var snapshot := immutable.value;
      var table := Table(flushCounter, snapshot);
      var meta := Meta(flushCounter, snapshot[0].key, snapshot[|snapshot| - 1].key, 0);
      var version := new TableVersion.CopyFrom(current);
      version.AddSSTable(table, meta);
      current := version;
      flushed := true;
      if cache != null { cache.ClearAll(); }
      assert Model() == After(before, Capacity(), Do(FlushInstall));
    }

    /** The flush thread lets go of the immutable memtable (engine/src/engine.cpp:435). */
    method ReleaseImmutable()
      requires Valid() && immutable.Some? && (flushed || immutable.value == [])
      modifies this
      ensures Valid() && Model() == After(old(Model()), Capacity(), Do(DropImmutable))
    {
      hide Transparent, Inv, Lru.Agree, KnownAll, ResolveAll, IdsUpTo;
      Invariant();
      TransparentStep(Model(), Capacity(), Do(DropImmutable));
      immutable, flushed := None, false;
    }

    /** A compaction takes its snapshot, unless the level is empty (engine/src/engine.cpp:643-647, 798-805). */
    method StartCompaction(level: nat) returns (started: bool)
      requires Valid() && compacting == null && level < 3
      modifies this
      ensures Valid()
      ensures started <==> old(Model()).base.levels[level] != []
      ensures Model() == if started then After(old(Model()), Capacity(), Do(CompactStart(level))) else old(Model())
    {
      hide Transparent, Inv, Lru.Agree, IdsUpTo;
      Invariant();
      MemtablesOk();
      if current.levels[level] == [] { return false; }
      assert Enabled(Model().base, CompactStart(level));
      TransparentStep(Model(), Capacity(), Do(CompactStart(level)));
      compacting, compactingLevel := current, level;
      started := true;
    }

    /**
     * The rest of the compaction: merge, then copy, edit and install the version that is current by now
     * (engine/src/engine.cpp:651-795, 809-944). A merge that leaves nothing installs nothing.
     */
    method FinishCompaction() returns (ghost a: Action)
      requires Valid() && compacting != null
      modifies this, cache
      ensures Valid() && compacting == null
      ensures (a == CompactSkip || a.CompactInstall?) && Enabled(old(Model()).base, a)
      ensures Model() == After(old(Model()), Capacity(), Do(a))
    {
      hide Transparent, Inv, Inputs, Sorted, TombstonesEmpty, MergesInto, Install, Lru.Agree, KnownAll, ResolveAll,
           IdSet, Ids, IdsUpTo;
      Invariant();
      ghost var before := Model();
      var level := compactingLevel;
      CompactionShape();
      var inputs, ids, merged := MergeInputs(compacting, level);
      if merged == [] {
        a := CompactSkip;
        TransparentStep(before, Capacity(), Do(a));
        compacting := null;
      } else {
        a := CompactInstall(merged);
        TransparentStep(before, Capacity(), Do(a));
        InstallVersion(level, merged, inputs, ids);
      }
    }

    lemma {:induction false} CompactionShape()
      requires Valid() && compacting != null
      ensures compactingLevel + 1 < |compacting.levels| == |current.levels| && compacting.levels[compactingLevel] != []
    {
    }

    /** Copy, edit, install, and clear the cache. */
    method InstallVersion(level: nat, merged: seq<Rec>, inputs: seq<Table>, ids: seq<nat>)
      requires Readable() && CacheOk() && IdsUpTo(current.sstables, flushCounter)
      requires compacting != null && level == compactingLevel
      requires level + 1 < |compacting.levels| == |current.levels| && compacting.levels[level] != []
      requires inputs == Inputs(compacting.Tables(), level) && IdSet(ids) == Ids(inputs)
      requires TableOk(Table(flushCounter + 1, merged))
      modifies this, cache
      ensures Readable() && CacheOk() && IdsUpTo(current.sstables, flushCounter) && compacting == null
      ensures flushCounter == old(flushCounter) + 1
      ensures current.Tables()
              == Install(old(current.Tables()), old(compacting.Tables()), level, Table(flushCounter, merged))
      ensures unchanged(this`memtable, this`immutable, this`flushed, this`seqNumber, this`hist)
      ensures CacheModel() == Lru.EMPTY
    {
      hide Inputs, Sorted, TombstonesEmpty, FindById, SortByLo, Without, Lru.Agree, KnownAll, ResolveAll, IdSet, Ids,
           LevelsOk;
      flushCounter := flushCounter + 1;
      var table := Table(flushCounter, merged);
      var meta := Meta(flushCounter, merged[0].key, merged[|merged| - 1].key, level + 1);
      var version := new TableVersion.CopyFrom(current);
      version.RemoveSSTablesByIds(ids);
      WithoutIdsUpTo(current.sstables, Ids(inputs), flushCounter - 1);
      FreshNotFound(version.sstables, flushCounter - 1);
      version.AddSSTable(table, meta);
      version.SortLevel(level + 1);
      current := version;
      compacting := null;
      if cache != null { cache.ClearAll(); }
    }
  }

  lemma {:induction false} InputsOk(snap: seq<seq<Table>>, level: nat)
    requires LevelsOk(snap) && level + 1 < |snap| && snap[level] != []
    ensures AllOk(Inputs(snap, level)) && AllSorted(Runs(Inputs(snap, level)))
  {
    var src := Sources(snap, level);
    OverlappingMembers(snap[level + 1], HullLo(src), HullHi(src));
  }

  lemma {:induction false} MergeIsTable(runs: seq<seq<Rec>>, merged: seq<Rec>)
    requires IsMerge(runs, merged) && forall r :: r in merged ==> r.entry.kind == PUT
    ensures Sorted(merged) && TombstonesEmpty(merged)
  {
  }
}
