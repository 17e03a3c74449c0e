/** The engine behind its LRU cache, with whole operations as steps. */
module CachedEngine {
  import opened Types
  import opened SortedMap
  import opened Levels
  import opened EngineModel
  import opened EngineProof
  import opened EngineRuns
  import Lru

  datatype Cached = Cached(base: State, cache: Lru.Cache)

  datatype Event = Do(action: Action) | Read(key: Bytes)

  ghost predicate Possible(c: Cached, ev: Event) {
    Inv(c.base) && (ev.Do? ==> Enabled(c.base, ev.action))
  }

  /**
   * Who touches the cache: writes invalidate, installed versions clear, reads fill. Capacity 0 is an
   * engine without a cache (engine/src/engine.cpp:5-7).
   */
  ghost function After(c: Cached, capacity: nat, ev: Event): Cached
    requires Possible(c, ev)
  {
    match ev
    case Do(a) =>
      Cached(Next(c.base, a),
             if a.Write? then Lru.Forget(c.cache, a.key)
             else if a.FlushInstall? || a.CompactInstall? then Lru.EMPTY
             else c.cache)
    case Read(k) =>
      if k in c.cache.entries then c.(cache := Lru.Touch(c.cache, k))
      else
        var r := Lookup(c.base, k);
        if r.Some? && capacity > 0 then c.(cache := Lru.Store(c.cache, capacity, k, r.value)) else c
  }

  /** `get` with the cache in front (engine/src/engine.cpp:146-152, 211-221). */
  function CachedGet(c: Cached, k: Bytes): Option<Entry>
    requires LevelsOk(c.base.levels)
  {
    if k in c.cache.entries then Some(c.cache.entries[k]) else Lookup(c.base, k)
  }

  /** Every cached entry is what the stores would answer. */
  ghost predicate Transparent(c: Cached, capacity: nat) {
    && Inv(c.base) && Lru.Valid(c.cache, capacity)
    && forall k :: k in c.cache.entries ==> Lookup(c.base, k) == Some(c.cache.entries[k])
  }

  /** A step that leaves the cache alone does not change the answer for a stored put. */
  lemma {:induction false} QuietStep(s: State, a: Action, k: Bytes)
    requires Inv(s) && Enabled(s, a) && Inv(Next(s, a))
    requires !a.FlushInstall? && !a.CompactInstall? && !(a.Write? && a.key == k)
    requires Lookup(s, k).Some?
    ensures Lookup(Next(s, a), k) == Lookup(s, k)
  {
    hide Less, Sorted, DistinctIds, Disjoint, NoTombstones, TombstonesEmpty, Recorded, Recent, NewestInLevels,
         Insert, Lookup;
    assert Recency(s, k) && Recency(Next(s, a), k);
    LookupIsNewest(s, k);
    LookupIsNewest(Next(s, a), k);
    if a.Write? { WriteRecency(s, a, k); }
  }

  lemma {:induction false} TransparentStep(c: Cached, capacity: nat, ev: Event)
    requires Transparent(c, capacity) && Possible(c, ev)
    ensures Transparent(After(c, capacity, ev), capacity)
  {
    hide Enabled, Next, Lookup, Lru.Agree, Recency, MapOk, TablesRecorded, Disjoint, NoTombstones, DistinctIds;
    var d := After(c, capacity, ev);
    match ev
    case Do(a) =>
      InvStep(c.base, a);
      if a.Write? { Lru.ApplyValid(c.cache, capacity, Lru.Invalidate(a.key)); }
      if a.FlushInstall? || a.CompactInstall? { Lru.ApplyValid(c.cache, capacity, Lru.Clear); }
      forall k | k in d.cache.entries ensures Lookup(d.base, k) == Some(d.cache.entries[k]) {
        QuietStep(c.base, a, k);
      }
    case Read(k) =>
      Lru.ApplyValid(c.cache, capacity, Lru.Get(k));
      var r := Lookup(c.base, k);
      if r.Some? && capacity > 0 { Lru.ApplyValid(c.cache, capacity, Lru.Put(k, r.value)); }
  }

  ghost predicate IsCachedRun(run: seq<Cached>, capacity: nat) {
    && run != [] && run[0] == Cached(FRESH, Lru.EMPTY)
    && forall i :: 0 <= i < |run| - 1 ==> CachedStep(run[i], capacity, run[i + 1])
  }

  ghost predicate CachedStep(c: Cached, capacity: nat, d: Cached) {
    exists ev :: Possible(c, ev) && d == After(c, capacity, ev)
  }

  lemma {:induction false} RunTransparent(run: seq<Cached>, capacity: nat, i: nat)
    requires IsCachedRun(run, capacity) && i < |run|
    ensures Transparent(run[i], capacity)
  {
    if i == 0 {
      FreshInv();
    } else {
      RunTransparent(run, capacity, i - 1);
      assert CachedStep(run[i - 1], capacity, run[i]);
      var ev :| Possible(run[i - 1], ev) && run[i] == After(run[i - 1], capacity, ev);
      TransparentStep(run[i - 1], capacity, ev);
    }
  }

  /** In every reachable state, for every capacity, the cached `get` answers exactly as the uncached one would. */
  lemma {:induction false} CacheIsTransparent(run: seq<Cached>, capacity: nat, i: nat, k: Bytes)
    requires IsCachedRun(run, capacity) && i < |run|
    ensures LevelsOk(run[i].base.levels) && CachedGet(run[i], k) == Lookup(run[i].base, k)
    ensures k in run[i].cache.entries ==> run[i].cache.entries[k].kind == PUT
  {
    RunTransparent(run, capacity, i);
  }

  /** A successful read leaves its answer in front of the cache. */
  lemma {:induction false} ReadFillsCache(c: Cached, capacity: nat, k: Bytes)
    requires capacity >= 1 && Transparent(c, capacity) && Lookup(c.base, k).Some?
    ensures var d := After(c, capacity, Read(k));
            && d.base == c.base && d.cache.order != [] && d.cache.order[0] == k
            && k in d.cache.entries && Some(d.cache.entries[k]) == Lookup(c.base, k)
  {
    hide Inv, Lookup, Lru.Remove, Lru.Agree;
  }

  /** What the events do to the cached entries. */
  lemma {:induction false} CacheAfter(c: Cached, capacity: nat, ev: Event)
    requires Transparent(c, capacity) && Possible(c, ev)
    ensures var d := After(c, capacity, ev);
            match ev
            case Do(Write(k, _, _)) => d.cache.entries == c.cache.entries - {k}
            case Do(FlushInstall) => d.cache.entries == map[] && d.cache.order == []
            case Do(CompactInstall(_)) => d.cache.entries == map[] && d.cache.order == []
            case Do(_) => d.cache == c.cache
            case Read(k) => d.base == c.base && (Lookup(c.base, k).None? || capacity == 0 ==> d.cache == c.cache)
  {
    hide Inv, Lookup, Lru.Remove, Lru.Agree, Next, Enabled;
    if ev.Read? && capacity == 0 { NothingCached(c); }
  }

  lemma {:induction false} NothingCached(c: Cached)
    requires Transparent(c, 0)
    ensures c.cache.entries == map[] && c.cache.order == []
  {
    hide Inv, Lookup;
    assert forall k :: k in c.cache.entries ==> k in c.cache.order;
  }
}
