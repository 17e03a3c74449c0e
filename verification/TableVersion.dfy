/**
 * A version as the program stores it (engine/src/table_version.cpp): metadata per level beside one
 * list of tables, found by id. Resolving the metadata gives the levels of tables of module Levels.
 */
module Versions {
  import opened Types
  import opened SortedMap
  import opened Levels
  import opened Compaction

  datatype Meta = Meta(id: nat, minKey: Bytes, maxKey: Bytes, level: nat)

  /** `findSSTableById`: the first table with the id. */
  function FindById(ts: seq<Table>, id: nat): Option<Table> {
    if ts == [] then None else if ts[0].id == id then Some(ts[0]) else FindById(ts[1..], id)
  }

  lemma {:induction false} FindByIdExactly(ts: seq<Table>, id: nat)
    ensures var r := FindById(ts, id);
            if r.Some? then r.value in ts && r.value.id == id else forall t :: t in ts ==> t.id != id
  {
    if ts != [] {
      assert ts == [ts[0]] + ts[1..];
      FindByIdExactly(ts[1..], id);
    }
  }

  ghost predicate Describes(m: Meta, t: Table) {
    TableOk(t) && t.id == m.id && m.minKey == Lo(t) && m.maxKey == Hi(t)
  }

  /** Every metadata record has its table. */
  ghost predicate Known(ms: seq<Meta>, ts: seq<Table>) {
    forall i :: 0 <= i < |ms| ==> FindById(ts, ms[i].id).Some? && Describes(ms[i], FindById(ts, ms[i].id).value)
  }

  ghost function Resolve(ms: seq<Meta>, ts: seq<Table>): (r: seq<Table>)
    requires Known(ms, ts)
    ensures |r| == |ms| && AllOk(r)
  {
    seq(|ms|, i requires 0 <= i < |ms| => FindById(ts, ms[i].id).value)
  }

  ghost predicate KnownAll(levels: seq<seq<Meta>>, ts: seq<Table>) {
    forall l :: 0 <= l < |levels| ==> Known(levels[l], ts)
  }

  ghost function ResolveAll(levels: seq<seq<Meta>>, ts: seq<Table>): (r: seq<seq<Table>>)
    requires KnownAll(levels, ts)
    ensures |r| == |levels| && LevelsOk(r)
  {
    seq(|levels|, l requires 0 <= l < |levels| => Resolve(levels[l], ts))
  }

  // ---------- removal ----------

  function IdSet(ids: seq<nat>): set<nat> {
    set i | 0 <= i < |ids| :: ids[i]
  }

  function WithoutMetas(ms: seq<Meta>, ids: set<nat>): seq<Meta> {
    if ms == [] then [] else (if ms[0].id in ids then [] else [ms[0]]) + WithoutMetas(ms[1..], ids)
  }

  lemma {:induction false} FindWithout(ts: seq<Table>, ids: set<nat>, id: nat)
    requires id !in ids
    ensures FindById(Without(ts, ids), id) == FindById(ts, id)
  {
    if ts != [] {
      FindWithout(ts[1..], ids, id);
      assert ([ts[0]] + Without(ts[1..], ids))[1..] == Without(ts[1..], ids);
      assert [] + Without(ts[1..], ids) == Without(ts[1..], ids);
    }
  }

  lemma {:induction false} ResolveWithout(ms: seq<Meta>, ts: seq<Table>, ids: set<nat>)
    requires Known(ms, ts)
    ensures Known(WithoutMetas(ms, ids), Without(ts, ids))
    ensures Resolve(WithoutMetas(ms, ids), Without(ts, ids)) == Without(Resolve(ms, ts), ids)
  {
    hide TableOk, FindById, Without, Lo, Hi;
    if ms != [] {
      ResolveWithout(ms[1..], ts, ids);
      ResolveCons(ms, ts);
      WithoutCons(Resolve(ms, ts), ids);
      if ms[0].id !in ids {
        FindWithout(ts, ids, ms[0].id);
        var kept := [ms[0]] + WithoutMetas(ms[1..], ids);
        assert kept == WithoutMetas(ms, ids);
        assert kept[1..] == WithoutMetas(ms[1..], ids);
        assert Known(kept, Without(ts, ids));
        ResolveCons(kept, Without(ts, ids));
      } else {
        assert WithoutMetas(ms, ids) == WithoutMetas(ms[1..], ids);
      }
    } else {
      assert Resolve(ms, ts) == [] && Resolve(WithoutMetas(ms, ids), Without(ts, ids)) == [];
      WithoutNone([], ids);
    }
  }

  lemma {:induction false} ResolveCons(ms: seq<Meta>, ts: seq<Table>)
    requires Known(ms, ts) && ms != []
    ensures Resolve(ms, ts) == [FindById(ts, ms[0].id).value] + Resolve(ms[1..], ts)
  {
  }

  lemma {:induction false} WithoutCons(ts: seq<Table>, ids: set<nat>)
    requires ts != []
    ensures Without(ts, ids) == (if ts[0].id in ids then [] else [ts[0]]) + Without(ts[1..], ids)
  {
  }

  // ---------- addition ----------

  lemma {:induction false} FindAppended(ts: seq<Table>, t: Table, id: nat)
    ensures FindById(ts + [t], id)
            == if FindById(ts, id).Some? then FindById(ts, id) else if t.id == id then Some(t) else None
  {
    if ts == [] {
      assert [t][1..] == [];
    } else {
      assert (ts + [t])[1..] == ts[1..] + [t];
      FindAppended(ts[1..], t, id);
    }
  }

  lemma {:induction false} ResolveAppended(ms: seq<Meta>, ts: seq<Table>, t: Table)
    requires Known(ms, ts)
    ensures Known(ms, ts + [t]) && Resolve(ms, ts + [t]) == Resolve(ms, ts)
  {
    forall i | 0 <= i < |ms| ensures FindById(ts + [t], ms[i].id) == FindById(ts, ms[i].id) {
      FindAppended(ts, t, ms[i].id);
    }
  }

  /** `levels.resize(level + 1)` when the level is missing. */
  function Resized<T>(levels: seq<seq<T>>, level: nat): (r: seq<seq<T>>)
    ensures |r| > level && |r| >= |levels| && forall l :: 0 <= l < |levels| ==> r[l] == levels[l]
    ensures forall l :: |levels| <= l < |r| ==> r[l] == []
  {
    if level < |levels| then levels else levels + seq(level + 1 - |levels|, _ => [])
  }

  // ---------- sorting ----------

  function InsertMeta(ms: seq<Meta>, m: Meta): seq<Meta> {
    if ms == [] then [m]
    else if Less(m.minKey, ms[0].minKey) then [m] + ms
    else [ms[0]] + InsertMeta(ms[1..], m)
  }

  /** `std::sort` of a level by `minKey`. */
  function SortMetas(ms: seq<Meta>): seq<Meta> {
    if ms == [] then [] else InsertMeta(SortMetas(ms[..|ms| - 1]), ms[|ms| - 1])
  }

  lemma {:induction false} ResolveInsert(ms: seq<Meta>, m: Meta, ts: seq<Table>)
    requires Known(ms, ts) && FindById(ts, m.id).Some? && Describes(m, FindById(ts, m.id).value)
    ensures Known(InsertMeta(ms, m), ts)
    ensures Resolve(InsertMeta(ms, m), ts) == InsertByLo(Resolve(ms, ts), FindById(ts, m.id).value)
  {
    hide Sorted, TombstonesEmpty, Less, FindById;
    if ms != [] {
      ResolveInsert(ms[1..], m, ts);
      var r := Resolve(ms, ts);
      assert r[0] == FindById(ts, ms[0].id).value && r[1..] == Resolve(ms[1..], ts);
    }
  }

  lemma {:induction false} ResolveSort(ms: seq<Meta>, ts: seq<Table>)
    requires Known(ms, ts)
    ensures Known(SortMetas(ms), ts)
    ensures Resolve(SortMetas(ms), ts) == SortByLo(Resolve(ms, ts))
  {
    if ms != [] {
      var n := |ms| - 1;
      ResolveSort(ms[..n], ts);
      ResolveInsert(SortMetas(ms[..n]), ms[n], ts);
      assert Resolve(ms, ts)[..n] == Resolve(ms[..n], ts);
    }
  }

  class TableVersion {
    var levels: seq<seq<Meta>>
    var sstables: seq<Table>

    ghost predicate Consistent()
      reads this
    {
      KnownAll(levels, sstables)
    }

    /** The levels of tables the version stands for. */
    ghost function Tables(): (r: seq<seq<Table>>)
      requires Consistent()
      reads this
      ensures |r| == |levels| && LevelsOk(r)
    {
      ResolveAll(levels, sstables)
    }

    constructor Initial()
      ensures Consistent() && Tables() == [[], [], [], []] && sstables == []
    {
      levels, sstables := [[], [], [], []], [];
    }

    constructor CopyFrom(other: TableVersion)
      requires other.Consistent()
      ensures Consistent() && Tables() == other.Tables()
      ensures levels == other.levels && sstables == other.sstables
    {
      levels, sstables := other.levels, other.sstables;
    }

    method FindSSTableById(id: nat) returns (r: Option<Table>)
      ensures r == FindById(sstables, id)
    {
      var i := 0;
      while i < |sstables|
        invariant 0 <= i <= |sstables|
        invariant FindById(sstables, id) == FindById(sstables[i..], id)
      {
        if sstables[i].id == id { return Some(sstables[i]); }
        assert sstables[i..][1..] == sstables[i + 1..];
        i := i + 1;
      }
      r := None;
    }

    method AddSSTable(t: Table, meta: Meta)
      requires Consistent() && Describes(meta, t) && FindById(sstables, t.id).None?
      modifies this
      ensures Consistent()
      ensures Tables() == var ls := Resized(old(Tables()), meta.level); ls[meta.level := ls[meta.level] + [t]]
      ensures sstables == old(sstables) + [t]
    {
      FindAppended(sstables, t, meta.id);
      forall l | 0 <= l < |levels|
        ensures Known(levels[l], sstables + [t]) && Resolve(levels[l], sstables + [t]) == Resolve(levels[l], sstables)
      {
        ResolveAppended(levels[l], sstables, t);
      }
      sstables := sstables + [t];
      levels := Resized(levels, meta.level);
      ghost var mid := levels;
      levels := levels[meta.level := levels[meta.level] + [meta]];
      assert KnownAll(mid, sstables);
      assert Resolve(levels[meta.level], sstables) == Resolve(mid[meta.level], sstables) + [t];
    }

    method RemoveSSTablesByIds(ids: seq<nat>)
      requires Consistent()
      modifies this
      ensures Consistent() && Tables() == WithoutAll(old(Tables()), IdSet(ids))
      ensures sstables == Without(old(sstables), IdSet(ids))
    {
      var gone := IdSet(ids);
      forall l | 0 <= l < |levels|
        ensures Known(WithoutMetas(levels[l], gone), Without(sstables, gone))
        ensures Resolve(WithoutMetas(levels[l], gone), Without(sstables, gone))
                == Without(Resolve(levels[l], sstables), gone)
      {
        ResolveWithout(levels[l], sstables, gone);
      }
      sstables := Without(sstables, gone);
      var l := 0;
      while l < |levels|
        invariant 0 <= l <= |levels| == |old(levels)|
        invariant sstables == Without(old(sstables), gone)
        invariant forall m :: 0 <= m < l ==> levels[m] == WithoutMetas(old(levels)[m], gone)
        invariant forall m :: l <= m < |levels| ==> levels[m] == old(levels)[m]
      {
        levels := levels[l := WithoutMetas(levels[l], gone)];
        l := l + 1;
      }
    }

    method SortLevel(l: nat)
      requires Consistent() && l < |levels|
      modifies this
      ensures Consistent() && sstables == old(sstables)
      ensures Tables() == old(Tables())[l := SortByLo(old(Tables())[l])]
    {
      ResolveSort(levels[l], sstables);
      levels := levels[l := SortMetas(levels[l])];
    }
  }
}
