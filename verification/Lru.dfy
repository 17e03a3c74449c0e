/** The LRU cache (engine/src/lru_cache.cpp): a recency list and a map that must agree. */
module Lru {
  import opened Types

  /** `order` is `lru_list_`, most recent first; `entries` is `cache_`. */
  datatype Cache = Cache(order: seq<Bytes>, entries: map<Bytes, Entry>)

  const EMPTY := Cache([], map[])

  datatype Op = Get(key: Bytes) | Put(key: Bytes, entry: Entry) | Invalidate(key: Bytes) | Clear

  // ---------- the operations ----------

  /** `list::erase` of a key's node. */
  function Remove(s: seq<Bytes>, k: Bytes): seq<Bytes> {
    if s == [] then [] else if s[0] == k then Remove(s[1..], k) else [s[0]] + Remove(s[1..], k)
  }

  /** `list::splice` of a key's node to the front. */
  function ToFront(s: seq<Bytes>, k: Bytes): seq<Bytes> {
    [k] + Remove(s, k)
  }

  function Touch(c: Cache, k: Bytes): Cache {
    if k in c.entries then c.(order := ToFront(c.order, k)) else c
  }

  /** Drops the least recently used key. */
  function Evict(c: Cache): Cache
    requires c.order != []
  {
    var victim := c.order[|c.order| - 1];
    Cache(Remove(c.order, victim), c.entries - {victim})
  }

  function Store(c: Cache, capacity: nat, k: Bytes, e: Entry): Cache {
    if k in c.entries then Cache(ToFront(c.order, k), c.entries[k := e])
    else
      var room := if |c.entries| >= capacity && c.order != [] then Evict(c) else c;
      Cache([k] + room.order, room.entries[k := e])
  }

  function Forget(c: Cache, k: Bytes): Cache {
    if k in c.entries then Cache(Remove(c.order, k), c.entries - {k}) else c
  }

  function Apply(c: Cache, capacity: nat, op: Op): Cache {
    match op
    case Get(k) => Touch(c, k)
    case Put(k, e) => Store(c, capacity, k, e)
    case Invalidate(k) => Forget(c, k)
    case Clear => EMPTY
  }

  function Run(ops: seq<Op>, capacity: nat): Cache {
    if ops == [] then EMPTY else Apply(Run(ops[..|ops| - 1], capacity), capacity, ops[|ops| - 1])
  }

  // ---------- list and map agree ----------

  ghost predicate NoDup(s: seq<Bytes>) {
    forall i, j :: 0 <= i < j < |s| ==> s[i] != s[j]
  }

  ghost predicate Agree(c: Cache) {
    && NoDup(c.order)
    && (forall k :: k in c.order <==> k in c.entries)
    && |c.entries| == |c.order|
  }

  ghost predicate Valid(c: Cache, capacity: nat) {
    Agree(c) && |c.order| <= capacity
  }

  lemma {:induction false} RemoveMembers(s: seq<Bytes>, k: Bytes)
    ensures forall j :: j in Remove(s, k) <==> j in s && j != k
    ensures NoDup(s) ==> NoDup(Remove(s, k)) && |Remove(s, k)| == if k in s then |s| - 1 else |s|
    ensures k !in s ==> Remove(s, k) == s
  {
    if s != [] {
      assert s == [s[0]] + s[1..];
      RemoveMembers(s[1..], k);
      if NoDup(s) { assert s[0] !in s[1..]; }
    }
  }

  lemma {:induction false} ForgetAgrees(c: Cache, k: Bytes)
    requires Agree(c) && k in c.entries
    ensures Agree(Cache(Remove(c.order, k), c.entries - {k}))
  {
    RemoveMembers(c.order, k);
    assert (c.entries - {k}).Keys == c.entries.Keys - {k};
  }

  lemma {:induction false} FrontAgrees(c: Cache, k: Bytes, e: Entry)
    requires Agree(c) && k !in c.entries
    ensures Agree(Cache([k] + c.order, c.entries[k := e]))
  {
    assert c.entries[k := e].Keys == c.entries.Keys + {k};
  }

  lemma {:induction false} TouchAgrees(c: Cache, k: Bytes, e: Entry)
    requires Agree(c) && k in c.entries
    ensures Agree(Cache(ToFront(c.order, k), c.entries[k := e]))
    ensures |ToFront(c.order, k)| == |c.order|
  {
    hide Remove;
    RemoveMembers(c.order, k);
    assert c.entries[k := e].Keys == c.entries.Keys;
  }

  lemma {:induction false} StoreValid(c: Cache, capacity: nat, k: Bytes, e: Entry)
    requires capacity >= 1 && Valid(c, capacity)
    ensures Valid(Store(c, capacity, k, e), capacity)
  {
    hide Remove, NoDup;
    if k in c.entries {
      TouchAgrees(c, k, e);
    } else if |c.entries| >= capacity {
      var victim := c.order[|c.order| - 1];
      assert victim in c.order;
      ForgetAgrees(c, victim);
      RemoveMembers(c.order, victim);
      FrontAgrees(Evict(c), k, e);
    } else {
      FrontAgrees(c, k, e);
    }
  }

  lemma {:induction false} ApplyValid(c: Cache, capacity: nat, op: Op)
    requires (op.Put? ==> capacity >= 1) && Valid(c, capacity)
    ensures Valid(Apply(c, capacity, op), capacity)
  {
    hide Remove, Store;
    match op
    case Get(k) =>
      if k in c.entries {
        TouchAgrees(c, k, c.entries[k]);
        assert c.entries[k := c.entries[k]] == c.entries;
      }
    case Put(k, e) => StoreValid(c, capacity, k, e);
    case Invalidate(k) =>
      if k in c.entries { ForgetAgrees(c, k); RemoveMembers(c.order, k); }
    case Clear =>
  }

  // ---------- inclusion ----------

  /** The members of `s` that belong to `keep`, in order. */
  function Filter(s: seq<Bytes>, keep: set<Bytes>): seq<Bytes> {
    if s == [] then [] else (if s[0] in keep then [s[0]] else []) + Filter(s[1..], keep)
  }

  /**
   * The smaller cache is the larger one restricted to its own keys: the same recency order, the same
   * entries, and no more keys behind than the capacities differ.
   */
  ghost predicate Included(small: Cache, large: Cache, slack: nat) {
    && small.entries.Keys <= large.entries.Keys
    && (forall k :: k in small.entries ==> small.entries[k] == large.entries[k])
    && small.order == Filter(large.order, small.entries.Keys)
    && |large.order| <= |small.order| + slack
  }

  lemma {:induction false} FilterRemove(s: seq<Bytes>, k: Bytes, keep: set<Bytes>)
    ensures Filter(Remove(s, k), keep) == Remove(Filter(s, keep), k)
    ensures Filter(s, keep - {k}) == Remove(Filter(s, keep), k)
  {
    if s != [] {
      FilterRemove(s[1..], k, keep);
      var f := Filter(s[1..], keep);
      assert ([s[0]] + f)[1..] == f && [] + f == f;
      assert ([s[0]] + Remove(s[1..], k))[1..] == Remove(s[1..], k);
    }
  }

  lemma {:induction false} FilterExtra(s: seq<Bytes>, k: Bytes, keep: set<Bytes>)
    requires k !in s
    ensures Filter(s, keep + {k}) == Filter(s, keep)
  {
    if s != [] { FilterExtra(s[1..], k, keep); }
  }

  lemma {:induction false} FilterCons(k: Bytes, s: seq<Bytes>, keep: set<Bytes>)
    ensures Filter([k] + s, keep) == (if k in keep then [k] else []) + Filter(s, keep)
  {
    assert ([k] + s)[1..] == s;
  }

  lemma {:induction false} FilterMembers(s: seq<Bytes>, keep: set<Bytes>)
    ensures forall k :: k in Filter(s, keep) <==> k in s && k in keep
    ensures s != [] && s[|s| - 1] in keep ==>
              Filter(s, keep) != [] && Filter(s, keep)[|Filter(s, keep)| - 1] == s[|s| - 1]
  {
    if s != [] {
      assert s == [s[0]] + s[1..];
      FilterMembers(s[1..], keep);
      if |s| == 1 { assert s[1..] == []; }
    }
  }

  lemma {:induction false} TouchIncluded(small: Cache, large: Cache, slack: nat, k: Bytes)
    requires Agree(small) && Agree(large) && Included(small, large, slack)
    ensures Included(Touch(small, k), Touch(large, k), slack)
  {
    var keep := small.entries.Keys;
    RemoveMembers(small.order, k);
    RemoveMembers(large.order, k);
    if k in large.entries {
      FilterRemove(large.order, k, keep);
      FilterCons(k, Remove(large.order, k), keep);
    }
  }

  lemma {:induction false} ForgetIncluded(small: Cache, large: Cache, slack: nat, k: Bytes)
    requires Agree(small) && Agree(large) && Included(small, large, slack)
    ensures Included(Forget(small, k), Forget(large, k), slack)
  {
    hide Remove, Filter, NoDup, Agree;
    AgreeFacts(small, k);
    AgreeFacts(large, k);
    var keep := small.entries.Keys;
    RemoveMembers(small.order, k);
    RemoveMembers(large.order, k);
    FilterRemove(large.order, k, keep);
    if k in small.entries {
      assert (small.entries - {k}).Keys == keep - {k};
      FilterRemove(Remove(large.order, k), k, keep);
      RemoveMembers(Remove(small.order, k), k);
    }
  }

  /** The recency orders after an eviction from the small list, or from both. */
  lemma {:induction false} EvictOrder(small: seq<Bytes>, large: seq<Bytes>, keep: set<Bytes>, both: bool)
    requires NoDup(large) && small == Filter(large, keep) && small != []
    ensures large != []
    ensures var x, y := small[|small| - 1], large[|large| - 1];
            Remove(small, x) == Filter(if both then Remove(large, y) else large, keep - {x})
  {
    hide NoDup;
    FilterMembers(large, keep);
    var x := small[|small| - 1];
    var y := large[|large| - 1];
    FilterRemove(large, x, keep);
    if both {
      FilterRemove(large, y, keep - {x});
      RemoveMembers(small, x);
      RemoveMembers(Remove(small, x), y);
      assert y in large && x in small;
    }
  }

  /** Evicting from a full small cache, and from the large one only when it is full too. */
  lemma {:induction false} EvictIncluded(small: Cache, large: Cache, slack: nat, both: bool)
    requires Agree(small) && Agree(large) && Included(small, large, slack) && small.order != []
    requires !both ==> |large.order| < |small.order| + slack
    ensures large.order != []
    ensures Included(Evict(small), if both then Evict(large) else large, slack)
  {
    hide Remove, Filter, NoDup;
    EvictOrder(small.order, large.order, small.entries.Keys, both);
    var x, y := small.order[|small.order| - 1], large.order[|large.order| - 1];
    FilterMembers(large.order, small.entries.Keys);
    RemoveMembers(small.order, x);
    RemoveMembers(large.order, y);
    assert x in small.order && y in large.order;
    assert (small.entries - {x}).Keys == small.entries.Keys - {x};
  }

  /** The recency orders after inserting a key the small list lacks. */
  lemma {:induction false} InsertOrder(small: seq<Bytes>, large: seq<Bytes>, keep: set<Bytes>, k: Bytes)
    requires small == Filter(large, keep) && k !in small
    ensures [k] + small == Filter([k] + Remove(large, k), keep + {k})
  {
    RemoveMembers(large, k);
    RemoveMembers(small, k);
    FilterRemove(large, k, keep);
    FilterExtra(Remove(large, k), k, keep);
    FilterCons(k, Remove(large, k), keep + {k});
  }

  /** Inserting a key the small cache lacks. */
  lemma {:induction false} InsertIncluded(small: Cache, large: Cache, slack: nat, k: Bytes, e: Entry)
    requires Agree(small) && Agree(large) && Included(small, large, slack)
    requires k !in small.entries
    ensures Included(Cache([k] + small.order, small.entries[k := e]),
                     Cache([k] + Remove(large.order, k), large.entries[k := e]), slack)
  {
    hide Remove, Filter, NoDup, Agree;
    AgreeFacts(small, k);
    AgreeFacts(large, k);
    assert small.entries[k := e].Keys == small.entries.Keys + {k};
    RemoveMembers(large.order, k);
    InsertOrder(small.order, large.order, small.entries.Keys, k);
  }

  lemma {:induction false} UpdateIncluded(small: Cache, large: Cache, slack: nat, k: Bytes, e: Entry)
    requires Included(small, large, slack) && k in small.entries
    ensures Included(small.(entries := small.entries[k := e]), large.(entries := large.entries[k := e]), slack)
  {
    hide Filter;
    assert small.entries[k := e].Keys == small.entries.Keys;
  }

  /** Both caches miss and the small one is full. */
  lemma {:induction false} MissIncluded(small: Cache, large: Cache, slack: nat, both: bool, k: Bytes, e: Entry)
    requires Agree(small) && Agree(large) && Included(small, large, slack) && small.order != []
    requires !both ==> |large.order| < |small.order| + slack
    requires k !in large.entries && k !in small.entries
    ensures large.order != []
    ensures var s, l := Evict(small), if both then Evict(large) else large;
            Included(Cache([k] + s.order, s.entries[k := e]), Cache([k] + l.order, l.entries[k := e]), slack)
  {
    hide Remove, Filter, NoDup, Included;
    EvictIncluded(small, large, slack, both);
    var s, l := Evict(small), if both then Evict(large) else large;
    assert small.order[|small.order| - 1] in small.order && large.order[|large.order| - 1] in large.order;
    ForgetAgrees(small, small.order[|small.order| - 1]);
    ForgetAgrees(large, large.order[|large.order| - 1]);
    assert Agree(s) && Agree(l) && k !in l.order;
    RemoveMembers(l.order, k);
    InsertIncluded(s, l, slack, k, e);
  }

  lemma {:induction false} StoreIncluded(small: Cache, large: Cache, c: nat, d: nat, k: Bytes, e: Entry)
    requires 1 <= c <= d && Valid(small, c) && Valid(large, d) && Included(small, large, d - c)
    ensures Included(Store(small, c, k, e), Store(large, d, k, e), d - c)
  {
    hide Remove, Filter, NoDup, Evict;
    if k in small.entries {
      TouchIncluded(small, large, d - c, k);
      UpdateIncluded(Touch(small, k), Touch(large, k), d - c, k, e);
    } else if |small.entries| < c {
      RemoveMembers(large.order, k);
      InsertIncluded(small, large, d - c, k, e);
    } else if k in large.entries {
      StoreOverHit(small, large, d - c, k, e);
    } else {
      MissIncluded(small, large, d - c, |large.entries| >= d, k, e);
    }
  }

  lemma {:induction false} Reinserted(c: Cache, k: Bytes, e: Entry)
    ensures Cache([k] + Remove(Remove(c.order, k), k), (c.entries - {k})[k := e])
            == Cache(ToFront(c.order, k), c.entries[k := e])
  {
    RemoveMembers(c.order, k);
    RemoveMembers(Remove(c.order, k), k);
    assert (c.entries - {k})[k := e] == c.entries[k := e];
  }

  /** Taking a key only the large cache holds out of it. */
  lemma {:induction false} ForgetHit(small: Cache, large: Cache, slack: nat, k: Bytes)
    requires Agree(small) && Agree(large) && Included(small, large, slack)
    requires k !in small.entries && k in large.entries
    ensures Agree(Forget(large, k)) && Included(small, Forget(large, k), slack)
    ensures |Forget(large, k).order| < |small.order| + slack
  {
    ForgetIncluded(small, large, slack, k);
    ForgetAgrees(large, k);
    RemoveMembers(large.order, k);
  }

  lemma {:induction false} EvictAgrees(c: Cache)
    requires Agree(c) && c.order != []
    ensures Agree(Evict(c)) && Evict(c).entries.Keys <= c.entries.Keys
  {
    assert c.order[|c.order| - 1] in c.order;
    ForgetAgrees(c, c.order[|c.order| - 1]);
  }

  /** The large cache hits where the small, full one evicts. */
  lemma {:induction false} StoreOverHit(small: Cache, large: Cache, slack: nat, k: Bytes, e: Entry)
    requires Agree(small) && Agree(large) && Included(small, large, slack)
    requires k !in small.entries && k in large.entries && small.order != []
    ensures Included(Cache([k] + Evict(small).order, Evict(small).entries[k := e]),
                     Cache(ToFront(large.order, k), large.entries[k := e]), slack)
  {
    hide Remove, Agree, Included, Evict;
    ForgetHit(small, large, slack, k);
    EvictIncluded(small, Forget(large, k), slack, false);
    EvictAgrees(small);
    InsertIncluded(Evict(small), Forget(large, k), slack, k, e);
    Reinserted(large, k, e);
  }

  lemma {:induction false} RunValid(ops: seq<Op>, capacity: nat)
    requires capacity >= 1
    ensures Valid(Run(ops, capacity), capacity)
  {
    if ops != [] {
      RunValid(ops[..|ops| - 1], capacity);
      ApplyValid(Run(ops[..|ops| - 1], capacity), capacity, ops[|ops| - 1]);
    }
  }

  /** LRU inclusion: a larger cache under the same operations holds everything a smaller one does. */
  lemma {:induction false} RunIncluded(ops: seq<Op>, c: nat, d: nat)
    requires 1 <= c <= d
    ensures Included(Run(ops, c), Run(ops, d), d - c)
  {
    if ops != [] {
      var n := |ops| - 1;
      RunIncluded(ops[..n], c, d);
      RunValid(ops[..n], c);
      RunValid(ops[..n], d);
      var small, large := Run(ops[..n], c), Run(ops[..n], d);
      match ops[n]
      case Get(k) => TouchIncluded(small, large, d - c, k);
      case Put(k, e) => StoreIncluded(small, large, c, d, k, e);
      case Invalidate(k) => ForgetIncluded(small, large, d - c, k);
      case Clear =>
    }
  }

  // ---------- least recently used ----------

  predicate Uses(op: Op, k: Bytes) {
    (op.Get? || op.Put?) && op.key == k
  }

  /** When a key was last asked for or stored: the position of that operation, from 1. */
  function LastUse(ops: seq<Op>, k: Bytes): (n: nat)
    ensures n <= |ops|
  {
    if ops == [] then 0
    else if Uses(ops[|ops| - 1], k) then |ops|
    else LastUse(ops[..|ops| - 1], k)
  }

  /** The list is ordered by last use, latest first. */
  ghost predicate ByRecency(s: seq<Bytes>, ops: seq<Op>) {
    forall i, j :: 0 <= i < j < |s| ==> LastUse(ops, s[i]) > LastUse(ops, s[j])
  }

  lemma {:induction false} RemoveKeepsRecency(s: seq<Bytes>, k: Bytes, ops: seq<Op>)
    requires ByRecency(s, ops)
    ensures ByRecency(Remove(s, k), ops)
  {
    hide LastUse;
    if s != [] {
      RemoveKeepsRecency(s[1..], k, ops);
      RemoveMembers(s[1..], k);
      var rest := Remove(s[1..], k);
      forall j | 0 <= j < |rest| ensures LastUse(ops, s[0]) > LastUse(ops, rest[j]) {
        assert rest[j] in rest && rest[j] in s[1..];
      }
    }
  }

  /** An operation on `k` leaves the order of the other keys' last uses alone. */
  lemma {:induction false} RecencyWithout(s: seq<Bytes>, ops: seq<Op>, op: Op)
    requires ByRecency(s, ops) && (op.Clear? || op.Invalidate? || op.key !in s)
    ensures ByRecency(s, ops + [op])
  {
    assert (ops + [op])[..|ops|] == ops;
    assert forall i :: 0 <= i < |s| ==> s[i] in s && LastUse(ops + [op], s[i]) == LastUse(ops, s[i]);
  }

  lemma {:induction false} RecencyFront(s: seq<Bytes>, ops: seq<Op>, op: Op)
    requires ByRecency(s, ops) && (op.Get? || op.Put?) && op.key !in s
    ensures ByRecency([op.key] + s, ops + [op])
  {
    RecencyWithout(s, ops, op);
    assert (ops + [op])[..|ops|] == ops;
    var t := [op.key] + s;
    forall j | 0 < j < |t| ensures LastUse(ops + [op], t[0]) > LastUse(ops + [op], t[j]) {
      assert t[j] == s[j - 1] && t[j] in s;
    }
  }

  lemma {:induction false} ApplyRecency(c: Cache, capacity: nat, ops: seq<Op>, op: Op)
    requires Agree(c) && ByRecency(c.order, ops)
    ensures ByRecency(Apply(c, capacity, op).order, ops + [op])
  {
    hide Remove, ByRecency, NoDup;
    match op
    case Clear => assert ByRecency([], ops + [op]) by { RecencyOfNothing(ops + [op]); }
    case Invalidate(k) =>
      RemoveKeepsRecency(c.order, k, ops);
      RecencyWithout(if k in c.entries then Remove(c.order, k) else c.order, ops, op);
    case Get(k) =>
      RemoveMembers(c.order, k);
      RemoveKeepsRecency(c.order, k, ops);
      if k in c.entries { RecencyFront(Remove(c.order, k), ops, op); } else { RecencyWithout(c.order, ops, op); }
    case Put(k, e) =>
      RemoveMembers(c.order, k);
      RemoveKeepsRecency(c.order, k, ops);
      if k in c.entries {
        RecencyFront(Remove(c.order, k), ops, op);
      } else if |c.entries| >= capacity && c.order != [] {
        var victim := c.order[|c.order| - 1];
        RemoveMembers(c.order, victim);
        RemoveKeepsRecency(c.order, victim, ops);
        RecencyFront(Remove(c.order, victim), ops, op);
      } else {
        RecencyFront(c.order, ops, op);
      }
  }

  lemma {:induction false} RecencyOfNothing(ops: seq<Op>)
    ensures ByRecency([], ops)
  {
  }

  /** After any operations the list is in order of last use, so what is evicted is the least recently used key. */
  lemma {:induction false} RunRecency(ops: seq<Op>, capacity: nat)
    requires capacity >= 1
    ensures ByRecency(Run(ops, capacity).order, ops)
  {
    if ops != [] {
      var n := |ops| - 1;
      RunRecency(ops[..n], capacity);
      RunValid(ops[..n], capacity);
      ApplyRecency(Run(ops[..n], capacity), capacity, ops[..n], ops[n]);
      assert ops == ops[..n] + [ops[n]];
    }
  }

  /** The entry last put under a key. */
  function LastPut(ops: seq<Op>, k: Bytes): Option<Entry> {
    if ops == [] then None
    else if ops[|ops| - 1].Put? && ops[|ops| - 1].key == k then Some(ops[|ops| - 1].entry)
    else LastPut(ops[..|ops| - 1], k)
  }

  /** A cached entry is always the one last put under its key. */
  lemma {:induction false} RunEntries(ops: seq<Op>, capacity: nat, k: Bytes)
    requires k in Run(ops, capacity).entries
    ensures LastPut(ops, k) == Some(Run(ops, capacity).entries[k])
  {
    hide Remove;
    if ops != [] {
      var n := |ops| - 1;
      if !(ops[n].Put? && ops[n].key == k) { RunEntries(ops[..n], capacity, k); }
    }
  }

  // ---------- the cache object ----------

  // ---------- what each operation does to the contents ----------

  /** The least recently used key of the cache. */
  ghost predicate LeastRecent(ops: seq<Op>, c: Cache, v: Bytes) {
    v in c.entries && forall j :: j in c.entries && j != v ==> LastUse(ops, v) < LastUse(ops, j)
  }

  lemma {:induction false} LastIsLeastRecent(ops: seq<Op>, capacity: nat)
    requires capacity >= 1 && Run(ops, capacity).order != []
    ensures var c := Run(ops, capacity); LeastRecent(ops, c, c.order[|c.order| - 1])
  {
    hide LastUse;
    var c := Run(ops, capacity);
    RunValid(ops, capacity);
    RunRecency(ops, capacity);
    var n := |c.order| - 1;
    forall j | j in c.entries && j != c.order[n] ensures LastUse(ops, c.order[n]) < LastUse(ops, j) {
      var i :| 0 <= i < |c.order| && c.order[i] == j;
    }
  }

  lemma {:induction false} StoreContents(c: Cache, capacity: nat, k: Bytes, e: Entry)
    requires capacity >= 1 && Valid(c, capacity)
    ensures if k in c.entries || |c.entries| < capacity then Store(c, capacity, k, e).entries == c.entries[k := e]
            else c.order != []
                 && Store(c, capacity, k, e).entries == (c.entries - {c.order[|c.order| - 1]})[k := e]
  {
    hide Remove, NoDup;
  }

  ghost predicate EvictsLeast(ops: seq<Op>, c: Cache, k: Bytes, e: Entry, after: map<Bytes, Entry>) {
    exists v :: LeastRecent(ops, c, v) && after == (c.entries - {v})[k := e]
  }

  /**
   * The contents after one more operation: a lookup changes none; a stored key is there with its entry,
   * and only if it is new and the cache full does another go, the least recently used one; an invalidated
   * key is gone; clearing leaves nothing.
   */
  lemma {:induction false} ContentsAfter(ops: seq<Op>, op: Op, capacity: nat)
    requires capacity >= 1
    ensures var c, d := Run(ops, capacity), Run(ops + [op], capacity);
            match op
            case Get(_) => d.entries == c.entries
            case Put(k, e) =>
              if k in c.entries || |c.entries| < capacity then d.entries == c.entries[k := e]
              else EvictsLeast(ops, c, k, e, d.entries)
            case Invalidate(k) => d.entries == c.entries - {k}
            case Clear => d.entries == map[]
  {
    hide LeastRecent, Remove, Store, Valid, Run;
    var c := Run(ops, capacity);
    RunStep(ops, op, capacity);
    RunValid(ops, capacity);
    if op.Put? {
      StoreContents(c, capacity, op.key, op.entry);
      if op.key !in c.entries && |c.entries| >= capacity {
        LastIsLeastRecent(ops, capacity);
        assert LeastRecent(ops, c, c.order[|c.order| - 1]);
      }
    }
  }

  lemma {:induction false} RunStep(ops: seq<Op>, op: Op, capacity: nat)
    ensures Run(ops + [op], capacity) == Apply(Run(ops, capacity), capacity, op)
  {
    hide Apply;
    assert (ops + [op])[..|ops|] == ops;
  }

  lemma {:induction false} RemoveLast(s: seq<Bytes>)
    requires NoDup(s) && s != []
    ensures Remove(s, s[|s| - 1]) == s[..|s| - 1]
  {
    if |s| > 1 {
      RemoveLast(s[1..]);
      assert s[0] != s[|s| - 1];
      assert s[..|s| - 1] == [s[0]] + s[1..][..|s| - 2];
    } else {
      assert s[1..] == [];
    }
  }

  lemma {:induction false} RemoveSplit(a: seq<Bytes>, b: seq<Bytes>, k: Bytes)
    ensures Remove(a + b, k) == Remove(a, k) + Remove(b, k)
  {
    if a == [] {
      assert a + b == b;
    } else {
      assert (a + b)[1..] == a[1..] + b;
      RemoveSplit(a[1..], b, k);
    }
  }

  lemma {:induction false} AgreeFacts(c: Cache, k: Bytes)
    requires Agree(c)
    ensures NoDup(c.order) && (k in c.order <==> k in c.entries) && |c.entries| == |c.order|
  {
  }

  class LRUCache {
    const capacity: nat
    var lruList: seq<Bytes>
    var cache: map<Bytes, Entry>

    ghost function Model(): Cache
      reads this
    {
      Cache(lruList, cache)
    }

    ghost predicate Ok()
      reads this
    {
      capacity >= 1 && Valid(Model(), capacity)
    }

    constructor (capacity: nat)
      requires capacity >= 1
      ensures Ok() && Model() == EMPTY && this.capacity == capacity
    {
      this.capacity := capacity;
      lruList, cache := [], map[];
    }

    /** Unlinks the key's node. */
    method Unlink(key: Bytes)
      requires NoDup(lruList) && key in lruList
      modifies this`lruList
      ensures lruList == Remove(old(lruList), key)
    {
      var i := 0;
      while lruList[i] != key
        invariant 0 <= i < |lruList| && key !in lruList[..i] && key in lruList
        decreases |lruList| - i
      {
        i := i + 1;
      }
      ghost var rest := lruList[i + 1..];
      assert lruList == lruList[..i] + ([key] + rest);
      RemoveSplit(lruList[..i], [key] + rest, key);
      RemoveMembers(lruList[..i], key);
      assert ([key] + rest)[1..] == rest;
      RemoveMembers(rest, key);
      lruList := lruList[..i] + lruList[i + 1..];
    }

    method Get(key: Bytes) returns (r: Option<Entry>)
      requires Ok()
      modifies this
      ensures Ok() && Model() == Touch(old(Model()), key)
      ensures r == if key in old(cache) then Some(old(cache)[key]) else None
    {
      ApplyValid(Model(), capacity, Op.Get(key));
      if key !in cache { return None; }
      Unlink(key);
      lruList := [key] + lruList;
      r := Some(cache[key]);
    }

    method Put(key: Bytes, entry: Entry)
      requires Ok()
      modifies this
      ensures Ok() && Model() == Store(old(Model()), capacity, key, entry)
    {
      hide Agree, NoDup, Remove;
      AgreeFacts(Model(), key);
      StoreValid(Model(), capacity, key, entry);
      if key in cache {
        cache := cache[key := entry];
        Unlink(key);
        lruList := [key] + lruList;
        return;
      }
      if |cache| >= capacity {
        RemoveLast(lruList);
        cache := cache - {lruList[|lruList| - 1]};
        lruList := lruList[..|lruList| - 1];
      }
      lruList := [key] + lruList;
      cache := cache[key := entry];
    }

    method ClearAll()
      requires Ok()
      modifies this
      ensures Ok() && Model() == EMPTY
    {
      cache, lruList := map[], [];
    }

    method InvalidateKey(key: Bytes)
      requires Ok()
      modifies this
      ensures Ok() && Model() == Forget(old(Model()), key)
    {
      ApplyValid(Model(), capacity, Op.Invalidate(key));
      if key in cache {
        Unlink(key);
        cache := cache - {key};
      }
    }
  }
}
