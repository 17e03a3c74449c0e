/** `std::map<std::string, Entry>` as the strictly key-sorted sequence it iterates as. */
module SortedMap {
  import opened Types

  predicate Sorted(s: seq<Rec>) {
    forall i, j :: 0 <= i < j < |s| ==> Less(s[i].key, s[j].key)
  }

  /** A DELETE entry carries no value (engine/src/memtable.cpp:12). */
  predicate TombstonesEmpty(s: seq<Rec>) {
    forall i :: 0 <= i < |s| && s[i].entry.kind == DELETE ==> s[i].entry.value == []
  }

  /** `map::find`. */
  function Find(s: seq<Rec>, k: Bytes): Option<Entry> {
    if s == [] then None
    else if s[0].key == k then Some(s[0].entry)
    else Find(s[1..], k)
  }

  /** `map[k] = e`. */
  function Insert(s: seq<Rec>, k: Bytes, e: Entry): seq<Rec> {
    if s == [] then [Rec(k, e)]
    else if s[0].key == k then [Rec(k, e)] + s[1..]
    else if Less(k, s[0].key) then [Rec(k, e)] + s
    else [s[0]] + Insert(s[1..], k, e)
  }

  lemma {:induction false} FindAt(s: seq<Rec>, i: nat)
    requires Sorted(s) && i < |s|
    ensures Find(s, s[i].key) == Some(s[i].entry)
  {
    if i > 0 {
      LessIrreflexive(s[i].key);
      FindAt(s[1..], i - 1);
    }
  }

  /** The position behind a successful `find`. */
  lemma {:induction false} FindIndex(s: seq<Rec>, k: Bytes) returns (i: nat)
    requires Find(s, k).Some?
    ensures i < |s| && s[i].key == k && s[i].entry == Find(s, k).value
  {
    if s[0].key == k {
      i := 0;
    } else {
      i := FindIndex(s[1..], k);
      i := i + 1;
    }
  }

  /** A key that falls in the gap before position `p` is not bound. */
  lemma {:induction false} FindInGap(s: seq<Rec>, k: Bytes, p: nat)
    requires Sorted(s) && p <= |s|
    requires p > 0 ==> Less(s[p - 1].key, k)
    requires p < |s| ==> Less(k, s[p].key)
    ensures Find(s, k) == None
  {
    if Find(s, k).Some? {
      var i := FindIndex(s, k);
      LessIrreflexive(k);
      if i < p {
        if i < p - 1 { LessTransitive(s[i].key, s[p - 1].key, k); }
      } else {
        if p < i { LessTransitive(k, s[p].key, s[i].key); }
      }
    }
  }

  lemma {:induction false} FindAppend(s: seq<Rec>, r: Rec, k: Bytes)
    requires Sorted(s + [r])
    ensures Find(s + [r], k) == if k == r.key then Some(r.entry) else Find(s, k)
  {
    if s == [] {
      assert [r][1..] == [];
    } else {
      assert (s + [r])[1..] == s[1..] + [r];
      if k == r.key { LessIrreflexive(k); assert (s + [r])[|s|] == r; FindAt(s + [r], |s|); }
      else { FindAppend(s[1..], r, k); }
    }
  }

  /** Insertion binds `k`, leaves every other key alone and keeps the order. */
  lemma {:induction false} InsertFind(s: seq<Rec>, k: Bytes, e: Entry, j: Bytes)
    requires Sorted(s)
    ensures Find(Insert(s, k, e), j) == if j == k then Some(e) else Find(s, j)
  {
    if s == [] {
      assert [Rec(k, e)][1..] == [];
    } else if s[0].key == k {
      assert ([Rec(k, e)] + s[1..])[1..] == s[1..];
    } else if Less(k, s[0].key) {
      assert ([Rec(k, e)] + s)[1..] == s;
    } else {
      assert ([s[0]] + Insert(s[1..], k, e))[1..] == Insert(s[1..], k, e);
      InsertFind(s[1..], k, e, j);
    }
  }

  lemma {:induction false} InsertSorted(s: seq<Rec>, k: Bytes, e: Entry)
    requires Sorted(s)
    ensures Sorted(Insert(s, k, e))
    ensures forall r :: r in Insert(s, k, e) ==> r == Rec(k, e) || r in s
    ensures Insert(s, k, e) != []
  {
    if s != [] && s[0].key != k {
      if Less(k, s[0].key) {
        forall j | 0 < j < |s| ensures Less(k, s[j].key) { LessTransitive(k, s[0].key, s[j].key); }
      } else {
        InsertSorted(s[1..], k, e);
        LessTotal(k, s[0].key);
        var t := Insert(s[1..], k, e);
        forall j | 0 <= j < |t| ensures Less(s[0].key, t[j].key) {
          assert t[j] == Rec(k, e) || t[j] in s[1..];
        }
      }
    }
  }
}
