/** Point reads, the iterator and reopening agree with the snapshot a table was made from. */
module SSTableProof {
  import opened Types
  import opened SortedMap
  import opened Encoding
  import opened Bloom
  import opened SSTables

  // ---------- one record ----------

  /** Bytes of a known text at a known place. */
  lemma {:induction false} SliceOf(before: Bytes, text: Bytes, file: Bytes)
    requires before + text <= file
    ensures file[|before|..|before| + |text|] == text
  {
    var front := before + text;
    forall i | 0 <= i < |text| ensures file[|before| + i] == text[i] { assert front[|before| + i] == text[i]; }
  }

  lemma {:induction false} HeadFields(before: Bytes, r: Rec, file: Bytes)
    requires FitsRec(r) && before + Head(r) <= file
    ensures var p := |before|;
            && FromLE(file[p..p + 8]) == r.entry.seqNo && file[p + 8] == TypeByte(r.entry.kind)
            && FromLE(file[p + 9..p + 13]) == |r.key| && FromLE(file[p + 13..p + 17]) == |r.entry.value|
  {
    hide ToLE, FromLE;
    var p := |before|;
    var a, b, c, d := ToLE(r.entry.seqNo, 8), [TypeByte(r.entry.kind)], ToLE(|r.key|, 4), ToLE(|r.entry.value|, 4);
    assert Head(r) == a + b + c + d;
    SliceOf(before, Head(r), file);
    var head := file[p..p + 17];
    assert file[p..p + 8] == head[..8] == a;
    assert file[p + 8] == head[8];
    assert file[p + 9..p + 13] == head[9..13] == c;
    assert file[p + 13..p + 17] == head[13..17] == d;
    U64RoundTrip(r.entry.seqNo);
    U32RoundTrip(|r.key|);
    U32RoundTrip(|r.entry.value|);
  }

  /**
   * A record is read back, and the next one found, if and only if it is a PUT or carries no value: the
   * reader neither reads nor skips the value bytes of a DELETE.
   */
  lemma {:induction false} ReadRecExact(before: Bytes, r: Rec, file: Bytes)
    requires FitsRec(r) && before + EncodeRec(r) <= file
    ensures ReadRec(file, |before|) == Some((r, |before| + |EncodeRec(r)|)) <==>
            r.entry.kind == PUT || r.entry.value == []
  {
    hide ToLE, FromLE, Head;
    var p := |before|;
    assert EncodeRec(r) == Head(r) + r.key + r.entry.value;
    var b1 := before + Head(r);
    var b2 := b1 + r.key;
    assert b2 + r.entry.value == before + EncodeRec(r);
    assert b1 <= b2 <= before + EncodeRec(r);
    HeadFields(before, r, file);
    SliceOf(b1, r.key, file);
    SliceOf(b2, r.entry.value, file);
    assert Zeros(0) == [];
  }

  /** A DELETE is read as zeros of its stored length, and the cursor is left right behind its key. */
  lemma {:induction false} DeleteNotSkipped(before: Bytes, r: Rec, file: Bytes)
    requires FitsRec(r) && r.entry.kind == DELETE && before + EncodeRec(r) <= file
    ensures ReadRec(file, |before|)
            == Some((Rec(r.key, Entry(Zeros(|r.entry.value|), r.entry.seqNo, DELETE)), |before| + 17 + |r.key|))
  {
    hide ToLE, FromLE, Head;
    var b1 := before + Head(r);
    assert b1 + r.key + r.entry.value == before + EncodeRec(r);
    assert b1 <= b1 + r.key <= before + EncodeRec(r);
    HeadFields(before, r, file);
    SliceOf(b1, r.key, file);
  }

  /** Keys outside the range or not in the filter are answered without a look at the file. */
  lemma {:induction false} FileNotRead(h: Hasher, t: SSTable, file: Bytes, k: Bytes)
    requires t.filter.bits != []
    requires Less(k, t.minKey) || Less(t.maxKey, k) || !Contains(h, t.filter, k)
    ensures Get(h, t, k) == None && Get(h, t.(file := file), k) == None
  {
  }

  // ---------- offsets ----------

  lemma {:induction false} DataStep(recs: seq<Rec>, i: nat)
    requires i < |recs|
    ensures Data(recs[..i + 1]) == Data(recs[..i]) + EncodeRec(recs[i])
    ensures Offset(recs, i) + 17 <= Offset(recs, i + 1)
  {
    assert recs[..i + 1][..i] == recs[..i];
  }

  lemma {:induction false} DataPrefix(recs: seq<Rec>, i: nat, j: nat)
    requires i <= j <= |recs|
    ensures Data(recs[..i]) <= Data(recs[..j])
    ensures i < j ==> Offset(recs, i) < Offset(recs, j)
    decreases j - i
  {
    hide EncodeRec, Data;
    if i < j {
      DataPrefix(recs, i, j - 1);
      DataStep(recs, j - 1);
    }
  }

  /** Reading at a record's offset gives the record and the next offset. */
  lemma {:induction false} RecAt(recs: seq<Rec>, file: Bytes, i: nat)
    requires Snapshot(recs) && Data(recs) <= file && i < |recs|
    ensures ReadRec(file, Offset(recs, i)) == Some((recs[i], Offset(recs, i + 1)))
  {
    hide ReadRec, EncodeRec, Data, Sorted;
    assert recs[..|recs|] == recs;
    DataStep(recs, i);
    DataPrefix(recs, i + 1, |recs|);
    assert Data(recs[..i + 1]) <= file;
    ReadRecExact(Data(recs[..i]), recs[i], file);
  }

  // ---------- the scan ----------

  /** A table's file is at least as long as any value in it. */
  lemma {:induction false} FileCoversValues(h: Hasher, t: SSTable, recs: seq<Rec>, bloom: Bytes, i: nat)
    requires TableFor(h, t, recs, bloom) && i < |recs|
    ensures |t.file| >= |recs[i].entry.value|
  {
    DataStep(recs, i);
    DataPrefix(recs, i + 1, |recs|);
    assert recs[..|recs|] == recs;
  }

  lemma {:induction false} SliceSorted(recs: seq<Rec>, i: nat, j: nat)
    requires Sorted(recs) && i <= j <= |recs|
    ensures Sorted(recs[i..j])
  {
  }

  lemma {:induction false} ScanFinds(recs: seq<Rec>, file: Bytes, i: nat, j: nat, k: Bytes)
    requires Snapshot(recs) && Data(recs) <= file && i <= j <= |recs|
    ensures ScanFile(file, Offset(recs, i), Offset(recs, j), k) == Find(recs[i..j], k)
    decreases j - i
  {
    hide ReadRec, Offset, Less, Sorted;
    DataPrefix(recs, i, j);
    if i < j {
      RecAt(recs, file, i);
      var window := recs[i..j];
      assert window[0] == recs[i] && window[1..] == recs[i + 1..j];
      SliceSorted(recs, i, j);
      if Less(k, recs[i].key) && recs[i].key != k {
        FindInGap(window, k, 0);
      } else {
        ScanFinds(recs, file, i + 1, j, k);
      }
    }
  }

  /** A key's place lies in the window whose bounds enclose it. */
  lemma {:induction false} FindInWindow(recs: seq<Rec>, i: nat, j: nat, k: Bytes)
    requires Sorted(recs) && i <= j <= |recs|
    requires i < |recs| && !Less(k, recs[i].key)
    requires j < |recs| ==> Less(k, recs[j].key)
    ensures Find(recs[i..j], k) == Find(recs, k)
  {
    var window := recs[i..j];
    SliceSorted(recs, i, j);
    if Find(window, k).Some? {
      var m := FindIndex(window, k);
      assert recs[i + m] == window[m];
      FindAt(recs, i + m);
    } else if Find(recs, k).Some? {
      var m := FindIndex(recs, k);
      assert i <= m < j by { WindowHolds(recs, i, j, k, m); }
      assert window[m - i] == recs[m];
      FindAt(window, m - i);
    }
  }

  lemma {:induction false} WindowHolds(recs: seq<Rec>, i: nat, j: nat, k: Bytes, m: nat)
    requires Sorted(recs) && i <= j <= |recs| && m < |recs| && recs[m].key == k
    requires i < |recs| && !Less(k, recs[i].key)
    requires j < |recs| ==> Less(k, recs[j].key)
    ensures i <= m < j
  {
    LessIrreflexive(k);
    if j < m { LessTransitive(k, recs[j].key, recs[m].key); }
  }

  // ---------- the index ----------

  lemma {:induction false} IndexEntries(recs: seq<Rec>, n: nat)
    requires n <= |recs|
    ensures |IndexUpTo(recs, n)| == (n + 15) / 16
    ensures forall j :: 0 <= j < |IndexUpTo(recs, n)| ==>
              16 * j < n && IndexUpTo(recs, n)[j] == IndexEntry(recs[16 * j].key, Offset(recs, 16 * j))
  {
    hide Offset;
    if n > 0 { IndexEntries(recs, n - 1); }
  }

  lemma {:induction false} UpperBoundEncloses(index: seq<IndexEntry>, k: Bytes)
    ensures var u := UpperBound(index, k);
            && (u > 0 ==> !Less(k, index[u - 1].key))
            && (u < |index| ==> Less(k, index[u].key))
  {
    hide Less;
    if index != [] && !Less(k, index[0].key) { UpperBoundEncloses(index[1..], k); }
  }

  // ---------- point reads ----------

  /** The search through the index and the bounded scan. */
  lemma {:induction false} IndexedScan(t: SSTable, recs: seq<Rec>, k: Bytes)
    requires Snapshot(recs) && Data(recs) <= t.file
    requires t.index == IndexUpTo(recs, |recs|) && t.dataEnd == |Data(recs)| && !Less(k, recs[0].key)
    ensures var u := UpperBound(t.index, k); ScanFile(t.file, ScanStart(t, u), ScanEnd(t, u), k) == Find(recs, k)
  {
    hide ScanFile, Less, Data, UpperBound, Sorted, IndexUpTo;
    var u := UpperBound(t.index, k);
    IndexEntries(recs, |recs|);
    UpperBoundEncloses(t.index, k);
    assert u >= 1;
    var i := 16 * (u - 1);
    var j := if u < |t.index| then 16 * u else |recs|;
    assert t.index[u - 1] == IndexEntry(recs[i].key, Offset(recs, i));
    assert recs[..|recs|] == recs;
    assert ScanStart(t, u) == Offset(recs, i) && ScanEnd(t, u) == Offset(recs, j);
    ScanFinds(recs, t.file, i, j, k);
    FindInWindow(recs, i, j, k);
  }

  /** The filter never hides a stored key. */
  lemma {:induction false} StoredKeyPasses(h: Hasher, t: SSTable, recs: seq<Rec>, k: Bytes)
    requires t.filter.bits != [] && t.filter == AddedAll(h, Empty(|t.filter.bits|, t.filter.probes), Keys(recs))
    requires Find(recs, k).Some?
    ensures Contains(h, t.filter, k)
  {
    hide AddedAll, Contains;
    var m := FindIndex(recs, k);
    assert Keys(recs)[m] == k;
    NoFalseNegatives(h, Empty(|t.filter.bits|, t.filter.probes), Keys(recs), m);
  }

  /**
   * Through range check, filter, sparse index and bounded scan, a point read returns exactly what the
   * snapshot holds, for present and absent keys.
   */
  lemma {:induction false} GetIsFind(h: Hasher, t: SSTable, recs: seq<Rec>, bloom: Bytes, k: Bytes)
    requires Snapshot(recs) && TableFor(h, t, recs, bloom)
    ensures Get(h, t, k) == Find(recs, k)
  {
    hide ScanFile, Less, Data, UpperBound, Sorted, IndexUpTo, AddedAll, Contains, Find, Metadata, Serializes;
    if Less(k, t.minKey) {
      FindInGap(recs, k, 0);
    } else if Less(t.maxKey, k) {
      FindInGap(recs, k, |recs|);
    } else {
      IndexedScan(t, recs, k);
      if Find(recs, k).Some? { StoredKeyPasses(h, t, recs, k); }
    }
  }

  // ---------- the iterator ----------

  lemma {:induction false} ReadAllFrom(recs: seq<Rec>, file: Bytes, i: nat)
    requires Snapshot(recs) && Data(recs) <= file && i <= |recs|
    ensures ReadAll(file, Offset(recs, i), |Data(recs)|) == recs[i..]
    decreases |recs| - i
  {
    hide ReadRec, Data, Sorted;
    assert recs[..|recs|] == recs;
    DataPrefix(recs, i, |recs|);
    if i < |recs| {
      RecAt(recs, file, i);
      ReadAllFrom(recs, file, i + 1);
      assert recs[i..] == [recs[i]] + recs[i + 1..];
    }
  }

  /** The iterator enumerates exactly the snapshot, in key order. */
  lemma {:induction false} IteratorEnumerates(h: Hasher, t: SSTable, recs: seq<Rec>, bloom: Bytes)
    requires Snapshot(recs) && TableFor(h, t, recs, bloom)
    ensures ReadAll(t.file, 0, t.dataEnd) == recs
  {
    hide Sorted, ReadAll, AddedAll, Serializes, Metadata;
    ReadAllFrom(recs, t.file, 0);
    assert recs[..0] == [] && recs[0..] == recs;
  }

  class Iterator {
    const file: Bytes
    const dataEnd: nat
    var pos: nat
    var valid: bool
    var current: Rec

    /** What is still to come, the current record included. */
    ghost function Remaining(): seq<Rec>
      reads this
    {
      if valid then [current] + ReadAll(file, pos, dataEnd) else []
    }

    constructor (t: SSTable)
      ensures Remaining() == ReadAll(t.file, 0, t.dataEnd) && file == t.file && dataEnd == t.dataEnd
    {
      file, dataEnd, pos := t.file, t.dataEnd, 0;
      valid, current := false, Rec([], Entry([], 0, PUT));
      new;
      ReadNext();
    }

    method ReadNext()
      modifies this
      ensures Remaining() == ReadAll(file, old(pos), dataEnd)
    {
      if pos >= dataEnd {
        valid := false;
        return;
      }
      var r := ReadRec(file, pos);
      if r.None? {
        valid := false;
        return;
      }
      current, pos, valid := r.value.0, r.value.1, true;
    }

    method Advance()
      requires valid
      modifies this
      ensures Remaining() == old(Remaining())[1..]
    {
      ghost var rest := ReadAll(file, pos, dataEnd);
      assert ([current] + rest)[1..] == rest;
      ReadNext();
    }
  }
}
