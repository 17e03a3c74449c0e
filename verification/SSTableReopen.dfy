/** Reopening a table from its bytes (engine/src/sstable.cpp:231-275) restores what `flush` had in memory. */
module SSTableReopen {
  import opened Types
  import opened SortedMap
  import opened Encoding
  import opened Bloom
  import opened SSTables
  import opened SSTableProof

  function Take(file: Bytes, pos: nat, n: nat): Option<Bytes> {
    if pos + n <= |file| then Some(file[pos..pos + n]) else None
  }

  /** The index after `n` rounds of the loading loop, and the position behind it. */
  function LoadIndex(file: Bytes, pos: nat, n: nat): Option<(seq<IndexEntry>, nat)>
    decreases n
  {
    if n == 0 then Some(([], pos))
    else
      var (init, p) :- LoadIndex(file, pos, n - 1);
      var len :- Take(file, p, 4);
      var key :- Take(file, p + 4, FromLE(len));
      var offset :- Take(file, p + 4 + FromLE(len), 8);
      Some((init + [IndexEntry(key, FromLE(offset))], p + 4 + FromLE(len) + 8))
  }

  /** `loadMetadata`; `None` where the program would read past the end. */
  function Load(file: Bytes): Option<SSTable> {
    if |file| < 8 then None
    else
      var dataEnd := FromLE(file[|file| - 8..]);
      var minLen :- Take(file, dataEnd, 4);
      var maxLen :- Take(file, dataEnd + 4, 4);
      var p1 := dataEnd + 8;
      var minKey :- Take(file, p1, FromLE(minLen));
      var p2 := p1 + FromLE(minLen);
      var maxKey :- Take(file, p2, FromLE(maxLen));
      var p3 := p2 + FromLE(maxLen);
      var count :- Take(file, p3, 4);
      var (index, p4) :- LoadIndex(file, p3 + 4, FromLE(count));
      var bloomLen :- Take(file, p4, 4);
      var bloom :- Take(file, p4 + 4, FromLE(bloomLen));
      var filter :- Deserialize(bloom);
      Some(SSTable(file, minKey, maxKey, dataEnd, index, filter))
  }

  lemma {:induction false} TakeAt(before: Bytes, text: Bytes, file: Bytes)
    requires before + text <= file
    ensures Take(file, |before|, |text|) == Some(text)
  {
    SliceOf(before, text, file);
  }

  ghost predicate IndexFits(index: seq<IndexEntry>) {
    forall i :: 0 <= i < |index| ==> |index[i].key| < TWO32 && index[i].offset < TWO64
  }

  lemma {:induction false} LoadIndexAt(before: Bytes, index: seq<IndexEntry>, file: Bytes)
    requires IndexFits(index) && before + IndexBytes(index) <= file
    ensures LoadIndex(file, |before|, |index|) == Some((index, |before + IndexBytes(index)|))
  {
    hide ToLE, FromLE, Take;
    if index == [] {
      assert before + [] == before;
    } else {
      var n := |index| - 1;
      var e := index[n];
      var b1 := before + IndexBytes(index[..n]);
      var b2 := b1 + ToLE(|e.key|, 4);
      var b3 := b2 + e.key;
      var b4 := b3 + ToLE(e.offset, 8);
      Regroup(before, IndexBytes(index[..n]), ToLE(|e.key|, 4));
      Regroup(before, IndexBytes(index[..n]) + ToLE(|e.key|, 4), e.key);
      Regroup(before, IndexBytes(index[..n]) + ToLE(|e.key|, 4) + e.key, ToLE(e.offset, 8));
      assert b1 <= b2 <= b3 <= b4 <= file;
      LoadIndexAt(before, index[..n], file);
      TakeAt(b1, ToLE(|e.key|, 4), file);
      TakeAt(b2, e.key, file);
      TakeAt(b3, ToLE(e.offset, 8), file);
      U32RoundTrip(|e.key|);
      U64RoundTrip(e.offset);
      assert index == index[..n] + [e];
    }
  }

  /** The lengths the file format can express. */
  ghost predicate FitsTable(t: SSTable, bloom: Bytes) {
    && |t.minKey| < TWO32 && |t.maxKey| < TWO32 && |t.index| < TWO32 && |bloom| < TWO32
    && t.dataEnd < TWO64 && IndexFits(t.index)
    && |t.filter.bits| < TWO64 && t.filter.probes < TWO64
  }

  /** The file, cut behind each part of the metadata. */
  ghost function Parts(data: Bytes, t: SSTable, bloom: Bytes): (b: seq<Bytes>)
    ensures |b| == 9 && b[0] == data
    ensures b[8] + ToLE(t.dataEnd, 8) == data + Metadata(t, bloom)
    ensures b[1] == b[0] + ToLE(|t.minKey|, 4) && b[2] == b[1] + ToLE(|t.maxKey|, 4)
    ensures b[3] == b[2] + t.minKey && b[4] == b[3] + t.maxKey
    ensures b[5] == b[4] + ToLE(|t.index|, 4) && b[6] == b[5] + IndexBytes(t.index)
    ensures b[7] == b[6] + ToLE(|bloom|, 4) && b[8] == b[7] + bloom
  {
    hide ToLE, IndexBytes;
    var m1 := ToLE(|t.minKey|, 4);
    var m2 := m1 + ToLE(|t.maxKey|, 4);
    var m3 := m2 + t.minKey;
    var m4 := m3 + t.maxKey;
    var m5 := m4 + ToLE(|t.index|, 4);
    var m6 := m5 + IndexBytes(t.index);
    var m7 := m6 + ToLE(|bloom|, 4);
    var m8 := m7 + bloom;
    assert Metadata(t, bloom) == m8 + ToLE(t.dataEnd, 8);
    Regroup(data, m1, ToLE(|t.maxKey|, 4));
    Regroup(data, m2, t.minKey);
    Regroup(data, m3, t.maxKey);
    Regroup(data, m4, ToLE(|t.index|, 4));
    Regroup(data, m5, IndexBytes(t.index));
    Regroup(data, m6, ToLE(|bloom|, 4));
    Regroup(data, m7, bloom);
    Regroup(data, m8, ToLE(t.dataEnd, 8));
    [data, data + m1, data + m2, data + m3, data + m4, data + m5, data + m6, data + m7, data + m8]
  }

  /** Key range, sparse index, data end and filter come back from the bytes. */
  lemma {:induction false} MetadataRoundTrip(data: Bytes, t: SSTable, bloom: Bytes)
    requires t.file == data + Metadata(t, bloom) && t.dataEnd == |data|
    requires FitsTable(t, bloom) && Serializes(bloom, t.filter)
    ensures Load(t.file) == Some(t)
  {
    hide ToLE, FromLE, Take, Metadata, LoadIndex, IndexBytes, Deserialize, Serializes, IndexFits;
    var b := Parts(data, t, bloom);
    var f := t.file;
    PartsAreFronts(data, t, bloom);
    TakeAt(b[0], ToLE(|t.minKey|, 4), f);
    TakeAt(b[1], ToLE(|t.maxKey|, 4), f);
    TakeAt(b[2], t.minKey, f);
    TakeAt(b[3], t.maxKey, f);
    TakeAt(b[4], ToLE(|t.index|, 4), f);
    LoadIndexAt(b[5], t.index, f);
    TakeAt(b[6], ToLE(|bloom|, 4), f);
    TakeAt(b[7], bloom, f);
    U32RoundTrip(|t.minKey|);
    U32RoundTrip(|t.maxKey|);
    U32RoundTrip(|t.index|);
    U32RoundTrip(|bloom|);
    U64RoundTrip(t.dataEnd);
    assert f[|f| - 8..] == ToLE(t.dataEnd, 8);
    FilterRoundTrip(bloom, t.filter);
  }

  lemma {:induction false} PartsAreFronts(data: Bytes, t: SSTable, bloom: Bytes)
    ensures forall i :: 0 <= i < 9 ==> Parts(data, t, bloom)[i] <= data + Metadata(t, bloom)
  {
    hide ToLE, IndexBytes, Metadata;
    var b := Parts(data, t, bloom);
    assert b[0] <= b[1] <= b[2] <= b[3] <= b[4] <= b[5] <= b[6] <= b[7] <= b[8] <= b[8] + ToLE(t.dataEnd, 8);
  }

  lemma {:induction false} IndexOffsetsFit(recs: seq<Rec>)
    requires Snapshot(recs) && |Data(recs)| < TWO64
    ensures IndexFits(IndexUpTo(recs, |recs|))
  {
    hide Data, Sorted;
    IndexEntries(recs, |recs|);
    var index := IndexUpTo(recs, |recs|);
    assert recs[..|recs|] == recs;
    forall i | 0 <= i < |index| ensures |index[i].key| < TWO32 && index[i].offset < TWO64 {
      DataPrefix(recs, 16 * i, |recs|);
    }
  }

  /** A flushed table, reopened, is the table that was flushed. */
  lemma {:induction false} ReopenRestores(h: Hasher, t: SSTable, recs: seq<Rec>, bloom: Bytes)
    requires Snapshot(recs) && TableFor(h, t, recs, bloom)
    requires |t.file| < TWO64 && |t.index| < TWO32 && |bloom| < TWO32
    requires |t.filter.bits| < TWO64 && t.filter.probes < TWO64
    ensures Load(t.file) == Some(t)
  {
    hide Load, Data, Metadata, Serializes, IndexUpTo, AddedAll, Sorted;
    assert FitsRec(recs[0]) && FitsRec(recs[|recs| - 1]);
    IndexOffsetsFit(recs);
    MetadataRoundTrip(Data(recs), t, bloom);
  }

  /** Hence point reads of a reopened table still answer from the snapshot. */
  lemma {:induction false} ReopenedGetIsFind(h: Hasher, t: SSTable, recs: seq<Rec>, bloom: Bytes, k: Bytes)
    requires Snapshot(recs) && TableFor(h, t, recs, bloom)
    requires |t.file| < TWO64 && |t.index| < TWO32 && |bloom| < TWO32
    requires |t.filter.bits| < TWO64 && t.filter.probes < TWO64
    ensures Load(t.file).Some? && Load(t.file).value.filter.bits != [] && Get(h, Load(t.file).value, k) == Find(recs, k)
  {
    ReopenRestores(h, t, recs, bloom);
    GetIsFind(h, t, recs, bloom, k);
  }
}
