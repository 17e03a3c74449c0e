/** The table file (engine/src/sstable.cpp): records, sparse index, filter, and reads through all of them. */
module SSTables {
  import opened Types
  import opened SortedMap
  import opened Encoding
  import opened Bloom

  datatype IndexEntry = IndexEntry(key: Bytes, offset: nat)

  datatype SSTable = SSTable(
    file: Bytes, minKey: Bytes, maxKey: Bytes, dataEnd: nat, index: seq<IndexEntry>, filter: Filter)

  const INDEX_INTERVAL := 16

  // ---------- records ----------

  function TypeByte(kind: EntryType): byte {
    if kind == PUT then 0 else 1
  }

  function Head(r: Rec): (b: Bytes)
    ensures |b| == 17
  {
    ToLE(r.entry.seqNo, 8) + [TypeByte(r.entry.kind)] + ToLE(|r.key|, 4) + ToLE(|r.entry.value|, 4)
  }

  function EncodeRec(r: Rec): Bytes {
    Head(r) + r.key + r.entry.value
  }

  function Data(recs: seq<Rec>): Bytes {
    if recs == [] then [] else Data(recs[..|recs| - 1]) + EncodeRec(recs[|recs| - 1])
  }

  function Offset(recs: seq<Rec>, i: nat): nat
    requires i <= |recs|
  {
    |Data(recs[..i])|
  }

  /** One record at a file position. The value bytes of a DELETE are not read and not skipped. */
  function ReadRec(file: Bytes, pos: nat): (r: Option<(Rec, nat)>)
    ensures r.Some? ==> r.value.1 >= pos + 17
  {
    if pos + 17 > |file| then None
    else
      var seqNo := FromLE(file[pos..pos + 8]);
      var kind := if file[pos + 8] == 0 then PUT else DELETE;
      var keyLen := FromLE(file[pos + 9..pos + 13]);
      var valueLen := FromLE(file[pos + 13..pos + 17]);
      var p := pos + 17 + keyLen;
      if p > |file| then None
      else
        var key := file[pos + 17..p];
        if kind == DELETE then Some((Rec(key, Entry(Zeros(valueLen), seqNo, DELETE)), p))
        else if p + valueLen > |file| then None
        else Some((Rec(key, Entry(file[p..p + valueLen], seqNo, PUT)), p + valueLen))
  }

  // ---------- the sparse index ----------

  /** Every sixteenth key with its offset, among the first `n` records. */
  function IndexUpTo(recs: seq<Rec>, n: nat): seq<IndexEntry>
    requires n <= |recs|
  {
    if n == 0 then []
    else
      IndexUpTo(recs, n - 1)
      + if (n - 1) % INDEX_INTERVAL == 0 then [IndexEntry(recs[n - 1].key, Offset(recs, n - 1))] else []
  }

  /** `std::upper_bound` on the index keys. */
  function UpperBound(index: seq<IndexEntry>, k: Bytes): (u: nat)
    ensures u <= |index|
  {
    if index == [] || Less(k, index[0].key) then 0 else 1 + UpperBound(index[1..], k)
  }

  // ---------- point reads ----------

  /** The bounded scan. */
  function ScanFile(file: Bytes, pos: nat, end: nat, k: Bytes): Option<Entry>
    decreases if pos < end then end - pos else 0
  {
    if pos >= end then None
    else
      match ReadRec(file, pos)
      case None => None
      case Some((r, next)) =>
        if r.key == k then Some(r.entry)
        else if Less(k, r.key) then None
        else ScanFile(file, next, end, k)
  }

  function ScanStart(t: SSTable, u: nat): nat
    requires u <= |t.index|
  {
    if u > 0 then t.index[u - 1].offset else 0
  }

  function ScanEnd(t: SSTable, u: nat): nat
    requires u <= |t.index|
  {
    var it := if u > 0 then u - 1 else 0;
    if it + 1 < |t.index| then t.index[it + 1].offset else t.dataEnd
  }

  function Get(h: Hasher, t: SSTable, k: Bytes): Option<Entry>
    requires t.filter.bits != []
  {
    if Less(k, t.minKey) || Less(t.maxKey, k) then None
    else if !Contains(h, t.filter, k) then None
    else
      var u := UpperBound(t.index, k);
      ScanFile(t.file, ScanStart(t, u), ScanEnd(t, u), k)
  }

  /** Every record up to the end of the data, as the iterator and `getData` go. */
  function ReadAll(file: Bytes, pos: nat, end: nat): seq<Rec>
    decreases if pos < end then end - pos else 0
  {
    if pos >= end then []
    else
      match ReadRec(file, pos)
      case None => []
      case Some((r, next)) => [r] + ReadAll(file, next, end)
  }

  // ---------- the rest of the file ----------

  function IndexBytes(index: seq<IndexEntry>): Bytes {
    if index == [] then []
    else
      var e := index[|index| - 1];
      IndexBytes(index[..|index| - 1]) + ToLE(|e.key|, 4) + e.key + ToLE(e.offset, 8)
  }

  function Metadata(t: SSTable, bloom: Bytes): Bytes {
    ToLE(|t.minKey|, 4) + ToLE(|t.maxKey|, 4) + t.minKey + t.maxKey
    + ToLE(|t.index|, 4) + IndexBytes(t.index) + ToLE(|bloom|, 4) + bloom + ToLE(t.dataEnd, 8)
  }

  function Keys(recs: seq<Rec>): (ks: seq<Bytes>)
    ensures |ks| == |recs|
  {
    seq(|recs|, i requires 0 <= i < |recs| => recs[i].key)
  }

  ghost predicate FitsRec(r: Rec) {
    |r.key| < TWO32 && |r.entry.value| < TWO32 && r.entry.seqNo < TWO64
  }

  /** A snapshot a table can be made from: sorted, tombstones without value, fields that fit. */
  ghost predicate Snapshot(recs: seq<Rec>) {
    && recs != [] && Sorted(recs) && TombstonesEmpty(recs)
    && forall i :: 0 <= i < |recs| ==> FitsRec(recs[i])
  }

  /** What `flush` leaves: in memory and in the file. */
  ghost predicate TableFor(h: Hasher, t: SSTable, recs: seq<Rec>, bloom: Bytes) {
    && recs != []
    && t.minKey == recs[0].key && t.maxKey == recs[|recs| - 1].key
    && t.dataEnd == |Data(recs)| && t.index == IndexUpTo(recs, |recs|)
    && t.filter.bits != [] && t.filter == AddedAll(h, Empty(|t.filter.bits|, t.filter.probes), Keys(recs))
    && Serializes(bloom, t.filter)
    && t.file == Data(recs) + Metadata(t, bloom)
  }

  /** `SSTable::flush`. */
  method Flush(h: Hasher, recs: seq<Rec>, size: nat, probes: nat) returns (t: SSTable, bloom: Bytes)
    requires recs != [] && size > 0
    ensures TableFor(h, t, recs, bloom) && |t.filter.bits| == size && t.filter.probes == probes
  {
    hide EncodeRec, Added, Serializes, IndexBytes, ToLE;
    var filter := Empty(size, probes);
    var index: seq<IndexEntry> := [];
    var file: Bytes := [];
    for n := 0 to |recs|
      invariant |filter.bits| == size && filter.probes == probes
      invariant filter == AddedAll(h, Empty(size, probes), Keys(recs[..n]))
      invariant file == Data(recs[..n]) && index == IndexUpTo(recs, n)
    {
      assert Keys(recs[..n + 1])[..n] == Keys(recs[..n]);
      assert recs[..n + 1][..n] == recs[..n];
      filter := Added(h, filter, recs[n].key);
      if n % INDEX_INTERVAL == 0 { index := index + [IndexEntry(recs[n].key, |file|)]; }
      file := file + EncodeRec(recs[n]);
    }
    assert recs[..|recs|] == recs;
    t := SSTable(file, recs[0].key, recs[|recs| - 1].key, |file|, index, filter);
    bloom := Serialize(filter);
    t := t.(file := file + Metadata(t, bloom));
  }

  /** `SSTable::get`, with its searches as loops. */
  method PointRead(h: Hasher, t: SSTable, k: Bytes) returns (r: Option<Entry>)
    requires t.filter.bits != []
    ensures r == Get(h, t, k)
  {
    hide Contains, ReadRec, Less;
    if Less(k, t.minKey) || Less(t.maxKey, k) { return None; }
    if !Contains(h, t.filter, k) { return None; }
    var it := 0;
    while it < |t.index| && !Less(k, t.index[it].key)
      invariant 0 <= it <= |t.index|
      invariant UpperBound(t.index, k) == it + UpperBound(t.index[it..], k)
    {
      assert t.index[it..][1..] == t.index[it + 1..];
      it := it + 1;
    }
    var start, end := 0, t.dataEnd;
    if it != 0 {
      it := it - 1;
      start := t.index[it].offset;
    }
    if it < |t.index| && it + 1 < |t.index| { end := t.index[it + 1].offset; }
    r := ScanLoop(t.file, start, end, k);
  }

  method ScanLoop(file: Bytes, start: nat, end: nat, k: Bytes) returns (r: Option<Entry>)
    ensures r == ScanFile(file, start, end, k)
  {
    hide ReadRec, Less;
    var pos := start;
    while pos < end
      invariant ScanFile(file, start, end, k) == ScanFile(file, pos, end, k)
    {
      var record := ReadRec(file, pos);
      if record.None? { return None; }
      if record.value.0.key == k { return Some(record.value.0.entry); }
      if Less(k, record.value.0.key) { return None; }
      pos := record.value.1;
    }
    r := None;
  }
}
