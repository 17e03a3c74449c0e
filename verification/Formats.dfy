/** The byte and text formats, position by position. */
module Formats {
  import opened Types
  import opened Encoding
  import opened Bloom
  import W = Wal
  import opened SSTables
  import R = Replication
  import Wire

  /** A log record (engine/src/wal.cpp:128-134): checksum, number, operation, two lengths, key, value. */
  lemma {:induction false} LogRecordLayout(crc: W.Checksum, r: W.Record)
    requires W.Is32Bit(crc) && W.Fits(r)
    ensures var b, n := W.Encode(crc, r), |r.key|;
            && |b| == 21 + n + |r.value|
            && FromLE(b[0..4]) == crc(r) && FromLE(b[4..12]) == r.seqNo && b[12] == r.op
            && FromLE(b[13..17]) == n && FromLE(b[17..21]) == |r.value|
            && b[21..21 + n] == r.key && b[21 + n..] == r.value
  {
    hide ToLE, FromLE;
    U32RoundTrip(crc(r));
    U64RoundTrip(r.seqNo);
    U32RoundTrip(|r.key|);
    U32RoundTrip(|r.value|);
    var b, n := W.Encode(crc, r), |r.key|;
    assert b[0..4] == ToLE(crc(r), 4) && b[4..12] == ToLE(r.seqNo, 8);
    assert b[13..17] == ToLE(|r.key|, 4) && b[17..21] == ToLE(|r.value|, 4);
    assert b[21..21 + n] == r.key && b[21 + n..] == r.value;
  }

  /** A table record (engine/src/sstable.cpp:91-96): number, type, two lengths, key, value. */
  lemma {:induction false} TableRecordLayout(r: Rec)
    requires FitsRec(r)
    ensures var b, n := EncodeRec(r), |r.key|;
            && |b| == 17 + n + |r.entry.value|
            && FromLE(b[0..8]) == r.entry.seqNo && b[8] == (if r.entry.kind == PUT then 0 else 1)
            && FromLE(b[9..13]) == n && FromLE(b[13..17]) == |r.entry.value|
            && b[17..17 + n] == r.key && b[17 + n..] == r.entry.value
  {
    hide ToLE, FromLE;
    U64RoundTrip(r.entry.seqNo);
    U32RoundTrip(|r.key|);
    U32RoundTrip(|r.entry.value|);
    var b, n := EncodeRec(r), |r.key|;
    assert b[0..8] == ToLE(r.entry.seqNo, 8);
    assert b[9..13] == ToLE(|r.key|, 4) && b[13..17] == ToLE(|r.entry.value|, 4);
    assert b[17..17 + n] == r.key && b[17 + n..] == r.entry.value;
  }

  /** What follows the data of a table (engine/src/sstable.cpp:107-130), for one index entry. */
  lemma {:induction false} MetadataSample(t: SSTable, bloom: Bytes)
    requires t.minKey == [97] && t.maxKey == [98, 99] && t.index == [IndexEntry([97], 5)] && t.dataEnd == 200
    ensures Metadata(t, bloom)
            == [1, 0, 0, 0] + [2, 0, 0, 0] + [97] + [98, 99] + [1, 0, 0, 0]
               + ([1, 0, 0, 0] + [97] + [5, 0, 0, 0, 0, 0, 0, 0])
               + ToLE(|bloom|, 4) + bloom + [200, 0, 0, 0, 0, 0, 0, 0]
  {
    Short(1);
    Short(2);
    Long(5);
    Long(200);
    IndexSample(t.index);
    hide ToLE, IndexBytes;
  }

  lemma {:induction false} IndexSample(index: seq<IndexEntry>)
    requires index == [IndexEntry([97], 5)]
    ensures IndexBytes(index) == [1, 0, 0, 0] + [97] + [5, 0, 0, 0, 0, 0, 0, 0]
  {
    hide ToLE;
    Short(1);
    Long(5);
    assert index[..0] == [] && IndexBytes([]) == [];
  }

  lemma {:induction false} Short(n: nat)
    requires n < 256
    ensures ToLE(n, 4) == [n as byte, 0, 0, 0]
  {
    SmallNumber(n, 4);
    assert Zeros(3) == [0, 0, 0];
  }

  lemma {:induction false} Long(n: nat)
    requires n < 256
    ensures ToLE(n, 8) == [n as byte, 0, 0, 0, 0, 0, 0, 0]
  {
    SmallNumber(n, 8);
    assert Zeros(7) == [0, 0, 0, 0, 0, 0, 0];
  }

  /** A filter of four bits, the first and the last set, with two probes (engine/src/bloom_filter.cpp:47-72). */
  lemma {:induction false} FilterSample(data: Bytes)
    requires Serializes(data, Filter([true, false, false, true], 2))
    ensures data == [4, 0, 0, 0, 0, 0, 0, 0] + [2, 0, 0, 0, 0, 0, 0, 0] + [1, 0, 0, 0, 0, 0, 0, 0] + [9]
  {
    hide ToLE, TestBit;
    Long(4);
    Long(2);
    Long(1);
    var bits := [true, false, false, true];
    NinePacks();
    PackingUnique(data[24..], [9], bits);
    assert data == data[..8] + data[8..16] + data[16..24] + data[24..];
  }

  lemma {:induction false} NinePacks()
    ensures Packs([9], [true, false, false, true])
  {
    var data, bits := [9 as byte], [true, false, false, true];
    forall p | 0 <= p < 8 ensures BitAt(data, p) <==> p < |bits| && bits[p] {
      assert TestBit(9, 0) && !TestBit(9, 1) && !TestBit(9, 2) && TestBit(9, 3);
      assert !TestBit(9, 4) && !TestBit(9, 5) && !TestBit(9, 6) && !TestBit(9, 7);
      assert p == 0 || p == 1 || p == 2 || p == 3 || p == 4 || p == 5 || p == 6 || p == 7;
    }
  }

  /** The text `2|7|1|15|2|7|1|1|k|3|a|b` (distributed/replication/log_entry.cpp:8-12, 54-64). */
  lemma {:induction false} MessageSample()
    ensures var entry: Bytes := [50, 124, 55, 124, 49, 124, 49, 124, 107, 124, 51, 124, 97, 124, 98];
            && Wire.SerializeEntry(R.LogEntry(2, 7, 1, [107], [97, 124, 98])) == entry
            && Wire.SerializeMessage(R.Message(2, 7, [R.LogEntry(2, 7, 1, [107], [97, 124, 98])]))
               == [50, 124, 55, 124, 49, 124, 49, 53, 124] + entry
  {
    hide Wire.Digits, Wire.SerializeEntry;
    SomeDigits();
    EntrySample();
    var e := R.LogEntry(2, 7, 1, [107], [97, 124, 98]);
    assert [e][1..] == [];
    assert Wire.SerializeEntries([]) == [];
  }

  lemma {:induction false} EntrySample()
    ensures Wire.SerializeEntry(R.LogEntry(2, 7, 1, [107], [97, 124, 98]))
            == [50, 124, 55, 124, 49, 124, 49, 124, 107, 124, 51, 124, 97, 124, 98]
  {
    hide Wire.Digits;
    SomeDigits();
  }

  lemma {:induction false} SomeDigits()
    ensures Wire.Digits(1) == [49] && Wire.Digits(2) == [50] && Wire.Digits(3) == [51] && Wire.Digits(7) == [55]
    ensures Wire.Digits(15) == [49, 53]
  {
    assert Wire.Digits(15) == Wire.Digits(1) + [53];
  }
}
