/** The write-ahead log's byte format and its replay (engine/src/wal.cpp:81-135, 165-193). */
module Wal {
  import opened Types
  import opened Encoding

  datatype Record = Record(op: byte, key: Bytes, value: Bytes, seqNo: nat)

  /** CRC-32 is any function into 32 bits. */
  type Checksum = Record -> nat

  ghost predicate Is32Bit(crc: Checksum) {
    forall r :: crc(r) < TWO32
  }

  ghost predicate Fits(r: Record) {
    |r.key| < TWO32 && |r.value| < TWO32 && r.seqNo < TWO64
  }

  function Header(r: Record): (h: Bytes)
    ensures |h| == 17
  {
    ToLE(r.seqNo, 8) + [r.op] + ToLE(|r.key|, 4) + ToLE(|r.value|, 4)
  }

  function Encode(crc: Checksum, r: Record): Bytes {
    ToLE(crc(r), 4) + Header(r) + r.key + r.value
  }

  function EncodeAll(crc: Checksum, rs: seq<Record>): Bytes {
    if rs == [] then [] else Encode(crc, rs[0]) + EncodeAll(crc, rs[1..])
  }

  // ---------- reading ----------

  /** An `ifstream`: the bytes still to come, and whether it has failed. */
  datatype Input = Input(rest: Bytes, ok: bool)

  /**
   * `read(p, n)` over the `n` bytes `kept` already in memory: a short read overwrites what it can and
   * fails; a failed stream reads nothing more.
   */
  function Read(i: Input, n: nat, kept: Bytes): (r: (Bytes, Input))
    requires |kept| == n
    ensures |r.0| == n && r.1.ok == (i.ok && n <= |i.rest|)
    ensures forall j :: 0 <= j < n ==> r.0[j] == if i.ok && j < |i.rest| then i.rest[j] else kept[j]
  {
    if !i.ok then (kept, i)
    else if n <= |i.rest| then (i.rest[..n], Input(i.rest[n..], true))
    else (i.rest + kept[|i.rest|..], Input([], false))
  }

  /** The loop's variables, which survive from one record to the next. */
  datatype Fields = Fields(seqNo: Bytes, op: Bytes, keyLen: Bytes, valueLen: Bytes)

  predicate FieldsOk(f: Fields) {
    |f.seqNo| == 8 && |f.op| == 1 && |f.keyLen| == 4 && |f.valueLen| == 4
  }

  const NO_FIELDS := Fields(Zeros(8), Zeros(1), Zeros(4), Zeros(4))

  /** Everything after the checksum of one record. */
  function ReadBody(i: Input, f: Fields): (r: (Record, Input, Fields))
    requires FieldsOk(f)
    ensures FieldsOk(r.2) && |r.1.rest| <= |i.rest|
  {
    var (s, i1) := Read(i, 8, f.seqNo);
    var (o, i2) := Read(i1, 1, f.op);
    var (kl, i3) := Read(i2, 4, f.keyLen);
    var (vl, i4) := Read(i3, 4, f.valueLen);
    var (k, i5) := Read(i4, FromLE(kl), Zeros(FromLE(kl)));
    var (v, i6) := Read(i5, FromLE(vl), Zeros(FromLE(vl)));
    (Record(o[0], k, v, FromLE(s)), i6, Fields(s, o, kl, vl))
  }

  /** The records `replay` applies. */
  function Replay(crc: Checksum, data: Bytes, f: Fields): seq<Record>
    requires FieldsOk(f)
    decreases |data|
  {
    if |data| < 4 then []
    else
      var (r, i, g) := ReadBody(Input(data[4..], true), f);
      if crc(r) == FromLE(data[..4])
      then [r] + (if i.ok then Replay(crc, i.rest, g) else [])
      else []
  }

  function FieldsOf(r: Record): (f: Fields)
    ensures FieldsOk(f)
  {
    Fields(ToLE(r.seqNo, 8), [r.op], ToLE(|r.key|, 4), ToLE(|r.value|, 4))
  }

  // ---------- whole records ----------

  lemma {:induction false} ReadWhole(text: Bytes, rest: Bytes, kept: Bytes)
    requires |kept| == |text|
    ensures Read(Input(text + rest, true), |text|, kept) == (text, Input(rest, true))
  {
    assert (text + rest)[..|text|] == text && (text + rest)[|text|..] == rest;
  }

  /** A record that is wholly there is read back, whatever the variables held before. */
  lemma {:induction false} ReadBodyWhole(r: Record, rest: Bytes, f: Fields)
    requires Fits(r) && FieldsOk(f)
    ensures ReadBody(Input(Header(r) + r.key + r.value + rest, true), f) == (r, Input(rest, true), FieldsOf(r))
  {
    hide ToLE, FromLE, Read;
    var r6 := r.value + rest;
    var r5 := r.key + r6;
    var r4 := ToLE(|r.value|, 4) + r5;
    var r3 := ToLE(|r.key|, 4) + r4;
    var r2 := [r.op] + r3;
    var r1 := ToLE(r.seqNo, 8) + r2;
    assert Header(r) + r.key + r.value + rest == r1;
    U64RoundTrip(r.seqNo);
    U32RoundTrip(|r.key|);
    U32RoundTrip(|r.value|);
    ReadWhole(ToLE(r.seqNo, 8), r2, f.seqNo);
    ReadWhole([r.op], r3, f.op);
    ReadWhole(ToLE(|r.key|, 4), r4, f.keyLen);
    ReadWhole(ToLE(|r.value|, 4), r5, f.valueLen);
    ReadWhole(r.key, r6, Zeros(|r.key|));
    ReadWhole(r.value, rest, Zeros(|r.value|));
  }

  lemma {:induction false} ReplayFirst(crc: Checksum, r: Record, rest: Bytes, f: Fields)
    requires Is32Bit(crc) && Fits(r) && FieldsOk(f)
    ensures Replay(crc, Encode(crc, r) + rest, f) == [r] + Replay(crc, rest, FieldsOf(r))
  {
    hide ToLE, FromLE, Header, ReadBody, FieldsOf;
    var data := Encode(crc, r) + rest;
    assert data[..4] == ToLE(crc(r), 4);
    assert data[4..] == Header(r) + r.key + r.value + rest;
    U32RoundTrip(crc(r));
    ReadBodyWhole(r, rest, f);
  }

  /** The fields left behind by the last whole record. */
  function FieldsAfter(rs: seq<Record>, f: Fields): (g: Fields)
    requires FieldsOk(f)
    ensures FieldsOk(g)
  {
    if rs == [] then f else FieldsOf(rs[|rs| - 1])
  }

  /** Replay passes over any number of whole records. */
  lemma {:induction false} ReplayWhole(crc: Checksum, rs: seq<Record>, rest: Bytes, f: Fields)
    requires Is32Bit(crc) && FieldsOk(f) && forall i :: 0 <= i < |rs| ==> Fits(rs[i])
    ensures Replay(crc, EncodeAll(crc, rs) + rest, f) == rs + Replay(crc, rest, FieldsAfter(rs, f))
  {
    hide Encode, FieldsOf, Replay;
    if rs == [] {
      assert EncodeAll(crc, rs) + rest == rest;
      assert [] + Replay(crc, rest, f) == Replay(crc, rest, f);
    } else {
      var more := EncodeAll(crc, rs[1..]) + rest;
      assert EncodeAll(crc, rs) + rest == Encode(crc, rs[0]) + more;
      ReplayFirst(crc, rs[0], more, f);
      ReplayWhole(crc, rs[1..], rest, FieldsOf(rs[0]));
      assert rs == [rs[0]] + rs[1..];
      assert FieldsAfter(rs[1..], FieldsOf(rs[0])) == FieldsAfter(rs, f);
    }
  }

  /** The whole log replays to all its records, in order. */
  lemma {:induction false} ReplayAll(crc: Checksum, rs: seq<Record>)
    requires Is32Bit(crc) && forall i :: 0 <= i < |rs| ==> Fits(rs[i])
    ensures Replay(crc, EncodeAll(crc, rs), NO_FIELDS) == rs
  {
    hide Encode;
    ReplayWhole(crc, rs, [], NO_FIELDS);
    assert EncodeAll(crc, rs) + [] == EncodeAll(crc, rs);
  }

  // ---------- a torn tail ----------

  /** The tuple `replay` assembles from a record cut short, leftovers included. */
  function Torn(tail: Bytes, f: Fields): Record
    requires FieldsOk(f) && |tail| >= 4
  {
    ReadBody(Input(tail[4..], true), f).0
  }

  lemma {:induction false} TailLayout(crc: Checksum, r: Record, tail: Bytes)
    requires Is32Bit(crc) && tail <= Encode(crc, r) && 4 <= |tail| < |Encode(crc, r)|
    ensures FromLE(tail[..4]) == crc(r)
    ensures var body := Header(r) + r.key + r.value; tail[4..] <= body && |tail[4..]| < |body|
  {
    hide ToLE, FromLE, Header;
    var code := Encode(crc, r);
    var body := Header(r) + r.key + r.value;
    assert code == ToLE(crc(r), 4) + body;
    assert tail[..4] == code[..4] == ToLE(crc(r), 4);
    assert code[4..] == body;
    U32RoundTrip(crc(r));
  }

  /** A short record ends the replay: it is applied at most once, and only if its checksum matches. */
  lemma {:induction false} ReplayTorn(crc: Checksum, r: Record, tail: Bytes, f: Fields)
    requires Is32Bit(crc) && Fits(r) && FieldsOk(f)
    requires tail <= Encode(crc, r) && |tail| < |Encode(crc, r)|
    ensures Replay(crc, tail, f) == TornPart(crc, r, tail, f)
  {
    hide ToLE, FromLE, Header, ReadBody, Encode;
    if |tail| >= 4 {
      TailLayout(crc, r, tail);
      ShortBodyFails(r, tail[4..], f);
    }
  }

  function TornPart(crc: Checksum, r: Record, tail: Bytes, f: Fields): seq<Record>
    requires FieldsOk(f)
  {
    if |tail| >= 4 && crc(Torn(tail, f)) == crc(r) then [Torn(tail, f)] else []
  }

  /** Reading a body cut short leaves the stream failed. */
  lemma {:induction false} ShortBodyFails(r: Record, part: Bytes, f: Fields)
    requires Fits(r) && FieldsOk(f)
    requires part <= Header(r) + r.key + r.value && |part| < |Header(r) + r.key + r.value|
    ensures !ReadBody(Input(part, true), f).1.ok
  {
    hide ToLE, FromLE;
    if |part| >= 17 {
      assert part[..17] == Header(r);
      var rest := part[17..];
      assert part == Header(r) + rest;
      HeaderRead(r, rest, f);
    }
  }

  /** The fixed part of a record, read from its front. */
  lemma {:induction false} HeaderRead(r: Record, rest: Bytes, f: Fields)
    requires Fits(r) && FieldsOk(f)
    ensures ReadBody(Input(Header(r) + rest, true), f) ==
            var (k, i5) := Read(Input(rest, true), |r.key|, Zeros(|r.key|));
            var (v, i6) := Read(i5, |r.value|, Zeros(|r.value|));
            (Record(r.op, k, v, r.seqNo), i6, FieldsOf(r))
  {
    hide ToLE, FromLE, Read;
    var r4 := ToLE(|r.value|, 4) + rest;
    var r3 := ToLE(|r.key|, 4) + r4;
    var r2 := [r.op] + r3;
    assert Header(r) + rest == ToLE(r.seqNo, 8) + r2;
    U64RoundTrip(r.seqNo);
    U32RoundTrip(|r.key|);
    U32RoundTrip(|r.value|);
    ReadWhole(ToLE(r.seqNo, 8), r2, f.seqNo);
    ReadWhole([r.op], r3, f.op);
    ReadWhole(ToLE(|r.key|, 4), r4, f.keyLen);
    ReadWhole(ToLE(|r.value|, 4), rest, f.valueLen);
  }

  /** How many records lie wholly in a byte prefix of the log, and the bytes behind them. */
  function Whole(crc: Checksum, rs: seq<Record>, p: Bytes): (m: nat)
    ensures m <= |rs|
  {
    if rs == [] || |p| < |Encode(crc, rs[0])| then 0
    else 1 + Whole(crc, rs[1..], p[|Encode(crc, rs[0])|..])
  }

  function Tail(crc: Checksum, rs: seq<Record>, p: Bytes): Bytes {
    if rs == [] || |p| < |Encode(crc, rs[0])| then p
    else Tail(crc, rs[1..], p[|Encode(crc, rs[0])|..])
  }

  /** A prefix of `e + more` that reaches past `e` is `e` and a prefix of `more`. */
  lemma {:induction false} PrefixSplit(p: Bytes, e: Bytes, more: Bytes)
    requires p <= e + more && |p| >= |e|
    ensures p[..|e|] == e && p[|e|..] <= more
  {
    var all, q := e + more, p[|e|..];
    forall i | 0 <= i < |e| ensures p[i] == e[i] { assert p[i] == all[i]; }
    forall i | 0 <= i < |q| ensures q[i] == more[i] { assert q[i] == p[|e| + i] == all[|e| + i]; }
  }

  lemma {:induction false} PrefixShort(p: Bytes, e: Bytes, more: Bytes)
    requires p <= e + more && |p| < |e|
    ensures p <= e
  {
    var all := e + more;
    forall i | 0 <= i < |p| ensures p[i] == e[i] { assert p[i] == all[i]; }
  }

  lemma {:induction false} CutPrefix(crc: Checksum, rs: seq<Record>, p: Bytes)
    requires p <= EncodeAll(crc, rs)
    ensures var m, tail := Whole(crc, rs, p), Tail(crc, rs, p);
            && p == EncodeAll(crc, rs[..m]) + tail
            && (m == |rs| ==> tail == [])
            && (m < |rs| ==> tail <= Encode(crc, rs[m]) && |tail| < |Encode(crc, rs[m])|)
  {
    hide Encode, EncodeAll;
    if rs == [] {
      EncodeNothing(crc);
    } else {
      var e := Encode(crc, rs[0]);
      EncodeFront(crc, rs, |rs| - 1);
      assert rs[..|rs|] == rs && rs[1..][..|rs| - 1] == rs[1..];
      var more := EncodeAll(crc, rs[1..]);
      if |p| < |e| {
        assert rs[..0] == [];
        EncodeNothing(crc);
        PrefixShort(p, e, more);
      } else {
        PrefixSplit(p, e, more);
        CutPrefix(crc, rs[1..], p[|e|..]);
        var m := Whole(crc, rs[1..], p[|e|..]);
        EncodeFront(crc, rs, m);
        assert p == e + p[|e|..];
        Regroup(e, EncodeAll(crc, rs[1..][..m]), Tail(crc, rs, p));
      }
    }
  }

  lemma {:induction false} EncodeNothing(crc: Checksum)
    ensures EncodeAll(crc, []) == []
  {
  }

  lemma {:induction false} EncodeFront(crc: Checksum, rs: seq<Record>, m: nat)
    requires m < |rs|
    ensures EncodeAll(crc, rs[..m + 1]) == Encode(crc, rs[0]) + EncodeAll(crc, rs[1..][..m])
  {
    hide Encode;
    assert rs[..m + 1][0] == rs[0] && rs[..m + 1][1..] == rs[1..][..m];
  }

  /**
   * Replaying any byte prefix of a log: exactly the records that are wholly there, and behind them the
   * torn tuple if and only if its checksum happens to match.
   */
  lemma {:induction false} ReplayPrefixExact(crc: Checksum, rs: seq<Record>, p: Bytes)
    requires Is32Bit(crc) && (forall i :: 0 <= i < |rs| ==> Fits(rs[i])) && p <= EncodeAll(crc, rs)
    ensures var m, tail := Whole(crc, rs, p), Tail(crc, rs, p);
            Replay(crc, p, NO_FIELDS)
            == rs[..m] + if m < |rs| then TornPart(crc, rs[m], tail, FieldsAfter(rs[..m], NO_FIELDS)) else []
  {
    hide Encode, EncodeAll, TornPart, Whole, Tail;
    var m, tail := Whole(crc, rs, p), Tail(crc, rs, p);
    CutPrefix(crc, rs, p);
    var g := FieldsAfter(rs[..m], NO_FIELDS);
    ReplayWhole(crc, rs[..m], tail, NO_FIELDS);
    if m < |rs| { ReplayTorn(crc, rs[m], tail, g); } else { assert Replay(crc, [], g) == []; }
  }

  /** If the record cut short passes for whole, that is no accident of the checksum. */
  ghost predicate NoTornCollision(crc: Checksum, rs: seq<Record>, p: Bytes) {
    var m, tail := Whole(crc, rs, p), Tail(crc, rs, p);
    m < |rs| && |tail| >= 4 ==>
      var torn := Torn(tail, FieldsAfter(rs[..m], NO_FIELDS));
      crc(torn) == crc(rs[m]) ==> torn == rs[m]
  }

  /** Without a checksum collision on the torn tuple, a prefix of the bytes replays to a prefix of the records. */
  lemma {:induction false} ReplayPrefix(crc: Checksum, rs: seq<Record>, p: Bytes)
    requires Is32Bit(crc) && (forall i :: 0 <= i < |rs| ==> Fits(rs[i])) && p <= EncodeAll(crc, rs)
    requires NoTornCollision(crc, rs, p)
    ensures Replay(crc, p, NO_FIELDS) <= rs
    ensures Whole(crc, rs, p) <= |Replay(crc, p, NO_FIELDS)| <= Whole(crc, rs, p) + 1
  {
    hide Encode, EncodeAll, Whole, Tail, Replay, Torn, FieldsAfter;
    ReplayPrefixExact(crc, rs, p);
  }

  /** Damage ends the replay: behind whole records, bytes whose checksum does not match add nothing. */
  lemma {:induction false} DamageEndsReplay(crc: Checksum, rs: seq<Record>, rest: Bytes)
    requires Is32Bit(crc) && (forall i :: 0 <= i < |rs| ==> Fits(rs[i]))
    requires |rest| >= 4 ==> crc(Torn(rest, FieldsAfter(rs, NO_FIELDS))) != FromLE(rest[..4])
    ensures Replay(crc, EncodeAll(crc, rs) + rest, NO_FIELDS) == rs
  {
    hide Encode, EncodeAll, FieldsAfter, ReadBody, FromLE;
    ReplayWhole(crc, rs, rest, NO_FIELDS);
  }

  /** A record of which only the checksum is there takes every other field from the record before it. */
  lemma {:induction false} LeftoverFields(f: Fields)
    requires FieldsOk(f)
    ensures ReadBody(Input([], true), f).0
            == Record(f.op[0], Zeros(FromLE(f.keyLen)), Zeros(FromLE(f.valueLen)), FromLE(f.seqNo))
  {
    hide FromLE;
    assert [] + f.seqNo[0..] == f.seqNo;
    assert Zeros(FromLE(f.keyLen))[0..] == Zeros(FromLE(f.keyLen));
  }

  /** At the front of a log there is nothing left over. */
  lemma {:induction false} FourBytes(crc: Checksum, p: Bytes)
    requires |p| == 4
    ensures Replay(crc, p, NO_FIELDS) == if crc(Record(0, [], [], 0)) == FromLE(p) then [Record(0, [], [], 0)] else []
  {
    hide ReadBody;
    assert p[4..] == [] && p[..4] == p;
    LeftoverFields(NO_FIELDS);
    ZeroIsZero(4);
    ZeroIsZero(8);
    assert Zeros(0) == [];
    OneRound(crc, p);
  }

  lemma {:induction false} OneRound(crc: Checksum, p: Bytes)
    requires |p| == 4
    ensures var r := ReadBody(Input([], true), NO_FIELDS).0;
            Replay(crc, p, NO_FIELDS) == if crc(r) == FromLE(p) then [r] else []
  {
    hide FromLE;
    assert p[4..] == [] && p[..4] == p;
  }

  lemma {:induction false} ZeroIsZero(w: nat)
    ensures FromLE(Zeros(w)) == 0
  {
    if w > 0 {
      assert Zeros(w)[1..] == Zeros(w - 1);
      ZeroIsZero(w - 1);
    }
  }

  /** `bytes` is the log of the given records. */
  ghost predicate Encodes(crc: Checksum, rs: seq<Record>, bytes: Bytes) {
    Is32Bit(crc) && (forall i :: 0 <= i < |rs| ==> Fits(rs[i])) && bytes == EncodeAll(crc, rs)
  }

  /** Replay applies a prefix of the records, at least those that lie wholly in `p`. */
  ghost predicate AppliesPrefix(crc: Checksum, rs: seq<Record>, p: Bytes) {
    Replay(crc, p, NO_FIELDS) <= rs && Whole(crc, rs, p) <= |Replay(crc, p, NO_FIELDS)|
  }

  /** Records whose bytes a prefix covers lie wholly in it. */
  lemma {:induction false} CoveredIsWhole(crc: Checksum, rs: seq<Record>, n: nat, p: Bytes)
    requires p <= EncodeAll(crc, rs) && n <= |rs| && |EncodeAll(crc, rs[..n])| <= |p|
    ensures n <= Whole(crc, rs, p)
  {
    hide Encode;
    if n > 0 {
      var e := Encode(crc, rs[0]);
      EncodeFront(crc, rs, n - 1);
      PrefixSplit(p, e, EncodeAll(crc, rs[1..]));
      CoveredIsWhole(crc, rs[1..], n - 1, p[|e|..]);
    }
  }

  // ---------- the loop ----------

  /** One round of the loop on a stream that has not failed. */
  lemma {:induction false} ReplayRound(crc: Checksum, data: Bytes, f: Fields, checksum: Bytes)
    requires FieldsOk(f) && |checksum| == 4
    ensures var (c, i) := Read(Input(data, true), 4, checksum);
            var (r, rest, g) := ReadBody(i, f);
            Replay(crc, data, f) ==
            if i.ok && crc(r) == FromLE(c) then [r] + (if rest.ok then Replay(crc, rest.rest, g) else []) else []
  {
    hide ReadBody, FromLE;
  }

  /** `replay`, with the records it applies in order. */
  method ReplayFile(crc: Checksum, data: Bytes) returns (applied: seq<Record>)
    ensures applied == Replay(crc, data, NO_FIELDS)
  {
    hide ReadBody, FromLE, Replay;
    applied := [];
    var input, fields := Input(data, true), NO_FIELDS;
    var checksum := Zeros(4);
    var more := true;
    while more
      invariant FieldsOk(fields) && |checksum| == 4
      invariant Replay(crc, data, NO_FIELDS)
                == applied + if more && input.ok then Replay(crc, input.rest, fields) else []
      decreases more, |input.rest|
    {
      if input.ok { ReplayRound(crc, input.rest, fields, checksum); }
      var (c, i) := Read(input, 4, checksum);
      if !i.ok {
        more := false;
      } else {
        var (r, rest, f) := ReadBody(i, fields);
        if crc(r) == FromLE(c) {
          applied, input, fields, checksum := applied + [r], rest, f, c;
        } else {
          more := false;
        }
      }
    }
  }

  lemma {:induction false} EncodeAllAppend(crc: Checksum, rs: seq<Record>, r: Record)
    ensures EncodeAll(crc, rs + [r]) == EncodeAll(crc, rs) + Encode(crc, r)
  {
    hide Encode;
    if rs == [] {
      assert (rs + [r])[1..] == [];
    } else {
      assert (rs + [r])[1..] == rs[1..] + [r];
      EncodeAllAppend(crc, rs[1..], r);
    }
  }
}
