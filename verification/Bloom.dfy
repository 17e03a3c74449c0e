/** The Bloom filter (engine/src/bloom_filter.cpp). The hash is any function; the sizes are any numbers. */
module Bloom {
  import opened Types
  import opened Encoding

  /** `std::hash<std::string>`. */
  type Hasher = Bytes -> nat

  /** `bit_array_size_` is the number of bits; `probes` is `num_hash_functions_`. */
  datatype Filter = Filter(bits: seq<bool>, probes: nat)

  const SALT: Bytes := [115, 97, 108, 116]

  /** One probe position: `size_t` arithmetic, then the modulus. */
  function Position(h: Hasher, key: Bytes, i: nat, size: nat): (p: nat)
    requires size > 0
    ensures p < size
  {
    ((h(key) + i * h(key + SALT)) % TWO64) % size
  }

  function Positions(h: Hasher, key: Bytes, n: nat, size: nat): (ps: seq<nat>)
    requires size > 0
    ensures |ps| == n && forall i :: 0 <= i < n ==> ps[i] < size
  {
    seq(n, i requires 0 <= i < n => Position(h, key, i, size))
  }

  function SetAll(bits: seq<bool>, ps: seq<nat>): (r: seq<bool>)
    requires forall i :: 0 <= i < |ps| ==> ps[i] < |bits|
    ensures |r| == |bits|
    ensures forall p :: 0 <= p < |bits| ==> (r[p] <==> bits[p] || p in ps)
  {
    if ps == [] then bits
    else
      var n := |ps| - 1;
      assert ps == ps[..n] + [ps[n]];
      SetAll(bits, ps[..n])[ps[n] := true]
  }

  function Added(h: Hasher, f: Filter, key: Bytes): (g: Filter)
    requires f.bits != []
    ensures |g.bits| == |f.bits| && g.probes == f.probes
  {
    f.(bits := SetAll(f.bits, Positions(h, key, f.probes, |f.bits|)))
  }

  predicate Contains(h: Hasher, f: Filter, key: Bytes)
    requires f.bits != []
  {
    var ps := Positions(h, key, f.probes, |f.bits|);
    forall i :: 0 <= i < |ps| ==> f.bits[ps[i]]
  }

  function Empty(size: nat, probes: nat): Filter {
    Filter(seq(size, _ => false), probes)
  }

  function AddedAll(h: Hasher, f: Filter, keys: seq<Bytes>): (g: Filter)
    requires f.bits != []
    ensures |g.bits| == |f.bits| && g.probes == f.probes
  {
    if keys == [] then f else Added(h, AddedAll(h, f, keys[..|keys| - 1]), keys[|keys| - 1])
  }

  lemma {:induction false} AddedContains(h: Hasher, f: Filter, key: Bytes, other: Bytes)
    requires f.bits != []
    ensures Contains(h, Added(h, f, key), key)
    ensures Contains(h, f, other) ==> Contains(h, Added(h, f, key), other)
  {
    hide Position;
    var ps := Positions(h, key, f.probes, |f.bits|);
    assert forall i :: 0 <= i < |ps| ==> ps[i] in ps;
  }

  /** No false negatives: every added key is found. */
  lemma {:induction false} NoFalseNegatives(h: Hasher, f: Filter, keys: seq<Bytes>, i: nat)
    requires f.bits != [] && i < |keys|
    ensures Contains(h, AddedAll(h, f, keys), keys[i])
  {
    var n := |keys| - 1;
    if i < n { NoFalseNegatives(h, f, keys[..n], i); }
    AddedContains(h, AddedAll(h, f, keys[..n]), keys[n], keys[i]);
  }

  /** Where a probe goes. */
  lemma {:induction false} ProbeFormula(h: Hasher, key: Bytes, i: nat, size: nat)
    requires size > 0
    ensures Position(h, key, i, size)
            == ((h(key) + i * h(key + [115, 97, 108, 116])) % 0x1_0000_0000_0000_0000) % size
  {
  }

  /** Bit `p` is probed by one of the keys. */
  ghost predicate Probed(h: Hasher, keys: seq<Bytes>, probes: nat, size: nat, p: nat)
    requires size > 0
  {
    exists j, i :: 0 <= j < |keys| && 0 <= i < probes && Position(h, keys[j], i, size) == p
  }

  lemma {:induction false} BitsAreProbed(h: Hasher, f: Filter, keys: seq<Bytes>, p: nat)
    requires f.bits != [] && p < |f.bits|
    ensures AddedAll(h, f, keys).bits[p] <==> f.bits[p] || Probed(h, keys, f.probes, |f.bits|, p)
  {
    hide Position;
    if keys != [] {
      var n, size := |keys| - 1, |f.bits|;
      BitsAreProbed(h, f, keys[..n], p);
      var ps := Positions(h, keys[n], f.probes, size);
      if p in ps {
        var i :| 0 <= i < |ps| && ps[i] == p;
        assert Position(h, keys[n], i, size) == p;
      }
      if Probed(h, keys[..n], f.probes, size, p) {
        var j, i :| 0 <= j < n && 0 <= i < f.probes && Position(h, keys[..n][j], i, size) == p;
        assert Position(h, keys[j], i, size) == p;
      }
      if Probed(h, keys, f.probes, size, p) {
        var j, i :| 0 <= j < |keys| && 0 <= i < f.probes && Position(h, keys[j], i, size) == p;
        if j < n { assert keys[..n][j] == keys[j]; } else { assert ps[i] == p; }
      }
    }
  }

  /** A filter built from the keys contains exactly the keys all of whose probes are probes of added keys. */
  lemma {:induction false} ContainsExactly(h: Hasher, size: nat, probes: nat, keys: seq<Bytes>, k: Bytes)
    requires size > 0
    ensures Contains(h, AddedAll(h, Empty(size, probes), keys), k) <==>
            forall i :: 0 <= i < probes ==> Probed(h, keys, probes, size, Position(h, k, i, size))
  {
    hide Position, Probed, AddedAll;
    var f := Empty(size, probes);
    var g := AddedAll(h, f, keys);
    var ps := Positions(h, k, probes, size);
    assert |ps| == probes && forall i :: 0 <= i < probes ==> ps[i] == Position(h, k, i, size);
    forall i | 0 <= i < probes
      ensures g.bits[ps[i]] <==> Probed(h, keys, probes, size, Position(h, k, i, size))
    {
      BitsAreProbed(h, f, keys, ps[i]);
    }
  }

  /** A new filter contains nothing. */
  lemma {:induction false} EmptyContainsNothing(h: Hasher, size: nat, probes: nat, k: Bytes)
    requires size > 0 && probes > 0
    ensures !Contains(h, Empty(size, probes), k)
  {
    hide Position, Probed;
    ContainsExactly(h, size, probes, [], k);
    NothingProbed(h, probes, size, Position(h, k, 0, size));
  }

  lemma {:induction false} NothingProbed(h: Hasher, probes: nat, size: nat, p: nat)
    requires size > 0
    ensures !Probed(h, [], probes, size, p)
  {
  }

  // ---------- bits in bytes ----------

  function Pow2(t: nat): nat {
    if t == 0 then 1 else 2 * Pow2(t - 1)
  }

  /** `b & (1 << t)`. */
  predicate TestBit(b: nat, t: nat) {
    if t == 0 then b % 2 == 1 else TestBit(b / 2, t - 1)
  }

  /** `b | (1 << t)`. */
  function WithBit(b: nat, t: nat): nat {
    if t == 0 then b - b % 2 + 1 else 2 * WithBit(b / 2, t - 1) + b % 2
  }

  /** Bit `t` alone is worth 2 to the `t`. */
  lemma {:induction false} PowerHasOneBit(t: nat, u: nat)
    ensures TestBit(Pow2(t), u) <==> t == u
  {
    if t > 0 {
      if u > 0 { PowerHasOneBit(t - 1, u - 1); }
    } else if u > 0 {
      ZeroHasNoBits(u - 1);
    }
  }

  lemma {:induction false} WithBitSets(b: nat, t: nat, u: nat)
    ensures TestBit(WithBit(b, t), u) <==> t == u || TestBit(b, u)
  {
    if t > 0 && u > 0 { WithBitSets(b / 2, t - 1, u - 1); }
  }

  lemma {:induction false} WithBitFits(b: nat, t: nat, n: nat)
    requires b < Pow2(n) && t < n
    ensures WithBit(b, t) < Pow2(n)
  {
    var p := Pow2(n - 1);
    assert Pow2(n) == 2 * p && b / 2 < p;
    if t > 0 {
      WithBitFits(b / 2, t - 1, n - 1);
      assert WithBit(b / 2, t - 1) <= p - 1 && b % 2 <= 1;
    }
  }

  lemma {:induction false} ZeroHasNoBits(t: nat)
    ensures !TestBit(0, t)
  {
    if t > 0 { ZeroHasNoBits(t - 1); }
  }

  /** A number is its bits. */
  lemma {:induction false} BitsDetermine(a: nat, b: nat, n: nat)
    requires a < Pow2(n) && b < Pow2(n) && forall t :: 0 <= t < n ==> (TestBit(a, t) <==> TestBit(b, t))
    ensures a == b
  {
    if n > 0 {
      assert TestBit(a, 0) <==> TestBit(b, 0);
      forall t | 0 <= t < n - 1 ensures TestBit(a / 2, t) <==> TestBit(b / 2, t) {
        assert TestBit(a, t + 1) <==> TestBit(b, t + 1);
      }
      BitsDetermine(a / 2, b / 2, n - 1);
    }
  }

  lemma {:induction false} ByteWidth()
    ensures Pow2(8) == 256
  {
    assert Pow2(4) == 16;
    assert Pow2(6) == 2 * Pow2(5);
  }

  // ---------- serialization ----------

  function NumBytes(size: nat): nat {
    (size + 7) / 8
  }

  /** Bit `p` of a packed array. */
  predicate BitAt(data: Bytes, p: nat)
    requires p / 8 < |data|
  {
    TestBit(data[p / 8] as nat, p % 8)
  }

  /** The packed bytes hold the bits, and nothing in the padding. */
  ghost predicate Packs(data: Bytes, bits: seq<bool>) {
    && |data| == NumBytes(|bits|)
    && forall p :: 0 <= p < 8 * |data| ==> (BitAt(data, p) <==> p < |bits| && bits[p])
  }

  /** Packing has one result. */
  lemma {:induction false} PackingUnique(a: Bytes, b: Bytes, bits: seq<bool>)
    requires Packs(a, bits) && Packs(b, bits)
    ensures a == b
  {
    forall j | 0 <= j < |a| ensures a[j] == b[j] {
      ByteWidth();
      var x, y := a[j] as nat, b[j] as nat;
      forall t | 0 <= t < 8 ensures TestBit(x, t) <==> TestBit(y, t) {
        var p := 8 * j + t;
        assert p / 8 == j && p % 8 == t;
        assert BitAt(a, p) <==> BitAt(b, p);
      }
      BitsDetermine(x, y, 8);
    }
  }

  /** The bit-setting loop of `serialize`. */
  method Pack(bits: seq<bool>) returns (data: Bytes)
    ensures Packs(data, bits)
  {
    data := seq(NumBytes(|bits|), _ => 0 as byte);
    forall p | 0 <= p < 8 * |data| ensures !BitAt(data, p) { ZeroHasNoBits(p % 8); }
    for i := 0 to |bits|
      invariant |data| == NumBytes(|bits|)
      invariant forall p :: 0 <= p < 8 * |data| ==> (BitAt(data, p) <==> p < i && bits[p])
    {
      if bits[i] { data := SetBitAt(data, i); }
    }
  }

  method SetBitAt(data: Bytes, i: nat) returns (r: Bytes)
    requires i / 8 < |data|
    ensures |r| == |data| && forall p :: 0 <= p < 8 * |data| ==> (BitAt(r, p) <==> p == i || BitAt(data, p))
  {
    ByteWidth();
    var j, t := i / 8, i % 8;
    WithBitFits(data[j] as nat, t, 8);
    r := data[j := WithBit(data[j] as nat, t) as byte];
    forall p | 0 <= p < 8 * |data| ensures BitAt(r, p) <==> p == i || BitAt(data, p) {
      if p / 8 == j {
        WithBitSets(data[j] as nat, t, p % 8);
        assert p == 8 * j + p % 8 && i == 8 * j + t;
      }
    }
  }

  /** The unpacking loop of `deserialize`. */
  function Unpack(data: Bytes, size: nat): (bits: seq<bool>)
    requires size <= 8 * |data|
    ensures |bits| == size
  {
    seq(size, p requires 0 <= p < size => BitAt(data, p))
  }

  lemma {:induction false} UnpackPacked(data: Bytes, bits: seq<bool>)
    requires Packs(data, bits)
    ensures |bits| <= 8 * |data| && Unpack(data, |bits|) == bits
  {
    hide TestBit;
  }

  /** `data` is `serialize()` of the filter: size, probes, byte count, packed bits. */
  ghost predicate Serializes(data: Bytes, f: Filter) {
    && |data| >= 24
    && data[..8] == ToLE(|f.bits|, 8) && data[8..16] == ToLE(f.probes, 8)
    && data[16..24] == ToLE(NumBytes(|f.bits|), 8) && Packs(data[24..], f.bits)
  }

  method Serialize(f: Filter) returns (data: Bytes)
    ensures Serializes(data, f)
  {
    hide ToLE, Packs;
    var packed := Pack(f.bits);
    data := ToLE(|f.bits|, 8) + ToLE(f.probes, 8) + ToLE(NumBytes(|f.bits|), 8) + packed;
    assert data[24..] == packed;
  }

  function Deserialize(data: Bytes): Option<Filter> {
    if |data| < 24 then None
    else
      var size := FromLE(data[..8]);
      if size > 8 * |data[24..]| then None
      else Some(Filter(Unpack(data[24..], size), FromLE(data[8..16])))
  }

  /** A filter is restored from its bytes. */
  lemma {:induction false} FilterRoundTrip(data: Bytes, f: Filter)
    requires Serializes(data, f) && |f.bits| < TWO64 && f.probes < TWO64
    ensures Deserialize(data) == Some(f)
  {
    hide ToLE, FromLE, Packs, Unpack;
    U64RoundTrip(|f.bits|);
    U64RoundTrip(f.probes);
    UnpackPacked(data[24..], f.bits);
  }

  // ---------- the filter object ----------

  class BloomFilter {
    var bits: seq<bool>
    const probes: nat
    const hasher: Hasher

    ghost function Model(): Filter
      reads this
    {
      Filter(bits, probes)
    }

    constructor (hasher: Hasher, size: nat, probes: nat)
      ensures Model() == Empty(size, probes) && this.hasher == hasher
    {
      this.hasher, this.probes := hasher, probes;
      bits := seq(size, _ => false);
    }

    method Add(key: Bytes)
      requires bits != []
      modifies this
      ensures bits != [] && Model() == Added(hasher, old(Model()), key)
    {
      hide Position;
      var ps := Positions(hasher, key, probes, |bits|);
      var before := bits;
      for i := 0 to |ps|
        invariant |bits| == |before| && bits == SetAll(before, ps[..i])
      {
        assert ps[..i + 1][..i] == ps[..i];
        bits := bits[ps[i] := true];
      }
      assert ps[..|ps|] == ps;
    }

    method ContainsKey(key: Bytes) returns (found: bool)
      requires bits != []
      ensures found == Contains(hasher, Model(), key)
    {
      hide Position;
      var ps := Positions(hasher, key, probes, |bits|);
      for i := 0 to |ps|
        invariant forall j :: 0 <= j < i ==> bits[ps[j]]
      {
        if !bits[ps[i]] { return false; }
      }
      found := true;
    }
  }
}
