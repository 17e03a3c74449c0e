/** Integers as the little-endian bytes the program writes from memory. */
module Encoding {
  import opened Types

  /** `std::string(n, '\0')`. */
  function Zeros(n: nat): (b: Bytes)
    ensures |b| == n
  {
    seq(n, _ => 0 as byte)
  }

  function Pow256(w: nat): nat {
    if w == 0 then 1 else 256 * Pow256(w - 1)
  }

  function ToLE(n: nat, w: nat): (b: Bytes)
    ensures |b| == w
  {
    if w == 0 then [] else [(n % 256) as byte] + ToLE(n / 256, w - 1)
  }

  function FromLE(b: Bytes): nat {
    if b == [] then 0 else b[0] as nat + 256 * FromLE(b[1..])
  }

  lemma {:induction false} LERoundTrip(n: nat, w: nat)
    requires n < Pow256(w)
    ensures FromLE(ToLE(n, w)) == n
  {
    if w > 0 {
      LERoundTrip(n / 256, w - 1);
      assert ToLE(n, w)[1..] == ToLE(n / 256, w - 1);
    }
  }

  const TWO32 := 0x1_0000_0000
  const TWO64 := 0x1_0000_0000_0000_0000

  lemma {:induction false} Widths()
    ensures Pow256(1) == 256 && Pow256(4) == TWO32 && Pow256(8) == TWO64
  {
    assert Pow256(2) == 256 * Pow256(1);
    assert Pow256(3) == 256 * Pow256(2);
    assert Pow256(5) == 256 * Pow256(4);
    assert Pow256(6) == 256 * Pow256(5);
    assert Pow256(7) == 256 * Pow256(6);
  }

  lemma {:induction false} U32RoundTrip(n: nat)
    requires n < TWO32
    ensures FromLE(ToLE(n, 4)) == n
  {
    Widths();
    LERoundTrip(n, 4);
  }

  lemma {:induction false} U64RoundTrip(n: nat)
    requires n < TWO64
    ensures FromLE(ToLE(n, 8)) == n
  {
    Widths();
    LERoundTrip(n, 8);
  }

  lemma {:induction false} Regroup(a: Bytes, b: Bytes, c: Bytes)
    ensures a + (b + c) == a + b + c
  {
  }

  /** The least significant byte comes first. */
  lemma {:induction false} LittleEndian(b: Bytes)
    ensures |b| == 4 ==>
              FromLE(b) == b[0] as nat + 256 * b[1] as nat + 65_536 * b[2] as nat + 16_777_216 * b[3] as nat
    ensures |b| == 8 ==>
              FromLE(b) == FromLE(b[..4]) + 0x1_0000_0000 * FromLE(b[4..])
  {
    if |b| == 4 || |b| == 8 {
      assert b[1..][1..] == b[2..] && b[2..][1..] == b[3..] && b[3..][1..] == b[4..];
      assert FromLE(b) == b[0] as nat + 256 * FromLE(b[1..]);
      assert FromLE(b[1..]) == b[1] as nat + 256 * FromLE(b[2..]);
      assert FromLE(b[2..]) == b[2] as nat + 256 * FromLE(b[3..]);
      assert FromLE(b[3..]) == b[3] as nat + 256 * FromLE(b[4..]);
    }
    if |b| == 8 {
      var c := b[..4];
      LittleEndian(c);
    }
  }

  /** A number below 256 is its own first byte. */
  lemma {:induction false} SmallNumber(n: nat, w: nat)
    requires n < 256 && w >= 1
    ensures ToLE(n, w) == [n as byte] + Zeros(w - 1)
  {
    ZeroBytes(w - 1);
  }

  lemma {:induction false} ZeroBytes(w: nat)
    ensures ToLE(0, w) == Zeros(w)
  {
    if w > 0 { ZeroBytes(w - 1); }
  }
}
