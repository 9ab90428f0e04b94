/** Bytes, exclusive or, and the big-endian integers of network headers. */
module Bytes {
  type byte = b: int | 0 <= b < 256

  function Pow2(k: nat): (p: nat)
    ensures p > 0
  {
    if k == 0 then 1 else 2 * Pow2(k - 1)
  }

  /** Exclusive or of two k-bit numbers, lowest bit first. */
  function XorBits(a: nat, b: nat, k: nat): (r: nat)
    requires a < Pow2(k) && b < Pow2(k)
    ensures r < Pow2(k)
  {
    if k == 0 then 0 else 2 * XorBits(a / 2, b / 2, k - 1) + (a % 2 + b % 2) % 2
  }

  lemma {:induction false} XorBitsTwice(a: nat, b: nat, k: nat)
    requires a < Pow2(k) && b < Pow2(k)
    ensures XorBits(XorBits(a, b, k), b, k) == a
  {
    if k > 0 {
      XorBitsTwice(a / 2, b / 2, k - 1);
      SplitBit(XorBits(a / 2, b / 2, k - 1), (a % 2 + b % 2) % 2);
      BitTwice(a % 2, b % 2);
    }
  }

  /** Exclusive or with all ones is the complement. */
  lemma {:induction false} XorBitsOnes(a: nat, k: nat)
    requires a < Pow2(k)
    ensures XorBits(a, Pow2(k) - 1, k) == Pow2(k) - 1 - a
  {
    if k > 0 {
      XorBitsOnes(a / 2, k - 1);
      SplitBit(Pow2(k - 1) - 1, 1);
      SplitBit(a / 2, a % 2);
    }
  }

  lemma SplitBit(high: nat, low: nat)
    requires low < 2
    ensures (2 * high + low) / 2 == high && (2 * high + low) % 2 == low
  {}

  lemma BitTwice(a: nat, b: nat)
    requires a < 2 && b < 2
    ensures ((a + b) % 2 + b) % 2 == a
  {}

  lemma EightBits()
    ensures Pow2(8) == 256
  {
    assert Pow2(4) == 16;
  }

  /** The `^` operator on bytes. */
  function Xor(a: byte, b: byte): byte {
    EightBits();
    XorBits(a, b, 8)
  }

  /** Bit i of the result is set exactly when the bits i of the operands differ. */
  lemma XorBit(a: byte, b: byte, i: nat)
    requires i < 8
    ensures Xor(a, b) / Pow2(i) % 2 == (a / Pow2(i) % 2 + b / Pow2(i) % 2) % 2
  {
    EightBits();
    XorBitsAt(a, b, 8, i);
    BitOfIs(a, i);
    BitOfIs(b, i);
    BitOfIs(Xor(a, b), i);
  }

  function BitOf(n: nat, i: nat): nat {
    if i == 0 then n % 2 else BitOf(n / 2, i - 1)
  }

  lemma {:induction false} BitOfIs(n: nat, i: nat)
    requires i < 8
    ensures BitOf(n, i) == n / Pow2(i) % 2
  {
    if i > 0 {
      BitOfIs(n / 2, i - 1);
      HalfThenRest(n, i);
    }
  }

  lemma {:induction false} XorBitsAt(a: nat, b: nat, k: nat, i: nat)
    requires a < Pow2(k) && b < Pow2(k) && i < k
    ensures BitOf(XorBits(a, b, k), i) == (BitOf(a, i) + BitOf(b, i)) % 2
  {
    SplitBit(XorBits(a / 2, b / 2, k - 1), (a % 2 + b % 2) % 2);
    if i > 0 {
      XorBitsAt(a / 2, b / 2, k - 1, i - 1);
    }
  }

  lemma SmallPowers()
    ensures Pow2(0) == 1 && Pow2(1) == 2 && Pow2(2) == 4 && Pow2(3) == 8
    ensures Pow2(4) == 16 && Pow2(5) == 32 && Pow2(6) == 64 && Pow2(7) == 128
  {}

  lemma HalfThenRest(n: nat, i: nat)
    requires 0 < i < 8
    ensures n / Pow2(i) == n / 2 / Pow2(i - 1)
  {
    SmallPowers();
    if i == 1 {
      assert n / 2 == n / 2 / 1;
    } else if i == 2 {
      assert n / 4 == n / 2 / 2;
    } else if i == 3 {
      assert n / 8 == n / 2 / 4;
    } else if i == 4 {
      assert n / 16 == n / 2 / 8;
    } else if i == 5 {
      assert n / 32 == n / 2 / 16;
    } else if i == 6 {
      assert n / 64 == n / 2 / 32;
    } else {
      assert n / 128 == n / 2 / 64;
    }
  }

  lemma XorTwice(a: byte, b: byte)
    ensures Xor(Xor(a, b), b) == a
  {
    EightBits();
    XorBitsTwice(a, b, 8);
  }

  lemma XorOnes(a: byte)
    ensures Xor(a, 0xFF) == 255 - a
  {
    EightBits();
    XorBitsOnes(a, 8);
  }

  function Pow256(k: nat): (p: nat)
    ensures p > 0
  {
    if k == 0 then 1 else 256 * Pow256(k - 1)
  }

  /** Python's int.from_bytes(s, "big"). */
  function FromBigEndian(s: seq<byte>): (n: nat)
    ensures n < Pow256(|s|)
  {
    if s == [] then 0 else FromBigEndian(s[..|s| - 1]) * 256 + s[|s| - 1]
  }

  /** Python's n.to_bytes(k, "big"), on the values it accepts; it inverts FromBigEndian. */
  function ToBigEndian(n: nat, k: nat): (s: seq<byte>)
    requires n < Pow256(k)
    ensures |s| == k && FromBigEndian(s) == n
  {
    if k == 0 then []
    else
      var high := ToBigEndian(n / 256, k - 1);
      assert (high + [n % 256])[..k - 1] == high;
      high + [n % 256]
  }

  /** The first byte is the most significant one. */
  lemma {:induction false} FirstWeighsMost(b: byte, s: seq<byte>)
    ensures FromBigEndian([b] + s) == b * Pow256(|s|) + FromBigEndian(s)
  {
    var t := [b] + s;
    if s == [] {
      assert t[..0] == [];
    } else {
      var k := |s| - 1;
      assert t[..|t| - 1] == [b] + s[..k];
      FirstWeighsMost(b, s[..k]);
      assert (b * Pow256(k) + FromBigEndian(s[..k])) * 256 == b * Pow256(k + 1) + FromBigEndian(s[..k]) * 256;
    }
  }

  /** Two bytes: the high one, then the low one. */
  lemma TwoBytes(n: nat)
    requires n < 0x1_0000
    ensures n < Pow256(2) && ToBigEndian(n, 2) == [n / 256, n % 256] && FromBigEndian([n / 256, n % 256]) == n
  {
    Pow256Values();
    assert ToBigEndian(n / 256, 1) == ToBigEndian(n / 256 / 256, 0) + [n / 256 % 256] == [n / 256];
  }

  lemma Pow256Values()
    ensures Pow256(2) == 0x1_0000
    ensures Pow256(8) == 0x1_0000_0000_0000_0000
  {
    assert Pow256(4) == 0x1_0000_0000;
    assert Pow256(6) == 0x1_0000_0000_0000;
  }
}
