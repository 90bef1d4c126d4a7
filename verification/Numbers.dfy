/** Arithmetic shared by the codecs, the predecessor index and the proof-of-work search:
    powers of two, bitwise "or" and one-bit counts on unbounded naturals, and fixed-width
    big-endian numbers over byte sequences. */
module Numbers {

  /** An octet. The source's `u8`. */
  type byte = x: int | 0 <= x < 256

  type i32 = x: int | -0x8000_0000 <= x < 0x8000_0000

  // ------------------------------------------------------------------ powers of two

  function Pow2(n: nat): (p: nat)
    ensures p >= 1
  {
    if n == 0 then 1 else 2 * Pow2(n - 1)
  }

  lemma {:induction false} Pow2Add(m: nat, n: nat)
    ensures Pow2(m + n) == Pow2(m) * Pow2(n)
  {
    if m > 0 {
      Pow2Add(m - 1, n);
      assert Pow2(m + n) == 2 * (Pow2(m - 1) * Pow2(n));
    }
  }

  lemma {:induction false} Pow2Monotone(m: nat, n: nat)
    requires m <= n
    ensures Pow2(m) <= Pow2(n)
    ensures m < n ==> Pow2(m) < Pow2(n)
  {
    if m < n {
      Pow2Monotone(m, n - 1);
    }
  }

  /** The powers that appear as literal constants in the source. */
  lemma Pow2Values()
    ensures Pow2(8) == 0x100 && Pow2(11) == 2048 && Pow2(12) == 4096
    ensures Pow2(30) == 0x4000_0000 && Pow2(31) == 0x8000_0000
  {
    assert Pow2(4) == 16;
    assert Pow2(8) == 256;
    assert Pow2(12) == 4096;
    assert Pow2(16) == 65536;
    assert Pow2(20) == 0x10_0000;
    assert Pow2(24) == 0x100_0000;
    assert Pow2(28) == 0x1000_0000;
  }

  // ------------------------------------------------------------------ bits

  /** Bit `k` of `x`; the source tests it as `x & (1 << k) != 0`. */
  predicate Bit(x: nat, k: nat) {
    if k == 0 then x % 2 == 1 else Bit(x / 2, k - 1)
  }

  /** Bitwise or of two naturals. */
  function BitOr(x: nat, y: nat): nat {
    if x == 0 then y
    else if y == 0 then x
    else 2 * BitOr(x / 2, y / 2) + (if x % 2 == 1 || y % 2 == 1 then 1 else 0)
  }

  function OneBits(x: nat): nat {
    if x == 0 then 0 else x % 2 + OneBits(x / 2)
  }

  lemma {:induction false} ZeroHasNoBits(k: nat)
    ensures !Bit(0, k)
  {
    if k > 0 {
      ZeroHasNoBits(k - 1);
    }
  }

  lemma BitOrStep(x: nat, y: nat)
    ensures x == 0 ==> BitOr(x, y) == y
    ensures y == 0 ==> BitOr(x, y) == x
    ensures x != 0 && y != 0 ==> BitOr(x, y) / 2 == BitOr(x / 2, y / 2)
    ensures BitOr(x, y) % 2 == (if x % 2 == 1 || y % 2 == 1 then 1 else 0)
  {
  }

  /** `BitOr` is the bitwise or: every bit of the result is the or of the operands' bits. */
  lemma {:induction false} BitOrBits(x: nat, y: nat, k: nat)
    ensures Bit(BitOr(x, y), k) <==> Bit(x, k) || Bit(y, k)
    decreases k
  {
    BitOrStep(x, y);
    hide BitOr;
    if x == 0 || y == 0 {
      ZeroHasNoBits(k);
    } else if k > 0 {
      BitOrBits(x / 2, y / 2, k - 1);
    }
  }

  lemma {:induction false} BitOrBounded(x: nat, y: nat, n: nat)
    requires x < Pow2(n) && y < Pow2(n)
    ensures BitOr(x, y) < Pow2(n)
  {
    if x != 0 && y != 0 {
      BitOrBounded(x / 2, y / 2, n - 1);
    }
  }

  /** Or-ing the `k` low bits into a number whose `k` low bits are clear adds them. */
  lemma {:induction false} BitOrDisjoint(m: nat, k: nat)
    ensures BitOr(m * Pow2(k), Pow2(k) - 1) == m * Pow2(k) + Pow2(k) - 1
  {
    if k > 0 && m > 0 {
      var p := Pow2(k - 1);
      assert m * Pow2(k) == 2 * (m * p);
      assert m * p >= 1 by { MulPositive(m, p); }
      assert (2 * (m * p)) / 2 == m * p && (2 * p - 1) / 2 == p - 1;
      BitOrDisjoint(m, k - 1);
    }
  }

  lemma MulPositive(a: nat, b: nat)
    requires a >= 1 && b >= 1
    ensures a * b >= 1
  {
  }

  lemma OneBitsStep(x: nat)
    ensures OneBits(x) == x % 2 + OneBits(x / 2)
  {
  }

  lemma HalveSum(x: nat, y: nat)
    ensures (2 * x + y) / 2 == x + y / 2 && (2 * x + y) % 2 == y % 2
  {
  }

  /** A sum of a power of two and a smaller rest has one more one-bit than the rest. */
  lemma {:induction false} OneBitsAddPower(p: nat, rest: nat)
    requires rest < Pow2(p)
    ensures OneBits(Pow2(p) + rest) == 1 + OneBits(rest)
  {
    if p == 0 {
      assert OneBits(1) == 1 + OneBits(0);
    } else {
      hide OneBits;
      OneBitsAddPower(p - 1, rest / 2);
      HalveSum(Pow2(p - 1), rest);
      OneBitsStep(Pow2(p) + rest);
      OneBitsStep(rest);
    }
  }

  // ------------------------------------------------------------------ big-endian numbers

  /** The bits of `x + 2^n * y` below `n` are those of `x`, the others those of `y`. */
  lemma {:induction false} BitOfSum(x: nat, y: nat, n: nat, k: nat)
    requires x < Pow2(n)
    ensures Bit(x + Pow2(n) * y, k) == if k < n then Bit(x, k) else Bit(y, k - n)
    decreases n
  {
    if n > 0 {
      var p := Pow2(n - 1);
      assert Pow2(n) == 2 * p;
      hide Bit, Pow2;
      DoubleFactor(p, y);
      HalveSum(p * y, x);
      BitStep(x, k);
      BitStep(x + 2 * (p * y), k);
      if k > 0 {
        BitOfSum(x / 2, y, n - 1, k - 1);
      }
    }
  }

  lemma BitStep(x: nat, k: nat)
    ensures Bit(x, k) == if k == 0 then x % 2 == 1 else Bit(x / 2, k - 1)
  {
  }

  lemma DoubleFactor(p: nat, y: nat)
    ensures (2 * p) * y == 2 * (p * y)
  {
  }

  /** The top bit tells whether a number reaches the power. */
  lemma {:induction false} TopBit(x: nat, n: nat)
    requires x < Pow2(n + 1)
    ensures Bit(x, n) <==> x >= Pow2(n)
    decreases n
  {
    if n > 0 {
      TopBit(x / 2, n - 1);
    }
  }

  /** A number is below a power exactly when its bits from there on are clear. */
  lemma {:induction false} BelowIffClear(x: nat, n: nat, width: nat)
    requires x < Pow2(width) && n <= width
    ensures x < Pow2(n) <==> forall k :: n <= k < width ==> !Bit(x, k)
    decreases width - n
  {
    if n < width {
      BelowIffClear(x, n + 1, width);
      if x < Pow2(n + 1) {
        TopBit(x, n);
      } else {
        assert Pow2(n + 1) == 2 * Pow2(n);
      }
    }
  }

  function Pow256(n: nat): (p: nat)
    ensures p >= 1
  {
    if n == 0 then 1 else 256 * Pow256(n - 1)
  }

  /** The number a byte string denotes, most significant byte first. */
  function FromBe(s: seq<byte>): nat {
    if s == [] then 0 else 256 * FromBe(s[..|s| - 1]) + s[|s| - 1]
  }

  /** The low `width` bytes of `x`, most significant byte first. */
  function ToBe(x: nat, width: nat): (s: seq<byte>)
    ensures |s| == width
  {
    if width == 0 then [] else ToBe(x / 256, width - 1) + [x % 256]
  }

  lemma {:induction false} FromBeBounded(s: seq<byte>)
    ensures FromBe(s) < Pow256(|s|)
  {
    if s != [] {
      FromBeBounded(s[..|s| - 1]);
    }
  }

  /** Reading back a written number gives the number, for every number that fits. */
  lemma {:induction false} FromToBe(x: nat, width: nat)
    requires x < Pow256(width)
    ensures FromBe(ToBe(x, width)) == x
  {
    if width > 0 {
      FromToBe(x / 256, width - 1);
      assert ToBe(x, width)[..width - 1] == ToBe(x / 256, width - 1);
    }
  }

  /** Writing a number that was read gives the bytes it was read from. */
  lemma {:induction false} ToFromBe(s: seq<byte>)
    ensures ToBe(FromBe(s), |s|) == s
  {
    if s != [] {
      ToFromBe(s[..|s| - 1]);
      assert s == s[..|s| - 1] + [s[|s| - 1]];
    }
  }

  lemma {:induction false} FromBeConcat(s: seq<byte>, t: seq<byte>)
    ensures FromBe(s + t) == FromBe(s) * Pow256(|t|) + FromBe(t)
  {
    if t == [] {
      assert s + t == s;
    } else {
      var t' := t[..|t| - 1];
      assert (s + t)[..|s + t| - 1] == s + t';
      FromBeConcat(s, t');
      assert (s + t)[|s + t| - 1] == t[|t| - 1];
      ScaleFactor(FromBe(s), Pow256(|t'|), FromBe(t'));
    }
  }

  lemma ScaleFactor(a: nat, p: nat, b: nat)
    ensures 256 * (a * p + b) == a * (256 * p) + 256 * b
  {
  }

  /** Two's complement, as `i32::to_be_bytes` writes it. */
  function EncodeI32(x: i32): seq<byte> {
    ToBe(if x < 0 then x + 0x1_0000_0000 else x, 4)
  }

  function DecodeI32(s: seq<byte>): i32
    requires |s| == 4
  {
    FromBeBounded(s);
    assert Pow256(4) == 0x1_0000_0000;
    var x := FromBe(s);
    if x >= 0x8000_0000 then x - 0x1_0000_0000 else x
  }

  /** Four bytes, the most significant first; the top bit stands for -2^31. */
  function Signed32(b3: int, b2: int, b1: int, b0: int): int {
    0x100_0000 * b3 + 0x1_0000 * b2 + 0x100 * b1 + b0 - (if b3 >= 128 then 0x1_0000_0000 else 0)
  }

  lemma DecodeI32Bytes(s: seq<byte>)
    requires |s| == 4
    ensures DecodeI32(s) == Signed32(s[0], s[1], s[2], s[3])
  {
    assert s[..3][..2][..1][..0] == [];
    assert FromBe(s[..3][..2][..1]) == s[0];
    var b3: int, b2: int, b1: int := s[0], s[1], s[2];
    assert FromBe(s[..3][..2]) == 256 * b3 + b2;
    assert FromBe(s[..3]) == 0x1_0000 * b3 + 256 * b2 + b1;
  }

  lemma I32RoundTrip(x: i32)
    ensures DecodeI32(EncodeI32(x)) == x
  {
    assert Pow256(4) == 0x1_0000_0000;
    FromToBe(if x < 0 then x + 0x1_0000_0000 else x, 4);
  }
}
