/** Proof-of-work stamps: the search for a nonce, its check, and the target number. */
module ProofOfWork {
  import opened Numbers

  const CRYPTO_KEY_SIZE := 32
  const POW_SIZE := 24

  /** 2^64, one more than the largest limb. */
  const LIMB: nat := 0x1_0000_0000_0000_0000

  type Digest = s: seq<byte> | |s| == 32 witness seq(32, _ => 0)

  /** BLAKE2b with a 256-bit digest, as far as this module knows. */
  type HashFunction = seq<byte> -> Digest

  type Key = s: seq<byte> | |s| == 32 witness seq(32, _ => 0)
  type Nonce = s: seq<byte> | |s| == 24 witness seq(24, _ => 0)

  // ------------------------------------------------------------------ the nonce as a number

  /** The nonces there are: 2^192. */
  const NONCES: nat := 0x1_0000_0000_0000_0000_0000_0000_0000_0000_0000_0000_0000_0000

  lemma WidthOfLimb()
    ensures Pow256(8) == LIMB
  {
    assert Pow256(4) == 0x1_0000_0000;
  }

  lemma {:induction false} Pow256Add(m: nat, n: nat)
    ensures Pow256(m + n) == Pow256(m) * Pow256(n)
  {
    if m > 0 {
      Pow256Add(m - 1, n);
      assert Pow256(m + n) == 256 * (Pow256(m - 1) * Pow256(n));
    }
  }

  lemma WidthOfNonce()
    ensures Pow256(24) == NONCES
  {
    WidthOfLimb();
    Pow256Add(8, 8);
    Pow256Add(16, 8);
  }

  /** The nonce that comes `k` places after `start`, cyclically. */
  ghost function NonceAt(start: Nonce, k: nat): Nonce {
    ToBe((FromBe(start) + k) % NONCES, POW_SIZE)
  }

  lemma NonceAtZero(start: Nonce)
    ensures NonceAt(start, 0) == start
  {
    FromBeBounded(start);
    WidthOfNonce();
    ToFromBe(start);
    assert FromBe(start) % NONCES == FromBe(start);
  }

  /** Every nonce comes up within 2^192 places. */
  lemma EveryNonceComes(start: Nonce, nonce: Nonce) returns (k: nat)
    ensures k < NONCES && NonceAt(start, k) == nonce
  {
    hide FromBe, ToBe, Pow256;
    var s, v := FromBe(start), FromBe(nonce);
    FromBeBounded(start);
    FromBeBounded(nonce);
    WidthOfNonce();
    if s <= v {
      k := v - s;
      assert (s + k) % NONCES == v;
    } else {
      k := v + NONCES - s;
      assert (s + k) % NONCES == v by { assert s + k == v + NONCES; }
    }
    ToFromBe(nonce);
  }

  // ------------------------------------------------------------------ the increment

  /** The three limbs of a nonce. */
  lemma LimbsOf(nonce: Nonce)
    ensures FromBe(nonce) == (FromBe(nonce[0..8]) * LIMB + FromBe(nonce[8..16])) * LIMB + FromBe(nonce[16..24])
    ensures FromBe(nonce[0..8]) < LIMB && FromBe(nonce[8..16]) < LIMB && FromBe(nonce[16..24]) < LIMB
  {
    var a, b, c := nonce[0..8], nonce[8..16], nonce[16..24];
    assert nonce == (a + b) + c;
    WidthOfLimb();
    FromBeConcat(a, b);
    FromBeConcat(a + b, c);
    FromBeBounded(a);
    FromBeBounded(b);
    FromBeBounded(c);
  }

  /** What the limb code does to three numbers. */
  function Carry(a: nat, b: nat, c: nat): (r: (nat, nat, nat))
    requires a < LIMB && b < LIMB && c < LIMB
    ensures r.0 < LIMB && r.1 < LIMB && r.2 < LIMB
  {
    if c != LIMB - 1 then (a, b, c + 1)
    else if b != LIMB - 1 then (a, b + 1, 0)
    else if a != LIMB - 1 then (a + 1, 0, 0)
    else (0, 0, 0)
  }

  lemma CarryAddsOne(a: nat, b: nat, c: nat)
    requires a < LIMB && b < LIMB && c < LIMB
    ensures var (a', b', c') := Carry(a, b, c);
            (a' * LIMB + b') * LIMB + c' == ((a * LIMB + b) * LIMB + c + 1) % NONCES
  {
    var v := (a * LIMB + b) * LIMB + c;
    var top := (LIMB - 1) * LIMB + (LIMB - 1);
    assert v <= NONCES - 1;
    if a == LIMB - 1 && b == LIMB - 1 && c == LIMB - 1 {
      assert v + 1 == NONCES;
    } else {
      assert v + 1 < NONCES;
    }
  }

  // What the code does to the 56 bytes: key, then the limbs at 0x20, 0x28 and 0x30.

  function Limb(data: seq<byte>, at: nat): (x: nat)
    requires at + 8 <= |data|
    ensures x < LIMB
  {
    FromBeBounded(data[at..at + 8]);
    WidthOfLimb();
    FromBe(data[at..at + 8])
  }

  function SetLimb(data: seq<byte>, at: nat, x: nat): (r: seq<byte>)
    requires at + 8 <= |data|
    ensures |r| == |data|
  {
    data[..at] + ToBe(x, 8) + data[at + 8..]
  }

  function NextData(data: seq<byte>): (r: seq<byte>)
    requires |data| == CRYPTO_KEY_SIZE + POW_SIZE
    ensures |r| == |data|
  {
    var a, b, c := Limb(data, 0x20), Limb(data, 0x28), Limb(data, 0x30);
    if c != LIMB - 1 then SetLimb(data, 0x30, c + 1)
    else if b != LIMB - 1 then SetLimb(SetLimb(data, 0x28, b + 1), 0x30, 0)
    else if a != LIMB - 1 then SetLimb(SetLimb(SetLimb(data, 0x20, a + 1), 0x28, 0), 0x30, 0)
    else SetLimb(SetLimb(SetLimb(data, 0x20, 0), 0x28, 0), 0x30, 0)
  }

  /** `clone_from_slice` of a limb's bytes. */
  method WriteLimb(data: array<byte>, at: nat, x: nat)
    requires at + 8 <= data.Length
    modifies data
    ensures data[..] == SetLimb(old(data[..]), at, x)
  {
    var bytes := ToBe(x, 8);
    for i := 0 to 8
      invariant forall j :: 0 <= j < i ==> data[at + j] == bytes[j]
      invariant forall j :: 0 <= j < data.Length && !(at <= j < at + i) ==> data[j] == old(data[j])
    {
      data[at + i] := bytes[i];
    }
  }

  method ReadLimb(data: array<byte>, at: nat) returns (x: nat)
    requires at + 8 <= data.Length
    ensures x == Limb(data[..], at)
  {
    assert data[..][at..at + 8] == data[at..at + 8];
    x := FromBe(data[at..at + 8]);
  }

  /** The else branch of the search loop: nested carries over three `u64` limbs. */
  method Increment(data: array<byte>)
    requires data.Length == CRYPTO_KEY_SIZE + POW_SIZE
    modifies data
    ensures data[..] == NextData(old(data[..]))
  {
    hide SetLimb, Limb;
    var c := ReadLimb(data, 0x30);
    if c == LIMB - 1 {
      var b := ReadLimb(data, 0x28);
      if b == LIMB - 1 {
        var a := ReadLimb(data, 0x20);
        if a == LIMB - 1 {
          a, b, c := 0, 0, 0;
        } else {
          a, b, c := a + 1, 0, 0;
        }
        WriteLimb(data, 0x20, a);
      } else {
        b, c := b + 1, 0;
      }
      WriteLimb(data, 0x28, b);
    } else {
      c := c + 1;
    }
    WriteLimb(data, 0x30, c);
  }

  lemma LimbAfterSet(data: seq<byte>, at: nat, x: nat, other: nat)
    requires at + 8 <= |data| && other + 8 <= |data| && x < LIMB
    requires other == at || other + 8 <= at || at + 8 <= other
    ensures Limb(SetLimb(data, at, x), other) == if other == at then x else Limb(data, other)
  {
    var r := SetLimb(data, at, x);
    if other == at {
      assert r[at..at + 8] == ToBe(x, 8);
      WidthOfLimb();
      FromToBe(x, 8);
    } else {
      assert r[other..other + 8] == data[other..other + 8];
    }
  }

  lemma KeyAfterSet(data: seq<byte>, at: nat, x: nat)
    requires at + 8 <= |data| && CRYPTO_KEY_SIZE <= at
    ensures SetLimb(data, at, x)[..CRYPTO_KEY_SIZE] == data[..CRYPTO_KEY_SIZE]
  {
  }

  lemma NextDataLimbs(data: seq<byte>)
    requires |data| == CRYPTO_KEY_SIZE + POW_SIZE
    ensures var r := NextData(data);
            && r[..CRYPTO_KEY_SIZE] == data[..CRYPTO_KEY_SIZE]
            && (Limb(r, 0x20), Limb(r, 0x28), Limb(r, 0x30)) ==
               Carry(Limb(data, 0x20), Limb(data, 0x28), Limb(data, 0x30))
  {
    hide Limb, SetLimb, FromBe, ToBe;
    var (a, b, c) := Carry(Limb(data, 0x20), Limb(data, 0x28), Limb(data, 0x30));
    var d1 := SetLimb(data, 0x20, a);
    var d2 := if Limb(data, 0x30) == LIMB - 1 && Limb(data, 0x28) == LIMB - 1 then d1 else data;
    var d3 := if Limb(data, 0x30) == LIMB - 1 then SetLimb(d2, 0x28, b) else data;
    assert NextData(data) == SetLimb(d3, 0x30, c);
    LimbAfterSet(data, 0x20, a, 0x20);
    LimbAfterSet(data, 0x20, a, 0x28);
    LimbAfterSet(d2, 0x28, b, 0x20);
    LimbAfterSet(d2, 0x28, b, 0x28);
    LimbAfterSet(d3, 0x30, c, 0x20);
    LimbAfterSet(d3, 0x30, c, 0x28);
    LimbAfterSet(d3, 0x30, c, 0x30);
    KeyAfterSet(data, 0x20, a);
    KeyAfterSet(d2, 0x28, b);
    KeyAfterSet(d3, 0x30, c);
  }

  /** The limb code moves on to the next nonce, cyclically, and leaves the key alone. */
  lemma NextDataIsNextNonce(key: Key, nonce: Nonce)
    ensures NextData(key + nonce) == key + NonceAt(nonce, 1)
  {
    hide NextData, Limb, Carry, FromBe, ToBe;
    var data := key + nonce;
    var r := NextData(data);
    NextDataLimbs(data);
    assert data[..32] == key;
    LimbsInData(data, nonce);
    LimbsInData(r, r[32..]);
    LimbsOf(nonce);
    LimbsOf(r[32..]);
    CarryAddsOne(Limb(data, 0x20), Limb(data, 0x28), Limb(data, 0x30));
    ToFromBe(r[32..]);
    assert r == r[..32] + r[32..];
  }

  lemma LimbsInData(data: seq<byte>, nonce: Nonce)
    requires |data| == CRYPTO_KEY_SIZE + POW_SIZE && data[32..] == nonce
    ensures Limb(data, 0x20) == FromBe(nonce[0..8])
    ensures Limb(data, 0x28) == FromBe(nonce[8..16])
    ensures Limb(data, 0x30) == FromBe(nonce[16..24])
  {
    assert data[0x20..0x28] == nonce[0..8] && data[0x28..0x30] == nonce[8..16] && data[0x30..0x38] == nonce[16..24];
  }

  lemma NextOfNonceAt(start: Nonce, k: nat)
    ensures NonceAt(NonceAt(start, k), 1) == NonceAt(start, k + 1)
  {
    var v := (FromBe(start) + k) % NONCES;
    WidthOfNonce();
    FromToBe(v, POW_SIZE);
    ModStep(FromBe(start) + k);
  }

  lemma ModStep(x: nat)
    ensures (x % NONCES + 1) % NONCES == (x + 1) % NONCES
  {
  }

  lemma MulAtLeast(m: nat, d: int)
    requires d != 0
    ensures d >= 1 ==> m * d >= m
    ensures d <= -1 ==> m * d + m <= 0
  {
    if d >= 1 {
      assert m * d == m + m * (d - 1);
    } else {
      assert m * d + m == m * (d + 1);
    }
  }

  lemma DivNonNegative(x: nat, d: nat)
    requires d > 0
    ensures x / d >= 0
  {
    var q := x / d;
    assert x == d * q + x % d;
    if q < 0 {
      MulAtLeast(d, q);
    }
  }

  // ------------------------------------------------------------------ check and search

  /** The number a digest denotes, least significant byte first. */
  function FromLe(s: seq<byte>): nat {
    if s == [] then 0 else s[0] + 256 * FromLe(s[1..])
  }

  function Reverse(s: seq<byte>): (r: seq<byte>)
    ensures |r| == |s| && forall i :: 0 <= i < |s| ==> r[i] == s[|s| - 1 - i]
  {
    if s == [] then [] else Reverse(s[1..]) + [s[0]]
  }

  /** It is the big-endian reading of the reversed bytes. */
  lemma {:induction false} FromLeReverses(s: seq<byte>)
    ensures FromLe(s) == FromBe(Reverse(s))
  {
    if s != [] {
      FromLeReverses(s[1..]);
      assert (Reverse(s[1..]) + [s[0]])[..|s| - 1] == Reverse(s[1..]);
    }
  }

  /** The last byte weighs most. */
  lemma {:induction false} FromLeLast(s: seq<byte>, x: byte)
    ensures FromLe(s + [x]) == FromLe(s) + x * Pow256(|s|)
  {
    if s == [] {
      assert [] + [x] == [x];
    } else {
      assert (s + [x])[1..] == s[1..] + [x];
      FromLeLast(s[1..], x);
      ScaleFactor(x, Pow256(|s| - 1), FromLe(s[1..]));
    }
  }

  lemma {:induction false} FromLeBounded(s: seq<byte>)
    ensures FromLe(s) < Pow2(8 * |s|)
  {
    if s != [] {
      FromLeBounded(s[1..]);
      EightBits(|s| - 1);
    }
  }

  lemma EightBits(n: nat)
    ensures Pow2(8) == 256 && Pow2(8 * (n + 1)) == 256 * Pow2(8 * n)
  {
    Pow2Values();
    Pow2Add(8, 8 * n);
  }

  /** Bit `r` of byte `j` is bit `8 * j + r` of the number. */
  lemma {:induction false} BitOfLe(s: seq<byte>, j: nat, r: nat)
    requires j < |s| && r < 8
    ensures Bit(FromLe(s), 8 * j + r) == Bit(s[j], r)
    decreases j
  {
    hide Pow2;
    EightBits(0);
    var rest := FromLe(s[1..]);
    BitOfSum(s[0], rest, 8, 8 * j + r);
    if j > 0 {
      BitOfLe(s[1..], j - 1, r);
    }
  }

  /** Bit `i` of a digest, counted from its most significant bit down: that of its last byte. */
  predicate DigestBit(d: Digest, i: nat)
    requires i < 256
  {
    Bit(d[31 - i / 8], 7 - i % 8)
  }

  predicate LeadingZeros(d: Digest, n: nat)
    requires n <= 256
  {
    forall i :: 0 <= i < n ==> !DigestBit(d, i)
  }

  lemma DigestBitIsBit(d: Digest, i: nat)
    requires i < 256
    ensures DigestBit(d, i) == Bit(FromLe(d), 255 - i)
  {
    BitOfLe(d, 31 - i / 8, 7 - i % 8);
    assert 8 * (31 - i / 8) + (7 - i % 8) == 255 - i;
  }

  /** A digest is below 2^(256-n) exactly when its first `n` bits are zero. */
  lemma LeadingZerosIff(d: Digest, n: nat)
    requires n <= 256
    ensures FromLe(d) < Pow2(256 - n) <==> LeadingZeros(d, n)
  {
    hide Pow2, FromLe, DigestBit;
    FromLeBounded(d);
    assert 8 * |d| == 256;
    BelowIffClear(FromLe(d), 256 - n, 256);
    if LeadingZeros(d, n) {
      forall k | 256 - n <= k < 256 ensures !Bit(FromLe(d), k) {
        assert !DigestBit(d, 255 - k);
        DigestBitIsBit(d, 255 - k);
      }
    } else {
      var i :| 0 <= i < n && DigestBit(d, i);
      DigestBitIsBit(d, i);
      assert Bit(FromLe(d), 255 - i);
    }
  }

  /** `check_proof_of_work_inner` on a key followed by a nonce. */
  predicate Passes(hash: HashFunction, key: Key, nonce: Nonce, target: nat) {
    FromLe(hash(key + nonce)) <= target
  }

  /** `ProofOfWork::check`. */
  method Check(hash: HashFunction, key: Key, nonce: Nonce, target: nat) returns (ok: bool)
    ensures ok == Passes(hash, key, nonce, target)
    ensures forall s: nat :: s <= 255 && target == MakeTarget(WHOLE, s) ==> ok == LeadingZeros(hash(key + nonce), s)
  {
    forall s: nat | s <= 255 ensures Passes(hash, key, nonce, MakeTarget(WHOLE, s)) == LeadingZeros(hash(key + nonce), s) {
      PassesWholeIff(hash, key, nonce, s);
    }
    hide FromLe, MakeTarget, LeadingZeros;
    var data := new byte[CRYPTO_KEY_SIZE + POW_SIZE];
    for i := 0 to CRYPTO_KEY_SIZE
      invariant forall j :: 0 <= j < i ==> data[j] == key[j]
    {
      data[i] := key[i];
    }
    for i := 0 to POW_SIZE
      invariant forall j :: 0 <= j < CRYPTO_KEY_SIZE ==> data[j] == key[j]
      invariant forall j :: 0 <= j < i ==> data[CRYPTO_KEY_SIZE + j] == nonce[j]
    {
      data[CRYPTO_KEY_SIZE + i] := nonce[i];
    }
    assert data[..] == key + nonce;
    ok := FromLe(hash(data[..])) <= target;
  }

  /** The first nonce from `start` on, cyclically, that passes, `k` places on. */
  ghost predicate IsFirstPassing(hash: HashFunction, key: Key, start: Nonce, target: nat, k: nat) {
    && Passes(hash, key, NonceAt(start, k), target)
    && forall j :: 0 <= j < k ==> !Passes(hash, key, NonceAt(start, j), target)
  }

  /** `ProofOfWork::generate` from a given random start. When no nonce passes the source never
      returns. */
  method Generate(hash: HashFunction, key: Key, start: Nonce, target: nat) returns (nonce: Nonce, ghost rounds: nat)
    requires exists good: Nonce :: Passes(hash, key, good, target)
    ensures rounds < NONCES && nonce == NonceAt(start, rounds)
    ensures IsFirstPassing(hash, key, start, target, rounds)
    ensures Passes(hash, key, nonce, target)
  {
    hide NextData, NonceAt, FromLe;
    ghost var good: Nonce :| Passes(hash, key, good, target);
    ghost var bound := EveryNonceComes(start, good);
    var data := new byte[CRYPTO_KEY_SIZE + POW_SIZE](i requires 0 <= i < 56 => (key + start)[i]);
    assert data[..] == key + start;
    rounds := 0;
    NonceAtZero(start);
    while true
      invariant data[..] == key + NonceAt(start, rounds)
      invariant rounds <= bound
      invariant forall j :: 0 <= j < rounds ==> !Passes(hash, key, NonceAt(start, j), target)
      decreases bound - rounds
    {
      if FromLe(hash(data[..])) <= target {
        nonce := data[CRYPTO_KEY_SIZE..];
        assert nonce == NonceAt(start, rounds);
        return;
      }
      NextDataIsNextNonce(key, NonceAt(start, rounds));
      NextOfNonceAt(start, rounds);
      Increment(data);
      rounds := rounds + 1;
    }
  }

  // ------------------------------------------------------------------ the target

  /** The mantissa of a target without fraction. */
  const WHOLE: nat := 0x40_0000_0000_0000 - 1

  /** Mantissas of targets with a fraction: 2^(54 - fraction) rounded down. A fraction so small
      that `54 - fraction` rounds to 54 gives 2^54, one more than a target without fraction. */
  predicate IsMantissa(m: nat) {
    Pow2(53) <= m <= Pow2(54)
  }

  function ShiftLeft(x: nat, k: nat): nat {
    x * Pow2(k)
  }

  function ShiftRight(x: nat, k: nat): nat {
    DivNonNegative(x, Pow2(k));
    x / Pow2(k)
  }

  /** `make_target` for a whole part `shift` and a mantissa `m`. */
  function MakeTarget(m: nat, shift: nat): nat {
    if shift < 202 then BitOr(ShiftLeft(m, 202 - shift), ShiftLeft(1, 202 - shift) - 1)
    else ShiftRight(m, shift - 202)
  }

  /** The or fills the bits the shift left clear. */
  lemma TargetByShift(m: nat, shift: nat)
    ensures shift < 202 ==> MakeTarget(m, shift) == m * Pow2(202 - shift) + Pow2(202 - shift) - 1
    ensures shift >= 202 ==> MakeTarget(m, shift) == m / Pow2(shift - 202)
  {
    hide Pow2, BitOr;
    if shift < 202 {
      BitOrDisjoint(m, 202 - shift);
    }
  }

  function CeilDiv(x: nat, y: nat): nat
    requires y > 0
  {
    DivNonNegative(x + y - 1, y);
    (x + y - 1) / y
  }

  lemma DivExact(q: nat, d: nat, r: nat)
    requires r < d
    ensures (q * d + r) / d == q
  {
    var x := q * d + r;
    var e := x / d - q;
    assert d * e == r - x % d;
    if e != 0 {
      MulAtLeast(d, e);
    }
  }

  /** Both branches compute the same thing: one less than (m + 1) * 2^(202 - shift), rounded
      up. */
  lemma TargetClosedForm(m: nat, shift: nat)
    ensures MakeTarget(m, shift) + 1 == CeilDiv((m + 1) * Pow2(202), Pow2(shift))
  {
    hide Pow2, MakeTarget;
    TargetByShift(m, shift);
    if shift < 202 {
      Pow2Add(202 - shift, shift);
      CeilOfMultiple(m + 1, Pow2(202 - shift), Pow2(shift));
    } else {
      Pow2Add(202, shift - 202);
      CeilOfQuotient(m, Pow2(202), Pow2(shift - 202));
    }
  }

  lemma CeilOfMultiple(n: nat, k: nat, p: nat)
    requires p >= 1
    ensures CeilDiv(n * (k * p), p) == n * k
  {
    assert n * (k * p) == (n * k) * p;
    DivExact(n * k, p, p - 1);
  }

  lemma CeilOfQuotient(m: nat, w: nat, p: nat)
    requires w >= 1 && p >= 1
    ensures w * p >= 1 && CeilDiv((m + 1) * w, w * p) == m / p + 1
  {
    MulPositive(w, p);
    var q, r := m / p, m % p;
    var d := w * p;
    assert m + 1 == q * p + (r + 1);
    assert (m + 1) * w == (q * p) * w + (r + 1) * w;
    assert (q * p) * w == q * d;
    MulMonotone(r + 1, p, w);
    assert p * w == d;
    MulPositive(r + 1, w);
    assert (m + 1) * w + d - 1 == (q + 1) * d + ((r + 1) * w - 1) by { assert (q + 1) * d == q * d + d; }
    DivExact(q + 1, d, (r + 1) * w - 1);
  }

  lemma WholeIsPower()
    ensures WHOLE + 1 == Pow2(54)
  {
    Pow2Values();
    Pow2Add(30, 24);
    assert Pow2(24) == 0x100_0000 by { assert Pow2(12) == 4096; Pow2Add(12, 12); }
  }

  /** A target without fraction asks for that many leading zero bits. */
  lemma WholeTarget(shift: nat)
    requires shift <= 255
    ensures MakeTarget(WHOLE, shift) == Pow2(256 - shift) - 1
  {
    WholeIsPower();
    hide Pow2, MakeTarget;
    TargetByShift(WHOLE, shift);
    if shift < 202 {
      var k := 202 - shift;
      Pow2Add(54, k);
      assert WHOLE * Pow2(k) + Pow2(k) == (WHOLE + 1) * Pow2(k);
    } else {
      var k := shift - 202;
      Pow2Add(54 - k, k);
      var q, p := Pow2(54 - k) - 1, Pow2(k);
      assert WHOLE == q * p + (p - 1) by { assert (q + 1) * p == q * p + p; }
      DivExact(q, p, p - 1);
    }
  }

  /** What passing means: for a whole target `s` the digest of key and nonce must start with `s`
      zero bits. */
  lemma PassesWholeIff(hash: HashFunction, key: Key, nonce: Nonce, s: nat)
    requires s <= 255
    ensures Passes(hash, key, nonce, MakeTarget(WHOLE, s)) <==> LeadingZeros(hash(key + nonce), s)
  {
    hide Pow2, MakeTarget, FromLe, LeadingZeros;
    WholeTarget(s);
    LeadingZerosIff(hash(key + nonce), s);
  }

  /** A fraction makes the target easier than the next whole one, and at least as hard as its own
      whole part exactly when its mantissa is below 2^54. */
  lemma FractionBetween(m: nat, shift: nat)
    requires IsMantissa(m) && shift <= 255
    ensures Pow2(255 - shift) - 1 < MakeTarget(m, shift)
    ensures MakeTarget(m, shift) <= Pow2(256 - shift) - 1 <==> m < Pow2(54)
    ensures MakeTarget(m, shift) < Pow2(256 - shift) + Pow2(255 - shift)
  {
    hide Pow2, MakeTarget;
    TargetByShift(m, shift);
    PowStep(53);
    PowStep(255 - shift);
    if shift < 202 {
      var k := 202 - shift;
      Pow2Add(53, k);
      Pow2Add(54, k);
      BetweenMultiples(m, Pow2(53), Pow2(k));
      MulPositive(Pow2(53), Pow2(k));
      if m < Pow2(54) {
        MulMonotone(m + 1, Pow2(54), Pow2(k));
      } else {
        Pow2Monotone(k, 255 - shift);
      }
    } else {
      var k := shift - 202;
      Pow2Add(53 - k, k);
      Pow2Add(54 - k, k);
      BetweenQuotients(m, Pow2(53 - k), Pow2(k));
      if m < Pow2(54) {
        DivBelow(m, Pow2(54 - k), Pow2(k));
      } else {
        DivExact(Pow2(54 - k), Pow2(k), 0);
      }
    }
  }

  lemma PowStep(k: nat)
    ensures Pow2(k) >= 1 && Pow2(k + 1) == Pow2(k) + Pow2(k)
  {
  }

  lemma BetweenMultiples(m: nat, low: nat, p: nat)
    requires low <= m && p >= 1
    ensures low * p - 1 < m * p + p - 1 && (m + 1) * p == m * p + p
  {
    MulMonotone(low, m, p);
  }

  lemma BetweenQuotients(m: nat, low: nat, p: nat)
    requires low * p <= m && p >= 1
    ensures low - 1 < m / p
  {
    DivExact(low, p, 0);
    DivMonotone(low * p, m, p);
  }

  lemma MulMonotone(a: nat, b: nat, p: nat)
    requires a <= b
    ensures a * p <= b * p
  {
  }

  lemma DivMonotone(a: nat, b: nat, p: nat)
    requires a <= b && p > 0
    ensures a / p <= b / p
  {
    var x, y := a / p, b / p;
    assert x * p <= a && b < y * p + p;
    if x > y {
      MulMonotone(y + 1, x, p);
    }
  }

  lemma DivBelow(a: nat, q: nat, p: nat)
    requires p > 0 && a < q * p
    ensures a / p < q
  {
    var x := a / p;
    assert x * p <= a;
    if x >= q {
      MulMonotone(q, x, p);
    }
  }

  /** Targets as the code tells them apart. */
  datatype Target = Whole(shift: nat) | Fractional(shift: nat, mantissa: nat)

  predicate IsTarget(t: Target) {
    t.shift <= 255 && (t.Fractional? ==> IsMantissa(t.mantissa))
  }

  /** `make_target`. */
  function Number(t: Target): nat {
    MakeTarget(if t.Whole? then WHOLE else t.mantissa, t.shift)
  }

  /** `u` is the higher target: a larger whole part, or a fraction where there was none, or a
      larger fraction, whose mantissa is not larger. */
  predicate Higher(u: Target, t: Target) {
    || t.shift < u.shift
    || (t.shift == u.shift && t.Whole? && u.Fractional?)
    || (t.shift == u.shift && t.Fractional? && u.Fractional? && u.mantissa <= t.mantissa)
  }

  /** A higher target is a number that is not larger, except exactly when a fraction too small to
      lower its mantissa is added to a whole target. */
  lemma HigherIsSmallerIff(t: Target, u: Target)
    requires IsTarget(t) && IsTarget(u) && Higher(u, t)
    ensures Number(u) <= Number(t) <==>
            !(t.Whole? && u.Fractional? && t.shift == u.shift && u.mantissa == Pow2(54))
    ensures t.shift < u.shift && !(u.Fractional? && u.mantissa == Pow2(54)) ==> Number(u) < Number(t)
  {
    hide Pow2, MakeTarget;
    if t.shift == u.shift {
      if t.Whole? {
        WholeTarget(t.shift);
        FractionBetween(u.mantissa, u.shift);
      } else {
        MantissaOrder(u.mantissa, t.mantissa, t.shift);
      }
    } else {
      LargerShift(t, u);
    }
  }

  lemma MantissaOrder(m: nat, m': nat, shift: nat)
    requires m <= m'
    ensures MakeTarget(m, shift) <= MakeTarget(m', shift)
  {
    hide Pow2, MakeTarget;
    TargetByShift(m, shift);
    TargetByShift(m', shift);
    if shift < 202 {
      MulMonotone(m, m', Pow2(202 - shift));
    } else {
      DivMonotone(m, m', Pow2(shift - 202));
    }
  }

  /** The hardest target of a whole part against the easiest of the next. */
  lemma NextShift(shift: nat)
    requires shift < 255
    ensures MakeTarget(Pow2(54), shift + 1) <= MakeTarget(Pow2(53), shift)
  {
    hide Pow2, MakeTarget;
    TargetByShift(Pow2(54), shift + 1);
    TargetByShift(Pow2(53), shift);
    if shift < 202 {
      var k := 202 - shift;
      PowStep(k - 1);
      Pow2Add(53, k);
      Pow2Add(54, k - 1);
      PowStep(0);
      if shift == 201 {
        DivByOne(Pow2(54));
      }
    } else {
      var k := shift - 202;
      Pow2Add(53 - k, k);
      Pow2Add(53 - k, k + 1);
      DivExact(Pow2(53 - k), Pow2(k), 0);
      DivExact(Pow2(53 - k), Pow2(k + 1), 0);
    }
  }

  lemma DivByOne(x: nat)
    ensures Pow2(0) == 1 && x / Pow2(0) == x
  {
  }

  lemma {:induction false} ShiftOrder(m: nat, shift: nat, shift': nat)
    requires shift <= shift' <= 255
    ensures MakeTarget(m, shift') <= MakeTarget(m, shift)
    decreases shift' - shift
  {
    hide Pow2, MakeTarget;
    if shift < shift' {
      OneShift(m, shift);
      ShiftOrder(m, shift + 1, shift');
    }
  }

  lemma OneShift(m: nat, shift: nat)
    requires shift < 255
    ensures MakeTarget(m, shift + 1) <= MakeTarget(m, shift)
  {
    hide Pow2, MakeTarget;
    TargetByShift(m, shift);
    TargetByShift(m, shift + 1);
    if shift < 202 {
      PowStep(201 - shift);
      MulMonotone(m, m, Pow2(201 - shift));
      if shift < 201 {
        DoubleProduct(m, Pow2(201 - shift));
      } else {
        DivByOne(m);
        DoubleProduct(m, 1);
      }
    } else {
      PowStep(shift - 202);
      DivDouble(m, Pow2(shift - 202));
    }
  }

  lemma DoubleProduct(m: nat, p: nat)
    ensures m * p <= m * (p + p)
  {
    assert m * (p + p) == m * p + m * p;
  }

  lemma DivDouble(m: nat, p: nat)
    requires p >= 1
    ensures m / (p + p) <= m / p
  {
    var q := m / (p + p);
    DivNonNegative(m, p + p);
    assert q * (p + p) <= m;
    DoubleProduct(q, p);
    DivExact(q, p, 0);
    DivMonotone(q * p, m, p);
  }

  lemma LargerShift(t: Target, u: Target)
    requires IsTarget(t) && IsTarget(u) && t.shift < u.shift
    ensures Number(u) <= Number(t)
    ensures !(u.Fractional? && u.mantissa == Pow2(54)) ==> Number(u) < Number(t)
  {
    hide Pow2, MakeTarget;
    PowStep(53);
    WholeIsPower();
    var m := if u.Whole? then WHOLE else u.mantissa;
    var l := if t.Whole? then WHOLE else t.mantissa;
    MantissaOrder(m, Pow2(54), u.shift);
    ShiftOrder(Pow2(54), t.shift + 1, u.shift);
    NextShift(t.shift);
    MantissaOrder(Pow2(53), l, t.shift);
    FractionBetween(l, t.shift);
    FractionBetween(m, u.shift);
    Pow2Monotone(256 - u.shift, 255 - t.shift);
  }
}
