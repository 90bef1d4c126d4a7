/** The pseudo-random steps of a block locator: step lengths that double every ten calls, each
    varied by a hash of the seed. */
module SeededStep {
  import opened Numbers

  type Digest = s: seq<byte> | |s| == 32 witness seq(32, _ => 0)

  /** SHA-256, as far as this module knows. */
  type HashFunction = seq<byte> -> Digest

  datatype StepState = StepState(step: i32, counter: nat, seed: Digest)

  /** `%` on `i32` truncates: the remainder has the sign of the dividend. */
  function Rem(a: int, n: int): (r: int)
    requires n > 0
    ensures -n < r < n
  {
    if a < 0 then -((-a) % n) else a % n
  }

  /** Release builds wrap on overflow. */
  function Wrap(x: int): i32 {
    var y := x % 0x1_0000_0000;
    if y >= 0x8000_0000 then y - 0x1_0000_0000 else y
  }

  function Gap(s: StepState): (g: int)
    ensures s.step <= 1 ==> g == 0
    ensures s.step > 1 ==> -(s.step / 2) <= g <= s.step / 2
  {
    if s.step <= 1 then 0 else Rem(DecodeI32(s.seed[0..4]), s.step / 2 + 1)
  }

  function Advance(s: StepState, hash: HashFunction): StepState {
    StepState(
      if s.counter == 0 then Wrap(s.step * 2) else s.step,
      if s.counter == 0 then 9 else s.counter - 1,
      if s.step <= 1 then s.seed else hash(s.seed))
  }

  class Step {
    var step: i32
    var counter: nat
    var seed: Digest
    const hash: HashFunction

    ghost function State(): StepState
      reads this
    {
      StepState(step, counter, seed)
    }

    /** `Step::init`: the seed is the hash of both ids and the block hash. */
    constructor Init(hash: HashFunction, senderId: seq<byte>, receiverId: seq<byte>, blockHash: seq<byte>)
      ensures State() == StepState(1, 9, hash(senderId + receiverId + blockHash))
      ensures this.hash == hash
    {
      this.hash := hash;
      step, counter := 1, 9;
      seed := hash(senderId + receiverId + blockHash);
    }

    /** `Step::next`. */
    method Next() returns (r: int)
      modifies this`step, this`counter, this`seed
      ensures State() == Advance(old(State()), hash)
      ensures r == old(step) - Gap(old(State()))
    {
      var randomGap: int := 0;
      if step > 1 {
        var n := step / 2 + 1;
        randomGap := Rem(DecodeI32(seed[0..4]), n);
        seed := hash(seed);
      }
      var oldStep: int := step;
      if counter == 0 {
        counter := 9;
        step := Wrap(step * 2);
      } else {
        counter := counter - 1;
      }
      r := oldStep - randomGap;
    }
  }

  // ------------------------------------------------------------------ the sequence

  /** The state after `n` calls. */
  function After(start: Digest, hash: HashFunction, n: nat): StepState {
    if n == 0 then StepState(1, 9, start) else Advance(After(start, hash, n - 1), hash)
  }

  /** What call number `n` returns, counting from 0. */
  function Output(start: Digest, hash: HashFunction, n: nat): int {
    After(start, hash, n).step - Gap(After(start, hash, n))
  }

  /** The step length after `n` calls, for ever: doubling up to 2^30, then the two's complement
      overflow of call 310, then nothing. */
  function StepLength(n: nat): int {
    if n < 310 then Pow2(n / 10) else if n < 320 then -0x8000_0000 else 0
  }

  lemma DecadeStep(n: nat)
    requires n >= 1
    ensures n / 10 == (n - 1) / 10 + (if (n - 1) % 10 == 9 then 1 else 0)
    ensures n % 10 == (if (n - 1) % 10 == 9 then 0 else (n - 1) % 10 + 1)
  {
  }

  lemma PowersFit(k: nat)
    requires k <= 30
    ensures 1 <= Pow2(k) <= 0x4000_0000 && Pow2(k + 1) == 2 * Pow2(k)
    ensures k < 30 ==> Pow2(k + 1) <= 0x4000_0000
    ensures k == 30 ==> Pow2(k) == 0x4000_0000
  {
    Pow2Monotone(k, 30);
    Pow2Values();
    if k < 30 {
      Pow2Monotone(k + 1, 30);
    }
  }

  lemma StepLengthDoubles(n: nat)
    requires n >= 1
    ensures -0x8000_0000 <= StepLength(n - 1) <= 0x4000_0000
    ensures StepLength(n) == if (n - 1) % 10 == 9 then Wrap(StepLength(n - 1) * 2) else StepLength(n - 1)
  {
    hide Pow2;
    DecadeStep(n);
    if n - 1 < 310 {
      PowersFit((n - 1) / 10);
    }
  }

  /** The whole course of the generator, for every seed and any number of calls. */
  lemma {:induction false} StateAfter(start: Digest, hash: HashFunction, n: nat)
    ensures After(start, hash, n).step == StepLength(n)
    ensures After(start, hash, n).counter == 9 - n % 10
  {
    hide Wrap, Gap;
    if n > 0 {
      StateAfter(start, hash, n - 1);
      DecadeStep(n);
      StepLengthDoubles(n);
    }
  }

  /** The step is the promised 2^(n/10) exactly as long as fewer than 310 calls were made. */
  lemma DoublingIff(start: Digest, hash: HashFunction, n: nat)
    ensures After(start, hash, n).step == Pow2(n / 10) <==> n < 310
  {
    StateAfter(start, hash, n);
  }

  /** Until then every output is within half a step of the step, and positive; afterwards the
      locator stops advancing. */
  lemma OutputRange(start: Digest, hash: HashFunction, n: nat)
    ensures n < 310 ==>
              var p := Pow2(n / 10);
              p - p / 2 <= Output(start, hash, n) <= p + p / 2 && Output(start, hash, n) >= 1
    ensures n >= 310 ==> Output(start, hash, n) == StepLength(n) <= 0
  {
    StateAfter(start, hash, n);
  }

  /** `Rem` is the remainder of a division towards zero: it has the dividend's sign. */
  lemma RemIsRemainder(a: int, n: int) returns (q: int)
    requires n > 0
    ensures a == q * n + Rem(a, n)
    ensures -n < Rem(a, n) < n
    ensures (a >= 0 ==> Rem(a, n) >= 0) && (a <= 0 ==> Rem(a, n) <= 0)
  {
    hide Rem;
    var k, r := RemParts(a, n);
    NegatedProduct(k, n);
    q := if a < 0 then -k else k;
  }

  lemma RemParts(a: int, n: int) returns (k: int, r: int)
    requires n > 0
    ensures 0 <= r < n && (if a < 0 then -a else a) == k * n + r
    ensures Rem(a, n) == (if a < 0 then -r else r)
  {
    var m := if a < 0 then -a else a;
    k, r := m / n, m % n;
  }

  lemma NegatedProduct(k: int, n: int)
    ensures (-k) * n == -(k * n)
  {
  }

  function Iterate(hash: HashFunction, seed: Digest, k: nat): Digest {
    if k == 0 then seed else hash(Iterate(hash, seed, k - 1))
  }

  /** The seed is hashed by calls 10 to 309, and by no other. */
  function Hashes(n: nat): nat {
    if n < 10 then 0 else if n < 310 then n - 10 else 300
  }

  lemma {:induction false} SeedAfter(start: Digest, hash: HashFunction, n: nat)
    ensures After(start, hash, n).seed == Iterate(hash, start, Hashes(n))
  {
    if n > 0 {
      SeedAfter(start, hash, n - 1);
      StateAfter(start, hash, n - 1);
      LongStepIff(n - 1);
    }
  }

  lemma LongStepIff(n: nat)
    ensures StepLength(n) > 1 <==> 10 <= n < 310
  {
    if n < 310 {
      PowersFit(n / 10);
      if n >= 10 {
        Pow2Monotone(1, n / 10);
      }
    }
  }

  /** What every call returns. The first ten calls return 1. Call `n` after them falls short of
      the step by the remainder, modulo half the step and one, of the value drawn from the seed
      hashed `n` - 10 times: its first four bytes as a signed number. */
  lemma OutputBySeed(start: Digest, hash: HashFunction, n: nat) returns (q: int)
    ensures n < 10 ==> Output(start, hash, n) == 1
    ensures 10 <= n < 310 ==>
              var p, seed := Pow2(n / 10), Iterate(hash, start, n - 10);
              var x := Signed32(seed[0], seed[1], seed[2], seed[3]);
              var gap := p - Output(start, hash, n);
              && x == q * (p / 2 + 1) + gap
              && -(p / 2) <= gap <= p / 2
              && (x >= 0 ==> gap >= 0) && (x <= 0 ==> gap <= 0)
  {
    hide Rem, Iterate, DecodeI32, Signed32;
    q := 0;
    StateAfter(start, hash, n);
    SeedAfter(start, hash, n);
    LongStepIff(n);
    var s := After(start, hash, n);
    if 10 <= n < 310 {
      q := RemIsRemainder(DecodeI32(s.seed[0..4]), s.step / 2 + 1);
      DecodeI32Bytes(s.seed[0..4]);
    }
  }

  /** The levels covered by the first `n` outputs. */
  function Covered(start: Digest, hash: HashFunction, n: nat): int {
    if n == 0 then 0 else Covered(start, hash, n - 1) + Output(start, hash, n - 1)
  }

  /** Outputs that stay within bounds add up within bounds. */
  lemma {:induction false} CoveredWithin(start: Digest, hash: HashFunction, from: nat, j: nat, lo: int, hi: int)
    requires forall i :: from <= i < from + j ==> lo <= Output(start, hash, i) <= hi
    ensures j * lo <= Covered(start, hash, from + j) - Covered(start, hash, from) <= j * hi
  {
    hide Output;
    if j > 0 {
      CoveredWithin(start, hash, from, j - 1, lo, hi);
      assert lo <= Output(start, hash, from + j - 1) <= hi;
      assert j * lo == (j - 1) * lo + lo && j * hi == (j - 1) * hi + hi;
    }
  }

  lemma CoveredInDecade(start: Digest, hash: HashFunction, k: nat)
    requires k < 31
    ensures var p := Pow2(k);
            10 * (p - p / 2) <= Covered(start, hash, 10 * k + 10) - Covered(start, hash, 10 * k) <= 10 * (p + p / 2)
  {
    hide Output, Covered;
    var p := Pow2(k);
    forall i | 10 * k <= i < 10 * k + 10 ensures p - p / 2 <= Output(start, hash, i) <= p + p / 2 {
      assert i / 10 == k;
      OutputRange(start, hash, i);
    }
    CoveredWithin(start, hash, 10 * k, 10, p - p / 2, p + p / 2);
  }

  lemma NothingCovered(start: Digest, hash: HashFunction)
    ensures Covered(start, hash, 0) == 0
  {
  }

  /** The first 10(k+1) outputs cover at least 10 * 2^k levels and at most 15 * 2^(k+1) - 20. */
  lemma {:induction false} CoveredAfterDecades(start: Digest, hash: HashFunction, k: nat)
    requires k < 31
    ensures 10 * Pow2(k) <= Covered(start, hash, 10 * (k + 1)) <= 15 * Pow2(k + 1) - 20
  {
    hide Covered;
    CoveredInDecade(start, hash, k);
    if k == 0 {
      NothingCovered(start, hash);
    } else {
      CoveredAfterDecades(start, hash, k - 1);
      assert Pow2(k) == 2 * Pow2(k - 1) && Pow2(k + 1) == 2 * Pow2(k);
    }
  }

  /** 290 calls reach past every block level, well before the overflow. */
  lemma EveryLevelCovered(start: Digest, hash: HashFunction)
    ensures Covered(start, hash, 290) > 0x8000_0000
  {
    CoveredAfterDecades(start, hash, 28);
    Pow2Values();
    assert Pow2(30) == 4 * Pow2(28);
  }
}
