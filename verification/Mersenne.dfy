/** rand.c: the MT19937 generator. An unsigned long is 32 bits here. */
module Mersenne {

  const N := 624
  const M := 397
  const MATRIX_A: bv32 := 0x9908b0df
  const UPPER_MASK: bv32 := 0x80000000
  const LOWER_MASK: bv32 := 0x7fffffff
  const MASK_B: bv32 := 0x9d2c5680
  const MASK_C: bv32 := 0xefc60000
  const RAND_MAX: bv32 := 0x7fffffff

  // ---- the generator as a sequence ----

  /** The multiplicative seeding of `sgenrand`. */
  function NextSeed(x: bv32): bv32 { (69069 * x) & 0xffffffff }

  /** Equation 2.1 of Matsumoto and Nishimura (1998): w plus the upper bit of u and the lower bits of v, times A. */
  function Mix(w: bv32, u: bv32, v: bv32): bv32 { w ^ Twist((u & UPPER_MASK) | (v & LOWER_MASK)) }

  /** Times A. */
  function Twist(y: bv32): bv32 { (y >> 1) ^ (if y & 1 == 1 then MATRIX_A else 0) }

  /** Term k of the recurrence begun from a seed. */
  ghost function Term(s: bv32, k: nat): bv32 {
    if k == 0 then s
    else if k < N then NextSeed(Term(s, k - 1))
    else Mix(Term(s, k - N + M), Term(s, k - N), Term(s, k - N + 1))
  }

  function TemperU(y: bv32): bv32 { y ^ (y >> 11) }
  function TemperS(y: bv32): bv32 { y ^ ((y << 7) & MASK_B) }
  function TemperT(y: bv32): bv32 { y ^ ((y << 15) & MASK_C) }
  function TemperL(y: bv32): bv32 { y ^ (y >> 18) }

  function Temper(y: bv32): bv32 { TemperL(TemperT(TemperS(TemperU(y)))) }

  // ---- a step of the recurrence can be undone ----

  /** The matrix A of the recurrence is invertible: its top bit is set, which that of the shifted word is not. */
  function Untwist(z: bv32): bv32 {
    if z & 0x8000_0000 != 0 then ((z ^ MATRIX_A) << 1) | 1 else z << 1
  }

  lemma UntwistTwist(y: bv32)
    ensures Untwist(Twist(y)) == y
  {
    if y & 1 == 1 {
      OddTop(y);
      OddBack(y);
    } else {
      EvenTop(y);
      EvenBack(y);
    }
  }

  lemma OddTop(y: bv32)
    ensures ((y >> 1) ^ 0x9908b0df) & 0x8000_0000 != 0
  {
  }

  lemma EvenTop(y: bv32)
    ensures (y >> 1) & 0x8000_0000 == 0
  {
  }

  lemma OddBack(y: bv32)
    requires y & 1 == 1
    ensures (((y >> 1) ^ 0x9908b0df ^ 0x9908b0df) << 1) | 1 == y
  {
  }

  lemma EvenBack(y: bv32)
    requires y & 1 != 1
    ensures (y >> 1) << 1 == y
  {
  }

  lemma XorBack(w: bv32, z: bv32)
    ensures w ^ z ^ w == z
  {
  }

  /** From a term and the one N - M before it come back the upper bit and the lower bits that made it. */
  lemma TwistUndone(w: bv32, u: bv32, v: bv32)
    ensures Untwist(Mix(w, u, v) ^ w) == (u & UPPER_MASK) | (v & LOWER_MASK)
  {
    var y := (u & UPPER_MASK) | (v & LOWER_MASK);
    XorBack(w, Twist(y));
    UntwistTwist(y);
  }

  // ---- tempering loses nothing ----

  function UntemperU(y: bv32): bv32 { y ^ (y >> 11) ^ (y >> 22) }
  function UntemperT(y: bv32): bv32 { y ^ ((y << 15) & MASK_C) }
  function UntemperL(y: bv32): bv32 { y ^ (y >> 18) }

  /** Seven more bits are right after each round. */
  function UntemperS(y: bv32): bv32 {
    var a := y ^ ((y << 7) & MASK_B);
    var b := y ^ ((a << 7) & MASK_B);
    var c := y ^ ((b << 7) & MASK_B);
    y ^ ((c << 7) & MASK_B)
  }

  function Untemper(y: bv32): bv32 { UntemperU(UntemperS(UntemperT(UntemperL(y)))) }

  lemma InverseU(y: bv32)
    ensures UntemperU(TemperU(y)) == y && TemperU(UntemperU(y)) == y
  {
    assert UntemperU(y ^ (y >> 11)) == y;
    assert TemperU(y ^ (y >> 11) ^ (y >> 22)) == y;
  }

  lemma InverseS(y: bv32)
    ensures UntemperS(TemperS(y)) == y && TemperS(UntemperS(y)) == y
  {
  }

  lemma InverseT(y: bv32)
    ensures UntemperT(TemperT(y)) == y && TemperT(UntemperT(y)) == y
  {
  }

  lemma InverseL(y: bv32)
    ensures UntemperL(TemperL(y)) == y && TemperL(UntemperL(y)) == y
  {
    assert UntemperL(y ^ (y >> 18)) == y;
    assert TemperL(y ^ (y >> 18)) == y;
  }

  /** Tempering is a bijection on 32-bit words: Untemper is its inverse on both sides. */
  lemma TemperBijection(y: bv32)
    ensures Untemper(Temper(y)) == y && Temper(Untemper(y)) == y
  {
    var u := TemperU(y);
    var s := TemperS(u);
    var t := TemperT(s);
    InverseU(y);
    InverseS(u);
    InverseT(s);
    InverseL(t);
    var l' := UntemperL(y);
    var t' := UntemperT(l');
    var s' := UntemperS(t');
    InverseL(y);
    InverseT(l');
    InverseS(t');
    InverseU(s');
  }

  /** Four values of it. */
  lemma TemperValues()
    ensures Temper(1) == 0x0040_0091 && Temper(0x8000_0000) == 0x8810_2204
    ensures Temper(0xffff_ffff) == 0x6fe0_1bf8 && Temper(0x1234_5678) == 0x2b7e_4a2d
  {
    assert TemperU(1) == 1 && TemperS(1) == 0x81 && TemperT(0x81) == 0x0040_0081 && TemperL(0x0040_0081) == 0x0040_0091;
  }

  // ---- the code ----

  /** terms[k] is term k; looked at only where a proof names it. */
  ghost predicate IsTerm(s: bv32, terms: seq<bv32>, k: nat) { k < |terms| && terms[k] == Term(s, k) }

  ghost predicate AreTerms(s: bv32, terms: seq<bv32>) {
    forall k: nat {:trigger IsTerm(s, terms, k)} :: k < |terms| ==> IsTerm(s, terms, k)
  }

  lemma OneMore(s: bv32, terms: seq<bv32>, a: nat, b: nat, c: nat)
    requires AreTerms(s, terms) && |terms| >= N
    requires a == |terms| - N + M && b == |terms| - N && c == |terms| - N + 1
    ensures AreTerms(s, terms + [Mix(terms[a], terms[b], terms[c])])
  {
    var more := terms + [Mix(terms[a], terms[b], terms[c])];
    assert IsTerm(s, terms, a) && IsTerm(s, terms, b) && IsTerm(s, terms, c);
    forall k: nat | k < |more| ensures IsTerm(s, more, k) {
      if k < |terms| { assert IsTerm(s, terms, k); }
    }
  }

  lemma OneMoreSeed(s: bv32, terms: seq<bv32>)
    requires AreTerms(s, terms) && 0 < |terms| < N
    ensures AreTerms(s, terms + [NextSeed(terms[|terms| - 1])])
  {
    var more := terms + [NextSeed(terms[|terms| - 1])];
    assert IsTerm(s, terms, |terms| - 1);
    forall k: nat | k < |more| ensures IsTerm(s, more, k) {
      if k < |terms| { assert IsTerm(s, terms, k); }
    }
  }

  class Generator {
    const mt: array<bv32>
    var mti: nat
    /** The seed, its terms so far, and how many numbers have been drawn from them. */
    ghost var seed: bv32
    ghost var terms: seq<bv32>
    ghost var drawn: nat

    ghost predicate Valid()
      reads this, mt
    {
      && mt.Length == N && mti <= N + 1
      && (mti <= N ==> AreTerms(seed, terms) && |terms| >= N && drawn + 2 * N == |terms| + mti && Window(0))
      && (mti == N + 1 ==> drawn == 0)
    }

    /** mt holds the last N terms, written round from place kk. */
    ghost predicate Window(kk: nat)
      requires |terms| >= N
      reads this, mt
    {
      && mt.Length == N && kk <= N && |terms| >= N + kk
      && (forall k :: 0 <= k < kk ==> mt[k] == terms[|terms| - kk + k])
      && (forall k :: kk <= k < N ==> mt[k] == terms[|terms| - N - kk + k])
    }

    constructor ()
      ensures Valid() && mti == N + 1 && fresh(mt)
    {
      mt := new bv32[N](i => 0);
      mti, seed, drawn, terms := N + 1, 0, 0, [];
    }

    /** sgenrand. */
    method Sgenrand(s: bv32)
      requires Valid()
      modifies this, mt
      ensures Valid() && seed == s && drawn == 0 && mti == N && |terms| == N
    {
      mt[0] := s;
      mti := 1;
      seed, drawn, terms := s, 0, [s];
      assert IsTerm(s, terms, 0);
      while mti < N
        invariant 1 <= mti <= N && mt.Length == N && |terms| == mti && seed == s && drawn == 0
        invariant AreTerms(seed, terms) && forall k :: 0 <= k < mti ==> mt[k] == terms[k]
      {
        OneMoreSeed(seed, terms);
        terms := terms + [NextSeed(mt[mti - 1])];
        mt[mti] := NextSeed(mt[mti - 1]);
        mti := mti + 1;
      }
    }

    /** The in-place update of genrand: three loops turn N terms of the sequence into the next N. */
    method NextBlock()
      requires |terms| >= N && Window(0) && AreTerms(seed, terms)
      modifies mt, this`terms
      ensures |terms| == |old(terms)| + N && Window(0) && AreTerms(seed, terms)
    {
      var kk := 0;
      while kk < N - M
        invariant 0 <= kk <= N - M && |terms| == |old(terms)| + kk && Window(kk) && AreTerms(seed, terms)
      {
        Replace(kk, kk + M, kk + 1);
        kk := kk + 1;
      }
      while kk < N - 1
        invariant N - M <= kk <= N - 1 && |terms| == |old(terms)| + kk && Window(kk) && AreTerms(seed, terms)
      {
        Replace(kk, kk + (M - N), kk + 1);
        kk := kk + 1;
      }
      Replace(N - 1, M - 1, 0);
    }

    /** One word of the block: a and c are where the terms M and 1 places on stand at that moment. */
    method Replace(kk: nat, a: nat, c: nat)
      requires |terms| >= N && Window(kk) && AreTerms(seed, terms) && kk < N && a < N && c < N
      requires if a >= kk then a == kk + M else a == kk + M - N
      requires if c > kk then c == kk + 1 else kk == N - 1 && c == 0
      modifies mt, this`terms
      ensures |terms| == |old(terms)| + 1 && Window(kk + 1) && AreTerms(seed, terms)
    {
      ghost var n := |terms|;
      OneMore(seed, terms, n - N + M, n - N, n - N + 1);
      assert mt[a] == terms[n - N + M] && mt[kk] == terms[n - N] && mt[c] == terms[n - N + 1];
      terms := terms + [Mix(mt[a], mt[kk], mt[c])];
      mt[kk] := Mix(mt[a], mt[kk], mt[c]);
    }

    /** genrand: for every seed and every number of calls, call number `drawn` returns the tempered term N + drawn
        of the recurrence without its top bit. A generator not seeded before takes seed 4357. */
    method Genrand() returns (r: bv32)
      requires Valid()
      modifies this, mt
      ensures Valid() && mti <= N && drawn == old(drawn) + 1
      ensures seed == if old(mti) == N + 1 then 4357 else old(seed)
      ensures r == Temper(Term(seed, N + old(drawn))) & RAND_MAX
    {
      if mti >= N { Refill(); }
      var y := mt[mti];
      assert IsTerm(seed, terms, |terms| - N + mti);
      assert y == Term(seed, N + old(drawn));
      mti := mti + 1;
      drawn := drawn + 1;
      r := Temper(y) & RAND_MAX;
    }

    method Refill()
      requires Valid() && mti >= N
      modifies this, mt
      ensures Valid() && mti == 0 && drawn == old(drawn)
      ensures seed == if old(mti) == N + 1 then 4357 else old(seed)
    {
      if mti == N + 1 { Sgenrand(4357); }
      NextBlock();
      mti := 0;
    }
  }
}
