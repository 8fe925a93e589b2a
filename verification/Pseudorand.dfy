/** The kernel's pseudo-random device (os161/kern/dev/generic/pseudorand.c): the Park-Miller generator by
    Schrage's method. */
module Pseudorand {

  const MULTIPLIER := 16807
  const MODULUS := 0x7fff_ffff
  const K1 := 127773
  const K2 := 2836

  /** MULTIPLIER * INVERSE is 1 modulo MODULUS. */
  const INVERSE := 1407677000

  /** The generator's definition. */
  function Product(seed: nat): nat {
    MULTIPLIER * seed % MODULUS
  }

  predicate InRange(seed: int) {
    1 <= seed <= MODULUS - 1
  }

  lemma Reduce(a: nat, b: nat)
    ensures a * (b % MODULUS) % MODULUS == a * b % MODULUS
  {
    var q, r := b / MODULUS, b % MODULUS;
    assert a * b == a * r + a * q * MODULUS by {
      assert b == q * MODULUS + r;
      assert a * (q * MODULUS + r) == a * q * MODULUS + a * r;
    }
    AddMultiple(a * r, a * q);
  }

  lemma AddMultiple(x: int, k: int)
    ensures (x + k * MODULUS) % MODULUS == x % MODULUS
  {
  }

  /** The step can be undone: no two seeds lead to the same one, and none leads to 0. */
  lemma Undo(seed: nat)
    requires InRange(seed)
    ensures INVERSE * Product(seed) % MODULUS == seed && InRange(Product(seed))
  {
    Reduce(INVERSE, MULTIPLIER * seed);
    var k := INVERSE * MULTIPLIER / MODULUS;
    assert INVERSE * MULTIPLIER == k * MODULUS + 1;
    assert INVERSE * (MULTIPLIER * seed) == seed + k * seed * MODULUS;
    AddMultiple(seed, k * seed);
  }

  /** Schrage's difference is the product up to a multiple of the modulus, small enough for 32 bits and never 0. */
  lemma Schrage(seed: nat)
    requires InRange(seed)
    ensures var tmp := MULTIPLIER * (seed % K1) - K2 * (seed / K1);
            && -0x8000_0000 <= K2 * (seed / K1) < 0x8000_0000 && MULTIPLIER * (seed % K1) < 0x8000_0000
            && -MODULUS < tmp < MODULUS && tmp != 0 && Product(seed) == if tmp < 0 then tmp + MODULUS else tmp
  {
    var hi, lo := seed / K1, seed % K1;
    var tmp := MULTIPLIER * lo - K2 * hi;
    assert MULTIPLIER * seed == tmp + hi * MODULUS;
    AddMultiple(tmp, hi);
    AddMultiple(tmp, 1);
    Undo(seed);
  }

  /** The seed after `n` draws. */
  function SeedAfter(seed: nat, n: nat): nat {
    if n == 0 then seed else Product(SeedAfter(seed, n - 1))
  }

  function Power(n: nat): nat {
    if n == 0 then 1 else MULTIPLIER * Power(n - 1)
  }

  lemma Regroup(p: nat, seed: nat)
    ensures MULTIPLIER * (p * seed) == MULTIPLIER * p * seed
  {
  }

  /** In the long run: the seed is the start times a power of the multiplier, and never leaves its range. */
  lemma {:induction false} SeedStays(seed: nat, n: nat)
    requires InRange(seed)
    ensures InRange(SeedAfter(seed, n)) && SeedAfter(seed, n) == Power(n) * seed % MODULUS
  {
    if n > 0 {
      SeedStays(seed, n - 1);
      Undo(SeedAfter(seed, n - 1));
      Reduce(MULTIPLIER, Power(n - 1) * seed);
      Regroup(Power(n - 1), seed);
    } else {
      assert Power(0) * seed == seed;
    }
  }

  /** Different seeds stay different. */
  lemma {:induction false} SeedsApart(a: nat, b: nat, n: nat)
    requires InRange(a) && InRange(b) && SeedAfter(a, n) == SeedAfter(b, n)
    ensures a == b
  {
    if n == 0 {
    } else {
      SeedStays(a, n - 1);
      SeedStays(b, n - 1);
      Undo(SeedAfter(a, n - 1));
      Undo(SeedAfter(b, n - 1));
      SeedsApart(a, b, n - 1);
    }
  }

  class Softc {
    var seed: nat

    ghost predicate Valid()
      reads this
    {
      InRange(seed)
    }

    /** pseudoattach_pseudorand */
    constructor ()
      ensures Valid() && seed == 305824
    {
      seed := 305824;
    }

    /** pseudorand_random */
    method Random() returns (x: nat)
      requires Valid()
      modifies this
      ensures Valid() && seed == Product(old(seed)) && x == seed - 1 <= MODULUS - 2
    {
      hide Product;
      Schrage(seed);
      Undo(seed);
      var hi, lo := seed / K1, seed % K1;
      var tmp := MULTIPLIER * lo - K2 * hi;
      if tmp <= 0 {
        tmp := tmp + MODULUS;
      }
      seed := tmp;
      x := seed - 1;
    }
  }
}
