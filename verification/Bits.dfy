/** Single-bit masks on unsigned integers, as used by the byte bitmap of bitmap.c and the word
    bitmap of kheap.c.  `Set(w, k)` is `w | (1 << k)` and `Clear(w, k)` is `w & ~(1 << k)`. */
module Bits {

  function Pow2(n: nat): (r: nat)
    ensures r > 0
  {
    if n == 0 then 1 else 2 * Pow2(n - 1)
  }

  predicate Bit(w: nat, k: nat)
    decreases k
  {
    if k == 0 then w % 2 == 1 else Bit(w / 2, k - 1)
  }

  function Set(w: nat, k: nat): nat
    decreases k
  {
    if k == 0 then w / 2 * 2 + 1 else 2 * Set(w / 2, k - 1) + w % 2
  }

  function Clear(w: nat, k: nat): nat
    decreases k
  {
    if k == 0 then w / 2 * 2 else 2 * Clear(w / 2, k - 1) + w % 2
  }

  /** Bit `k` is the digit of weight 2^k. */
  lemma {:induction false} BitIs(w: nat, k: nat)
    ensures Bit(w, k) <==> w / Pow2(k) % 2 == 1
    decreases k
  {
    if k == 0 {
    } else {
      BitIs(w / 2, k - 1);
      HalfFirst(w, Pow2(k - 1));
    }
  }

  lemma HalfFirst(w: nat, p: nat)
    requires p > 0
    ensures w / 2 / p == w / (2 * p)
  {
    var q := w / (2 * p);
    var r := w % (2 * p);
    assert w == 2 * p * q + r == 2 * (p * q) + r;
    assert w / 2 == p * q + r / 2 && r / 2 < p;
    DivIs(w / 2, p, q, r / 2);
  }

  lemma DivIs(x: nat, p: nat, q: nat, r: nat)
    requires x == p * q + r && r < p
    ensures x / p == q
  {
    var d := q - x / p;
    assert p * d == x % p - r;
    TimesAtLeast(p, d);
  }

  lemma TimesAtLeast(p: nat, d: int)
    ensures d >= 1 ==> p * d >= p
    ensures d <= -1 ==> p * d <= -(p as int)
  {
  }

  lemma BitHalf(w: nat, k: nat)
    requires k > 0
    ensures Bit(w, k) <==> Bit(w / 2, k - 1)
  {
  }

  lemma SetHalf(w: nat, k: nat)
    requires k > 0
    ensures Set(w, k) == 2 * Set(w / 2, k - 1) + w % 2 && Set(w, k) / 2 == Set(w / 2, k - 1)
  {
  }

  lemma ClearHalf(w: nat, k: nat)
    requires k > 0
    ensures Clear(w, k) == 2 * Clear(w / 2, k - 1) + w % 2 && Clear(w, k) / 2 == Clear(w / 2, k - 1)
  {
  }

  /** Setting bit `k` sets that bit and leaves every other bit alone. */
  lemma {:induction false} SetBits(w: nat, k: nat, j: nat)
    ensures Bit(Set(w, k), j) <==> (j == k || Bit(w, j))
    decreases k
  {
    if k == 0 || j == 0 {
    } else {
      SetHalf(w, k);
      BitHalf(w, j);
      BitHalf(Set(w, k), j);
      hide Set, Bit;
      SetBits(w / 2, k - 1, j - 1);
    }
  }

  lemma {:induction false} ClearBits(w: nat, k: nat, j: nat)
    ensures Bit(Clear(w, k), j) <==> (j != k && Bit(w, j))
    decreases k
  {
    if k == 0 || j == 0 {
    } else {
      ClearHalf(w, k);
      BitHalf(w, j);
      BitHalf(Clear(w, k), j);
      hide Clear, Bit;
      ClearBits(w / 2, k - 1, j - 1);
    }
  }

  lemma {:induction false} SetBounded(w: nat, k: nat, n: nat)
    requires w < Pow2(n) && k < n
    ensures Set(w, k) < Pow2(n)
    decreases n
  {
    HalfPow(n);
    if k == 0 {
    } else {
      SetHalf(w, k);
      hide Set, Pow2;
      SetBounded(w / 2, k - 1, n - 1);
    }
  }

  lemma HalfPow(n: nat)
    requires n > 0
    ensures Pow2(n) == 2 * Pow2(n - 1)
  {
  }

  lemma {:induction false} ClearBounded(w: nat, k: nat, n: nat)
    requires w < Pow2(n)
    ensures Clear(w, k) < Pow2(n)
    decreases k
  {
    if k > 0 && n > 0 {
      ClearBounded(w / 2, k - 1, n - 1);
    } else if k > 0 {
      ClearBounded(0, k - 1, n);
    }
  }

  /** Every bit of the `n`-bit word of all ones is set. */
  lemma {:induction false} OnesHaveBits(n: nat, k: nat)
    requires k < n
    ensures Bit(Pow2(n) - 1, k)
    decreases n
  {
    assert (Pow2(n) - 1) / 2 == Pow2(n - 1) - 1;
    if k == 0 {
    } else {
      OnesHaveBits(n - 1, k - 1);
    }
  }

  /** An `n`-bit word other than all ones has a clear bit. */
  lemma {:induction false} HasClearBit(w: nat, n: nat) returns (k: nat)
    requires w < Pow2(n) - 1
    ensures k < n && !Bit(w, k)
    decreases n
  {
    if w % 2 == 0 {
      k := 0;
    } else {
      k := HasClearBit(w / 2, n - 1);
      k := k + 1;
    }
  }

  lemma {:induction false} ZeroBits(k: nat)
    ensures !Bit(0, k)
  {
    if k == 0 {
    } else {
      ZeroBits(k - 1);
    }
  }

  /** Two `n`-bit words with the same bits are equal. */
  lemma {:induction false} SameBits(v: nat, w: nat, n: nat)
    requires v < Pow2(n) && w < Pow2(n)
    requires forall k :: 0 <= k < n ==> (Bit(v, k) <==> Bit(w, k))
    ensures v == w
    decreases n
  {
    if n == 0 {
    } else {
      forall k | 0 <= k < n - 1
        ensures Bit(v / 2, k) <==> Bit(w / 2, k)
      {
        assert Bit(v, k + 1) <==> Bit(w, k + 1);
      }
      SameBits(v / 2, w / 2, n - 1);
      assert Bit(v, 0) <==> Bit(w, 0);
    }
  }
}
