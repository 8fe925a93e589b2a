/** The additive feedback generator (os161/lib/libc/random.c).  A state array is an array of 32-bit words: the
    first is the header that says which generator the array belongs to and where it is, the others are the
    state proper. */
module Random {

  const TWO32 := 0x1_0000_0000
  const MAX_TYPES := 5

  type u32 = x: int | 0 <= x < TWO32

  function Degree(t: nat): nat {
    if t == 1 then 7 else if t == 2 then 15 else if t == 3 then 31 else if t == 4 then 63 else 0
  }

  function Separation(t: nat): nat {
    if t == 1 || t == 3 then 3 else if t == 2 || t == 4 then 1 else 0
  }

  /** The best generator for `n` bytes of state. */
  function TypeFor(n: nat): (t: nat)
    ensures t < MAX_TYPES && (n >= 8 ==> 4 * (Degree(t) + 1) <= n && n >= 4 * (if t == 0 then 2 else 1))
    ensures forall u :: t < u < MAX_TYPES ==> 4 * (Degree(u) + 1) > n
  {
    if n < 32 then 0 else if n < 64 then 1 else if n < 128 then 2 else if n < 256 then 3 else 4
  }

  // ---------------------------------------------------------------- the recurrence

  /** The last `|w|` values, oldest first, after one more step. */
  function Advance(w: seq<u32>, sep: nat): (r: seq<u32>)
    requires 0 < sep < |w|
    ensures |r| == |w|
  {
    w[1..] + [(w[0] + w[|w| - sep]) % TWO32]
  }

  function Iterate(w: seq<u32>, sep: nat, n: nat): (r: seq<u32>)
    requires 0 < sep < |w|
    ensures |r| == |w|
  {
    if n == 0 then w else Advance(Iterate(w, sep, n - 1), sep)
  }

  /** A stream that continues `w` by x[n] = x[n - deg] + x[n - sep]. */
  ghost predicate Recurs(x: seq<u32>, w: seq<u32>, sep: nat)
    requires 0 < sep < |w|
  {
    w <= x && forall n :: |w| <= n < |x| ==> x[n] == (x[n - |w|] + x[n - sep]) % TWO32
  }

  /** The recurrences in numbers: x^7 + x^3 + 1, x^15 + x + 1, x^31 + x^3 + 1 and x^63 + x + 1. */
  lemma Trinomials(t: nat, x: seq<u32>, w: seq<u32>)
    requires 0 < t < MAX_TYPES && |w| == Degree(t) && Recurs(x, w, Separation(t))
    ensures |w| == match t case 1 => 7 case 2 => 15 case 3 => 31 case _ => 63
    ensures t == 1 ==> forall n :: 7 <= n < |x| ==> x[n] == (x[n - 7] as int + x[n - 3]) % 0x1_0000_0000
    ensures t == 2 ==> forall n :: 15 <= n < |x| ==> x[n] == (x[n - 15] as int + x[n - 1]) % 0x1_0000_0000
    ensures t == 3 ==> forall n :: 31 <= n < |x| ==> x[n] == (x[n - 31] as int + x[n - 3]) % 0x1_0000_0000
    ensures t == 4 ==> forall n :: 63 <= n < |x| ==> x[n] == (x[n - 63] as int + x[n - 1]) % 0x1_0000_0000
  {
  }

  lemma WindowStep(x: seq<u32>, d: nat, sep: nat, n: nat)
    requires 0 < sep < d && n + 1 + d <= |x| && x[n + d] == (x[n] + x[n + d - sep]) % TWO32
    ensures Advance(x[n..n + d], sep) == x[n + 1..n + 1 + d]
  {
    var v := x[n..n + d];
    assert v[0] == x[n] && v[d - sep] == x[n + d - sep];
    assert v[1..] + [x[n + d]] == x[n + 1..n + 1 + d];
  }

  /** After n steps the window is at place n of the one stream that starts with it and obeys the recurrence. */
  lemma {:induction false} WindowOf(x: seq<u32>, w: seq<u32>, sep: nat, n: nat)
    requires 0 < sep < |w| && Recurs(x, w, sep) && n + |w| <= |x|
    ensures Iterate(w, sep, n) == x[n..n + |w|]
  {
    hide Advance;
    if n == 0 {
    } else {
      WindowOf(x, w, sep, n - 1);
      WindowStep(x, |w|, sep, n - 1);
    }
  }

  // ---------------------------------------------------------------- the generator

  /** The multiplier and increment of the linear congruential generator. */
  const A := 1103515245
  const C := 12345

  class Rng {
    /** state is &tbl[1]; f and r are fptr - state and rptr - state. */
    var tbl: array<u32>
    var randType: nat
    var f: nat
    var r: nat

    /** The pointers stay inside the table, rand_sep apart. */
    ghost predicate Valid()
      reads this
    {
      && randType < MAX_TYPES && tbl.Length >= Degree(randType) + 1 && tbl.Length >= 2
      && (randType != 0 ==> r < Degree(randType) && f == Apart(r, randType))
    }

    /** The values in the order in which they were made, oldest first. */
    ghost function Window(): (w: seq<u32>)
      reads this, tbl
      requires Valid()
    {
      if randType == 0 then [tbl[1]] else Unrolled(tbl[1..Degree(randType) + 1], randType, r)
    }

    /** What the header of the current array should be. */
    ghost function Header(): u32
      reads this
      requires Valid()
    {
      if randType == 0 then 0 else MAX_TYPES * r + randType
    }

    /** random: the next value, less its lowest bit; or one step of the congruential generator. */
    method Next() returns (i: nat)
      requires Valid()
      modifies this`f, this`r, tbl
      ensures Valid() && tbl[0] == old(tbl[0]) && i < 0x8000_0000
      ensures randType != 0 ==>
                && Window() == Advance(old(Window()), Separation(randType))
                && i == Window()[Degree(randType) - 1] / 2
                && r == (if old(r) + 1 == Degree(randType) then 0 else old(r) + 1)
      ensures randType == 0 ==> i == (old(Window())[0] * A + C) % 0x8000_0000 && Window() == [i] && r == old(r)
    {
      hide Unrolled, Advance;
      if randType == 0 {
        i := (tbl[1] * A + C) % TWO32 % 0x8000_0000;
        tbl[1] := i;
        MaskLow(old(tbl[1]) * A + C);
        return;
      }
      ghost var was := tbl[1..Degree(randType) + 1];
      var g, s := f, r;
      var sum := (tbl[g + 1] + tbl[s + 1]) % TWO32;
      assert tbl[g + 1] == was[g] && tbl[s + 1] == was[s];
      tbl[g + 1] := sum;
      i := sum / 2;
      g := g + 1;
      if g >= Degree(randType) {
        g := 0;
        s := s + 1;
      } else {
        s := s + 1;
        if s >= Degree(randType) {
          s := 0;
        }
      }
      f, r := g, s;
      assert tbl[1..Degree(randType) + 1] == was[old(f) := sum];
      Rolls(was, randType, old(r), sum);
    }

    /** srandom: the table is seeded, and after 10 * deg steps the rear pointer is back at the beginning. */
    method Srandom(x: u32)
      requires Valid()
      modifies this`f, this`r, tbl
      ensures Valid() && tbl[0] == old(tbl[0])
      ensures Window() == Fresh(x, randType) && (randType != 0 ==> r == 0)
    {
      hide Iterate, Advance, Seeded, Unrolled;
      tbl[1] := x;
      if randType == 0 {
        return;
      }
      var deg := Degree(randType);
      Fill(x);
      f, r := Separation(randType), 0;
      ghost var w, q := Window(), 0;
      IterateZero(w, Separation(randType));
      for i := 0 to 10 * deg
        invariant Valid() && tbl[0] == old(tbl[0]) && i == Times(q, deg) + r
        invariant Window() == Iterate(w, Separation(randType), i)
      {
        var v := Next();
        IterateStep(w, Separation(randType), i);
        if r == 0 {
          q := q + 1;
        }
      }
      NoRemainder(q, deg, r);
    }

    /** The congruential fill of the table. */
    method Fill(x: u32)
      requires Valid() && randType != 0 && tbl[1] == x
      modifies tbl
      ensures tbl[0] == old(tbl[0]) && tbl[1..Degree(randType) + 1] == Seeded(x, Degree(randType))
    {
      for i := 1 to Degree(randType)
        invariant tbl[0] == old(tbl[0]) && tbl[1..i + 1] == Seeded(x, i)
      {
        ghost var before := tbl[1..i + 1];
        tbl[i + 1] := (A * tbl[i] + C) % TWO32;
        assert tbl[1..i + 2] == before + [tbl[i + 1]];
      }
    }

    /** What initstate and setstate do to the array they leave. */
    method Save()
      requires Valid()
      modifies tbl
      ensures Valid() && Window() == old(Window()) && tbl[..] == old(tbl[..])[0 := Header()]
      ensures StoredOk(tbl[..]) && StoredType(tbl[..]) == randType && StoredWindow(tbl[..]) == Window()
    {
      ghost var was := tbl[..];
      if randType == 0 {
        tbl[0] := randType;
      } else {
        tbl[0] := MAX_TYPES * r + randType;
      }
      assert tbl[..] == was[0 := Header()];
      if randType != 0 {
        HeaderReads(r, randType);
        assert tbl[1..Degree(randType) + 1] == was[1..Degree(randType) + 1];
      }
    }

    /** initstate with `n` bytes of `a`: a new generator, the old one saved in its own array; with too few
        bytes only the saving is done. */
    method InitState(seed: u32, a: array<u32>, n: nat) returns (ok: bool, ostate: array<u32>)
      requires Valid() && 4 * a.Length >= n
      modifies this, tbl, a
      ensures Valid() && ostate == old(tbl) && (ok <==> n >= 8)
      ensures !ok ==> tbl == old(tbl) && Window() == old(Window()) && randType == old(randType)
      ensures ok ==> tbl == a && randType == TypeFor(n) && tbl[0] == Header() && Window() == Fresh(seed, randType)
      ensures !ok || a != ostate ==>
                && StoredOk(ostate[..]) && StoredType(ostate[..]) == old(randType)
                && StoredWindow(ostate[..]) == old(Window())
    {
      hide Unrolled, TypeFor, Fresh;
      ostate := tbl;
      Save();
      if n < 8 {
        return false, ostate;
      }
      ghost var saved := ostate[..];
      TypeFits(n);
      randType := TypeFor(n);
      tbl := a;
      f, r := Separation(randType), 0;
      Srandom(seed);
      ghost var state := tbl[1..Degree(randType) + 1];
      if randType == 0 {
        tbl[0] := randType;
      } else {
        tbl[0] := MAX_TYPES * r + randType;
      }
      assert tbl[1..Degree(randType) + 1] == state;
      assert a != ostate ==> ostate[..] == saved;
      ok := true;
    }

    /** setstate: the header is read before the current one is written. */
    method SetState(a: array<u32>) returns (ostate: array<u32>)
      requires Valid() && StoredOk(a[..])
      modifies this, tbl
      ensures Valid() && ostate == old(tbl) && tbl == a && randType == StoredType(old(a[..]))
      ensures randType != 0 ==> r == StoredRear(old(a[..]))
      ensures randType == 0 ==> r == old(r)
      ensures Window() == StoredWindow(old(a[..]))
      ensures ostate[..] == old(tbl[..])[0 := old(Header())]
      ensures a != ostate ==>
        StoredOk(ostate[..]) && StoredType(ostate[..]) == old(randType) && StoredWindow(ostate[..]) == old(Window())
    {
      hide Unrolled;
      var t, rear := a[0] % MAX_TYPES, a[0] / MAX_TYPES;
      ghost var was := a[..];
      ostate := tbl;
      Save();
      assert a != ostate ==> a[..] == was;
      randType := t;
      tbl := a;
      if t != 0 {
        r := rear;
        f := (rear + Separation(t)) % Degree(t);
        ApartMod(rear, t);
        assert a[1..Degree(t) + 1] == was[1..Degree(t) + 1];
      }
    }
  }

  // ---------------------------------------------------------------- state arrays

  function StoredType(s: seq<u32>): nat
    requires |s| > 0
  {
    s[0] % MAX_TYPES
  }

  function StoredRear(s: seq<u32>): nat
    requires |s| > 0
  {
    s[0] / MAX_TYPES
  }

  /** The array is one these functions have written. */
  ghost predicate StoredOk(s: seq<u32>) {
    && |s| >= 2 && |s| >= Degree(StoredType(s)) + 1
    && StoredRear(s) < if StoredType(s) == 0 then 1 else Degree(StoredType(s))
  }

  /** The window a state array holds. */
  ghost function StoredWindow(s: seq<u32>): seq<u32>
    requires StoredOk(s)
  {
    if StoredType(s) == 0 then [s[1]] else Unrolled(s[1..Degree(StoredType(s)) + 1], StoredType(s), StoredRear(s))
  }

  /** x, A x + C, A (A x + C) + C, ... */
  function Seeded(x: u32, n: nat): (r: seq<u32>)
    ensures |r| == n
  {
    if n == 0 then [] else if n == 1 then [x]
    else
      var s := Seeded(x, n - 1);
      s + [(A * s[n - 2] + C) % TWO32]
  }

  /** The fill in numbers. */
  lemma {:induction false} SeededBy(x: u32, n: nat, i: nat)
    requires i < n
    ensures Seeded(x, n)[i] == if i == 0 then x else (1103515245 * (Seeded(x, n)[i - 1] as int) + 12345) % 0x1_0000_0000
  {
    if n == 1 || i == n - 1 {
    } else {
      SeededBy(x, n - 1, i);
    }
  }

  /** The window srandom starts from: the congruential fill, run for 10 * deg steps. */
  ghost function Fresh(x: u32, t: nat): seq<u32>
    requires t < MAX_TYPES
  {
    if t == 0 then [x] else Iterate(Unrolled(Seeded(x, Degree(t)), t, 0), Separation(t), 10 * Degree(t))
  }

  /** srandom throws away the first 10 * deg values of the stream that starts with the fill, as the window
      sees it: from the front pointer on. */
  lemma FreshIs(seed: u32, t: nat, x: seq<u32>)
    requires 0 < t < MAX_TYPES && |x| >= 11 * Degree(t)
    requires var w := Seeded(seed, Degree(t))[Separation(t)..] + Seeded(seed, Degree(t))[..Separation(t)];
      |w| == Degree(t) && Recurs(x, w, Separation(t))
    ensures Fresh(seed, t) == x[10 * Degree(t)..11 * Degree(t)]
  {
    hide Seeded, Iterate;
    var w := Seeded(seed, Degree(t))[Separation(t)..] + Seeded(seed, Degree(t))[..Separation(t)];
    assert w == Unrolled(Seeded(seed, Degree(t)), t, 0);
    WindowOf(x, w, Separation(t), 10 * Degree(t));
  }

  lemma IterateZero(w: seq<u32>, sep: nat)
    requires 0 < sep < |w|
    ensures Iterate(w, sep, 0) == w
  {
  }

  lemma IterateStep(w: seq<u32>, sep: nat, n: nat)
    requires 0 < sep < |w|
    ensures Iterate(w, sep, n + 1) == Advance(Iterate(w, sep, n), sep)
  {
  }

  ghost function Times(q: nat, n: nat): nat {
    if q == 0 then 0 else Times(q - 1, n) + n
  }

  lemma {:induction false} TimesIs(q: nat, n: nat)
    ensures Times(q, n) == q * n
  {
    if q == 0 {
    } else {
      TimesIs(q - 1, n);
    }
  }

  lemma NoRemainder(q: nat, deg: nat, r: nat)
    requires r < deg && Times(q, deg) + r == 10 * deg
    ensures r == 0
  {
    TimesIs(q, deg);
    if q >= 10 {
      assert (q - 10) * deg >= 0;
    }
  }

  lemma HeaderReads(r: nat, t: nat)
    requires t < MAX_TYPES
    ensures (MAX_TYPES * r + t) % MAX_TYPES == t && (MAX_TYPES * r + t) / MAX_TYPES == r
  {
  }

  lemma ApartMod(r: nat, t: nat)
    requires 0 < t < MAX_TYPES && r < Degree(t)
    ensures (r + Separation(t)) % Degree(t) == Apart(r, t)
  {
    var d, x := Degree(t), r + Separation(t);
    if x >= d {
      assert x == d + (x - d);
    }
  }

  lemma TypeFits(n: nat)
    requires n >= 8
    ensures TypeFor(n) < MAX_TYPES && 4 * (Degree(TypeFor(n)) + 1) <= n
  {
  }

  /** Drawing n values: the k-th is the (deg + k)-th of the stream that starts with the window and obeys the
      recurrence, less its lowest bit. */
  method Draw(rng: Rng, n: nat, ghost x: seq<u32>) returns (vs: seq<nat>)
    requires rng.Valid() && rng.randType != 0 && Recurs(x, rng.Window(), Separation(rng.randType))
    requires |x| >= Degree(rng.randType) + n
    modifies rng, rng.tbl
    ensures rng.Valid() && rng.tbl == old(rng.tbl) && rng.randType == old(rng.randType) && |vs| == n
    ensures forall k :: 0 <= k < n ==> vs[k] == x[Degree(rng.randType) + k] / 2
    ensures rng.Window() == x[n..n + Degree(rng.randType)]
  {
    hide Unrolled, Iterate, Advance;
    ghost var w, sep := rng.Window(), Separation(rng.randType);
    var t := rng.randType;
    IterateZero(w, sep);
    vs := [];
    for i := 0 to n
      invariant rng.Valid() && rng.tbl == old(rng.tbl) && rng.randType == t && |vs| == i
      invariant rng.Window() == Iterate(w, sep, i)
      invariant forall k :: 0 <= k < i ==> vs[k] == x[Degree(t) + k] / 2
    {
      IterateStep(w, sep, i);
      WindowOf(x, w, sep, i + 1);
      var v := rng.Next();
      vs := vs + [v];
    }
    WindowOf(x, w, sep, n);
  }

  /** Switching to another array and back resumes the sequence, whatever was drawn in between. */
  method SwitchAndBack(rng: Rng, b: array<u32>, draws: nat)
    requires rng.Valid() && StoredOk(b[..]) && b != rng.tbl
    modifies rng, rng.tbl, b
    ensures rng.Valid() && rng.tbl == old(rng.tbl) && rng.randType == old(rng.randType)
      && rng.Window() == old(rng.Window())
  {
    hide Unrolled, StoredOk;
    var a := rng.SetState(b);
    ghost var saved := a[..];
    for i := 0 to draws
      invariant rng.Valid() && rng.tbl == b && a[..] == saved
      modifies rng`f, rng`r, b
    {
      var x := rng.Next();
    }
    var c := rng.SetState(a);
  }

  /** setstate with the current array -- which the comments call safe -- leaves the generator where it was
      exactly when its header happens to be up to date. */
  method SetSame(rng: Rng)
    requires rng.Valid() && StoredOk(rng.tbl[..])
    modifies rng, rng.tbl
    ensures rng.Valid()
    ensures rng.randType == old(rng.randType) && rng.r == old(rng.r) <==> old(rng.tbl[0]) == old(rng.Header())
  {
    hide Unrolled;
    ghost var h, t, r := rng.tbl[0], rng.randType, rng.r;
    HeaderReads(r, t);
    var o := rng.SetState(rng.tbl);
    assert h == MAX_TYPES * (h / MAX_TYPES) + h % MAX_TYPES;
  }

  /** After initstate one draw is enough: setstate with the same array moves the pointers back, but not the table. */
  method OneDrawAndSame(rng: Rng)
    requires rng.Valid() && rng.randType != 0 && rng.tbl[0] == rng.Header()
    modifies rng, rng.tbl
    ensures rng.Valid() && rng.randType == old(rng.randType) && rng.r == old(rng.r) != After(old(rng.r), rng.randType)
  {
    hide Unrolled;
    HeaderReads(rng.r, rng.randType);
    var x := rng.Next();
    var o := rng.SetState(rng.tbl);
  }

  /** The front pointer's place when the rear pointer is at `r`. */
  function Apart(r: nat, t: nat): nat
    requires 0 < t < MAX_TYPES && r < Degree(t)
  {
    if r + Separation(t) < Degree(t) then r + Separation(t) else r + Separation(t) - Degree(t)
  }

  /** The table from the front pointer round to the front pointer again. */
  function Unrolled(state: seq<u32>, t: nat, r: nat): (w: seq<u32>)
    requires 0 < t < MAX_TYPES && r < Degree(t) == |state|
    ensures |w| == Degree(t)
  {
    state[Apart(r, t)..] + state[..Apart(r, t)]
  }

  lemma MaskLow(x: nat)
    ensures x % TWO32 % 0x8000_0000 == x % 0x8000_0000
  {
  }

  function After(r: nat, t: nat): nat {
    if r + 1 == Degree(t) then 0 else r + 1
  }

  lemma Rolls(state: seq<u32>, t: nat, r: nat, sum: u32)
    requires 0 < t < MAX_TYPES && r < Degree(t) == |state|
    requires sum == (state[Apart(r, t)] + state[r]) % TWO32
    ensures Unrolled(state[Apart(r, t) := sum], t, After(r, t)) == Advance(Unrolled(state, t, r), Separation(t))
    ensures Advance(Unrolled(state, t, r), Separation(t))[Degree(t) - 1] == sum
  {
    var f := Apart(r, t);
    var w, now := Unrolled(state, t, r), state[f := sum];
    assert w[0] == state[f];
    assert w[Degree(t) - Separation(t)] == state[r];
    assert w[1..] == state[f + 1..] + state[..f];
    if f + 1 == |state| {
      assert now == state[..f] + [sum];
    } else {
      assert now[f + 1..] == state[f + 1..] && now[..f + 1] == state[..f] + [sum];
    }
  }
}
