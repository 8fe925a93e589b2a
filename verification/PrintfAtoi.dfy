/** atoi reads back what printf %d wrote. */
module PrintfAtoi {
  import opened Bits
  import opened Decimal
  import opened Printf

  /** Blanks, a sign, digits and then something else denote the number the digits do. */
  lemma DenotesText(k: nat, neg: bool, ds: string, rest: string)
    requires AllDigits(ds) && ds != "" && (rest == "" || !IsDigit(rest[0]))
    ensures Denotes(Repeat(' ', k) + (if neg then "-" else "") + ds + rest) ==
      if neg then -(Value(ds) as int) else Value(ds)
  {
    hide Value, Blanks, LeadingDigits;
    var sp := if neg then "-" else "";
    var s := Repeat(' ', k) + sp + ds + rest;
    var t := sp + (ds + rest);
    assert IsDigit(ds[0]);
    assert s == Repeat(' ', k) + t;
    BlanksIs(k, t);
    assert s[k..] == t;
    assert Unsigned(t) == ds + rest;
    LeadingIs(ds, rest);
  }

  lemma {:induction false} TensAreEven(k: nat)
    requires k > 0
    ensures Pow(10, k) % 2 == 0
  {
    assert Pow(10, k) == 2 * (5 * Pow(10, k - 1));
  }

  /** An odd factor can be cancelled from divisibility by a power of two. */
  lemma {:induction false} OddCancels(x: int, o: int, m: nat)
    requires o % 2 == 1 && x * o % Pow2(m) == 0
    ensures x % Pow2(m) == 0
    decreases m
  {
    if m == 0 {
    } else {
      var p := Pow2(m - 1);
      OddHalves(x, o, p);
      OddCancels(x / 2, o, m - 1);
      TwiceDivides(x / 2, p);
    }
  }

  lemma OddHalves(x: int, o: int, p: nat)
    requires o % 2 == 1 && p > 0 && x * o % (2 * p) == 0
    ensures x % 2 == 0 && x / 2 * o % p == 0
  {
    var q, j, h := x * o / (2 * p), o / 2, x / 2;
    assert x * o == 2 * p * q;
    Doubles(p, q);
    Doubles(x, j);
    assert x * o == x * (2 * j + 1) == 2 * x * j + x;
    assert x == 2 * (p * q - x * j);
    Doubles(h, o);
    Divides(p, q, h * o);
  }

  lemma Doubles(p: int, q: int)
    ensures 2 * p * q == 2 * (p * q)
  {
  }

  lemma Divides(p: nat, q: int, y: int)
    requires p > 0 && y == p * q
    ensures y % p == 0
  {
    var d, r := y / p - q, y % p;
    assert p * d + r == 0;
    if d >= 0 {
      assert p * d >= 0;
    }
  }

  lemma TwiceDivides(h: int, p: nat)
    requires p > 0 && h % p == 0
    ensures 2 * h % (2 * p) == 0
  {
    var q := h / p;
    assert 2 * h == 2 * p * q;
    Divides(2 * p, q, 2 * h);
  }

  lemma Two32()
    ensures Pow2(32) == TWO32
  {
    assert Pow2(4) == 16;
    assert Pow2(8) == 256;
    assert Pow2(12) == 4096;
    assert Pow2(16) == 65536;
    assert Pow2(20) == 1048576;
    assert Pow2(24) == 16777216;
    assert Pow2(28) == 268435456;
  }

  lemma NotScaled(n: int32, p: nat)
    requires n != 0 && p % 2 == 0
    ensures (n * p - n) % TWO32 != 0
  {
    hide Pow2;
    if (n * p - n) % TWO32 == 0 {
      assert n * p - n == n * (p - 1);
      Two32();
      OddCancels(n, p - 1, 32);
      assert false;
    }
  }

  /** Multiplying by a power of ten brings a 32-bit number back to itself only if there is nothing to multiply. */
  lemma ScaledBack(n: int32, k: nat)
    ensures Signed(n * Pow(10, k)) == n <==> k == 0 || n == 0
  {
    hide Signed, Pow;
    var p := Pow(10, k);
    SignedIs(n * p, n);
    PowOne(10);
    if n != 0 && k > 0 {
      TensAreEven(k);
      NotScaled(n, p);
    }
  }

  /** The natural length of a %d. */
  function Natural(n: int32): nat {
    |SignPrefix('d', n)| + |Digits(Magnitude('d', n), 10)|
  }

  lemma FieldOf(mods: string, n: int32)
    ensures SignPrefix('d', n) == (if n < 0 then "-" else "")
      && Magnitude('d', n) == (if n < 0 then -(n as int) else n as int)
    ensures NumberField(mods, 'd', n) == Padded(mods, if n < 0 then "-" else "", Digits(Magnitude('d', n), 10))
  {
    hide Padded, Digits;
    assert BasePrefix(mods, 'd') == "";
    assert SignPrefix('d', n) + "" == SignPrefix('d', n);
  }

  /** Reading a printed 32-bit number back gives the number: for every width, with spaces on either side or
      zeros on the left. Zeros on the right, which a `-` and a `0` together ask for, spoil it exactly when
      there are any and the number is not 0. */
  lemma AtoiReadsBack(mods: string, n: int32)
    ensures Signed(Denotes(NumberField(mods, 'd', n))) == n <==>
            !('-' in mods && FillChar(mods) == '0') || Width(mods) <= Natural(n) || n == 0
  {
    hide Width, FillChar, Signed, Denotes, Digits, Value, Pow, Magnitude;
    var neg, m := n < 0, Magnitude('d', n);
    var ds := Digits(m, 10);
    FieldOf(mods, n);
    DigitsValue(m);
    var k := if Width(mods) > Natural(n) then Width(mods) - Natural(n) else 0;
    SignedIs(n, n);
    if '-' in mods && FillChar(mods) == '0' {
      ReadZerosRight(neg, ds, k);
      Scaled(n, m, Pow(10, k));
      ScaledBack(n, k);
    } else if '-' in mods {
      ReadSpacesRight(neg, ds, k);
    } else if FillChar(mods) == '0' {
      ReadZerosLeft(neg, ds, k);
    } else {
      ReadSpacesLeft(neg, ds, k);
    }
  }

  /** The modifiers of a format are collected one by one. */
  lemma {:induction false} FieldRendered(done: string, mods: string, args: seq<Arg>)
    requires forall i :: 0 <= i < |mods| ==> IsModifier(mods[i])
    ensures RenderedField(done, mods + "d", args, 0) == NumberField(done + mods, 'd', ArgNum(args, 0))
    decreases |mods|
  {
    hide NumberField;
    if mods == "" {
      assert "" + "d" == "d" && done + "" == done && "d"[1..] == "";
      assert RenderedField(done, "d", args, 0) == NumberField(done, 'd', ArgNum(args, 0)) + "";
    } else {
      var fmt := mods + "d";
      assert fmt[0] == mods[0] && fmt[1..] == mods[1..] + "d";
      FieldRendered(done + [mods[0]], mods[1..], args);
      assert done + [mods[0]] + mods[1..] == done + mods;
    }
  }

  lemma PercentRendered(fmt: string, args: seq<Arg>)
    ensures Rendered("%" + fmt, args, 0) == RenderedField("", fmt, args, 0)
  {
    hide RenderedField;
    assert ("%" + fmt)[0] == '%' && ("%" + fmt)[1..] == fmt;
  }

  /** The same through the whole engine, for a format of one %d with any modifiers. */
  lemma FormatReadsBack(mods: string, n: int32)
    requires forall i :: 0 <= i < |mods| ==> IsModifier(mods[i])
    ensures Signed(Denotes(Rendered("%" + mods + "d", [Num(n)], 0))) == n <==>
            !('-' in mods && FillChar(mods) == '0') || Width(mods) <= Natural(n) || n == 0
  {
    hide Width, FillChar, Signed, Denotes, NumberField, RenderedField, Rendered;
    assert "%" + mods + "d" == "%" + (mods + "d");
    PercentRendered(mods + "d", [Num(n)]);
    FieldRendered("", mods, [Num(n)]);
    assert "" + mods == mods;
    AtoiReadsBack(mods, n);
  }

  lemma ReadZerosRight(neg: bool, ds: string, k: nat)
    requires AllDigits(ds) && ds != ""
    ensures Denotes((if neg then "-" else "") + ds + Repeat('0', k)) ==
            if neg then -(Value(ds) * Pow(10, k)) else Value(ds) * Pow(10, k)
  {
    hide Denotes, Value, Pow;
    var sp := if neg then "-" else "";
    TrailingZeros(ds, k);
    DenotesText(0, neg, ds + Repeat('0', k), "");
    assert Repeat(' ', 0) + sp + (ds + Repeat('0', k)) + "" == sp + ds + Repeat('0', k);
  }

  lemma ReadZerosLeft(neg: bool, ds: string, k: nat)
    requires AllDigits(ds) && ds != ""
    ensures Denotes((if neg then "-" else "") + Repeat('0', k) + ds) == if neg then -(Value(ds) as int) else Value(ds)
  {
    hide Denotes, Value;
    var sp := if neg then "-" else "";
    LeadingZeros(k, ds);
    DenotesText(0, neg, Repeat('0', k) + ds, "");
    assert Repeat(' ', 0) + sp + (Repeat('0', k) + ds) + "" == sp + Repeat('0', k) + ds;
  }

  lemma ReadSpacesRight(neg: bool, ds: string, k: nat)
    requires AllDigits(ds) && ds != ""
    ensures Denotes((if neg then "-" else "") + ds + Repeat(' ', k)) == if neg then -(Value(ds) as int) else Value(ds)
  {
    hide Denotes, Value;
    var sp := if neg then "-" else "";
    DenotesText(0, neg, ds, Repeat(' ', k));
    assert Repeat(' ', 0) + sp + ds + Repeat(' ', k) == sp + ds + Repeat(' ', k);
  }

  lemma ReadSpacesLeft(neg: bool, ds: string, k: nat)
    requires AllDigits(ds) && ds != ""
    ensures Denotes(Repeat(' ', k) + (if neg then "-" else "") + ds) == if neg then -(Value(ds) as int) else Value(ds)
  {
    hide Denotes, Value;
    var sp := if neg then "-" else "";
    DenotesText(k, neg, ds, "");
    assert Repeat(' ', k) + sp + ds + "" == Repeat(' ', k) + sp + ds;
  }

  lemma Scaled(n: int32, m: nat, p: nat)
    requires m == if n < 0 then -(n as int) else n as int
    ensures (if n < 0 then -(m * p) else m * p) == n * p
  {
  }

  /** %-05d of 12 prints 12000. */
  lemma ZerosOnTheRight()
    ensures Signed(Denotes(NumberField("-05", 'd', 12))) != 12
  {
    hide NumberField, Denotes, Signed, Width, FillChar, Digits;
    DashZeroFive();
    TwelveShort();
    AtoiReadsBack("-05", 12);
  }

  lemma DashZeroFive()
    ensures Width("-05") == 5 && FillChar("-05") == '0'
  {
    hide WidthDigits, Value;
    NoWidth();
    WidthDigitsPush("", '-');
    WidthDigitsPush("" + ['-'], '0');
    WidthDigitsPush("" + ['-'] + ['0'], '5');
    assert "" + ['-'] + ['0'] + ['5'] == "-05" && "" + ['0'] + ['5'] == "05";
    NoDigits();
    ValuePush("", '0');
    ValuePush("" + ['0'], '5');
  }

  lemma NoWidth()
    ensures WidthDigits("") == ""
  {
  }

  lemma TwelveShort()
    ensures Natural(12) == 2
  {
    assert Digits(12, 10) == Digits(1, 10) + [Digit(2)];
  }
}
