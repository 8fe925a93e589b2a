/** Numerals, and atoi (os161/lib/libc/atoi.c), on 32-bit integers. */
module Decimal {

  const TWO32 := 0x1_0000_0000

  type int32 = x: int | -0x8000_0000 <= x < 0x8000_0000

  /** The two's complement reading of a 32-bit word. */
  function Signed(x: int): (r: int32)
    ensures (x - r) % TWO32 == 0
  {
    var u := x % TWO32;
    if u >= 0x8000_0000 then u - TWO32 else u
  }

  /** A 32-bit signed number is determined by its remainder. */
  lemma SignedIs(x: int, n: int32)
    ensures Signed(x) == n <==> (x - n) % TWO32 == 0
  {
  }

  function Pow(b: nat, k: nat): (r: nat)
    ensures b > 0 ==> r > 0
  {
    if k == 0 then 1 else b * Pow(b, k - 1)
  }

  // ---------------------------------------------------------------- numerals

  const DIGITS := "0123456789abcdef"

  function Digit(d: nat): char
    requires d < 16
  {
    DIGITS[d]
  }

  /** The numeral of `n`, most significant digit first. */
  function Digits(n: nat, base: nat): (r: string)
    requires 2 <= base <= 16
    ensures |r| > 0
  {
    if n < base then [Digit(n)] else Digits(n / base, base) + [Digit(n % base)]
  }

  lemma PowOne(b: nat)
    ensures Pow(b, 0) == 1 && Pow(b, 1) == b
  {
  }

  lemma PowStep(b: nat, k: nat)
    requires k > 0
    ensures Pow(b, k) == b * Pow(b, k - 1)
  {
  }

  lemma DivLess(n: nat, b: nat, p: nat)
    requires b > 0 && n < b * p
    ensures n / b < p
  {
    var q, r := n / b, n % b;
    assert n == b * q + r;
    MulMono(b, p, q);
  }

  lemma MulMono(b: nat, p: nat, q: nat)
    ensures p <= q ==> b * p <= b * q
  {
    if p <= q {
      assert b * (q - p) >= 0;
    }
  }

  /** A numeral of `k` digits is enough for everything below base^k. */
  lemma {:induction false} DigitsLength(n: nat, base: nat, k: nat)
    requires 2 <= base <= 16 && k > 0 && n < Pow(base, k)
    ensures |Digits(n, base)| <= k
    decreases k
  {
    hide Digit, Pow;
    if n < base {
    } else {
      PowOne(base);
      PowStep(base, k);
      DivLess(n, base, Pow(base, k - 1));
      DigitsLength(n / base, base, k - 1);
    }
  }

  predicate IsDigit(c: char) {
    '0' <= c <= '9'
  }

  predicate AllDigits(s: string) {
    forall i :: 0 <= i < |s| ==> IsDigit(s[i])
  }

  /** The value of a decimal numeral. */
  function Value(s: string): nat
    requires AllDigits(s)
  {
    if s == "" then 0 else Value(s[..|s| - 1]) * 10 + (s[|s| - 1] - '0') as nat
  }

  lemma {:induction false} DigitsValue(n: nat)
    ensures AllDigits(Digits(n, 10)) && Value(Digits(n, 10)) == n
  {
    if n >= 10 {
      DigitsValue(n / 10);
      var s := Digits(n, 10);
      assert s[..|s| - 1] == Digits(n / 10, 10);
    } else {
      assert Digits(n, 10)[..0] == "";
    }
  }

  // ---------------------------------------------------------------- numerals in other bases

  predicate IsHex(c: char) {
    '0' <= c <= '9' || 'a' <= c <= 'f'
  }

  function HexValue(c: char): nat
    requires IsHex(c)
  {
    if c <= '9' then (c - '0') as nat else 10 + (c - 'a') as nat
  }

  predicate IsNumeral(s: string, base: nat) {
    forall i :: 0 <= i < |s| ==> IsHex(s[i]) && HexValue(s[i]) < base
  }

  function ValueIn(s: string, base: nat): nat
    requires IsNumeral(s, base)
  {
    if s == "" then 0 else ValueIn(s[..|s| - 1], base) * base + HexValue(s[|s| - 1])
  }

  lemma DigitIs(d: nat)
    requires d < 16
    ensures IsHex(Digit(d)) && HexValue(Digit(d)) == d
  {
  }

  lemma ValueInPush(s: string, c: char, base: nat)
    requires IsNumeral(s, base) && IsHex(c) && HexValue(c) < base
    ensures IsNumeral(s + [c], base) && ValueIn(s + [c], base) == ValueIn(s, base) * base + HexValue(c)
  {
    assert (s + [c])[..|s|] == s;
  }

  /** The numeral of a number, in any base up to 16, has the number's value, and no leading zero. */
  lemma {:induction false} NumeralValue(n: nat, base: nat)
    requires 2 <= base <= 16
    ensures IsNumeral(Digits(n, base), base) && ValueIn(Digits(n, base), base) == n
    ensures n > 0 ==> Digits(n, base)[0] != '0'
  {
    hide Digit, HexValue, IsHex, ValueIn;
    DigitIs(n % base);
    if n < base {
      ValueInPush("", Digit(n), base);
      assert "" + [Digit(n)] == [Digit(n)];
      NoNumeral(base);
      ZeroDigit();
    } else {
      DivSmaller(n, base);
      NumeralValue(n / base, base);
      ValueInPush(Digits(n / base, base), Digit(n % base), base);
    }
  }

  lemma NoNumeral(base: nat)
    ensures IsNumeral("", base) && ValueIn("", base) == 0
  {
  }

  lemma ZeroDigit()
    ensures IsHex('0') && HexValue('0') == 0
  {
  }

  lemma DivSmaller(n: nat, base: nat)
    requires 2 <= base <= n
    ensures 0 < n / base < n && n / base * base + n % base == n
  {
  }

  function Repeat(c: char, k: nat): (r: string)
    ensures |r| == k && forall i :: 0 <= i < k ==> r[i] == c
  {
    seq(k, _ => c)
  }

  lemma {:induction false} LeadingZeros(k: nat, s: string)
    requires AllDigits(s)
    ensures AllDigits(Repeat('0', k) + s) && Value(Repeat('0', k) + s) == Value(s)
    decreases |s| + k
  {
    var t := Repeat('0', k) + s;
    if s != "" {
      LeadingZeros(k, s[..|s| - 1]);
      assert t[..|t| - 1] == Repeat('0', k) + s[..|s| - 1];
    } else if k > 0 {
      LeadingZeros(k - 1, "");
      assert t[..|t| - 1] == Repeat('0', k - 1) + "";
    }
  }

  lemma Regroup(v: nat, p: nat)
    ensures v * p * 10 == v * (10 * p)
  {
  }

  /** Zeros after a numeral multiply it. */
  lemma {:induction false} TrailingZeros(s: string, k: nat)
    requires AllDigits(s)
    ensures AllDigits(s + Repeat('0', k)) && Value(s + Repeat('0', k)) == Value(s) * Pow(10, k)
  {
    if k == 0 {
      assert s + Repeat('0', 0) == s;
    } else {
      TrailingZeros(s, k - 1);
      var t := s + Repeat('0', k);
      assert t[..|t| - 1] == s + Repeat('0', k - 1);
      assert Value(t) == Value(s + Repeat('0', k - 1)) * 10;
      Regroup(Value(s), Pow(10, k - 1));
    }
  }

  // ---------------------------------------------------------------- atoi

  /** How far the prefix of characters satisfying the test goes. */
  function Blanks(s: string): (r: nat)
    ensures r <= |s| && (forall i :: 0 <= i < r ==> s[i] == ' ' || s[i] == '\t')
    ensures r < |s| ==> s[r] != ' ' && s[r] != '\t'
  {
    if s != "" && (s[0] == ' ' || s[0] == '\t') then 1 + Blanks(s[1..]) else 0
  }

  function LeadingDigits(s: string): (r: string)
    ensures AllDigits(r) && |r| <= |s| && s[..|r|] == r && (|r| < |s| ==> !IsDigit(s[|r|]))
  {
    if s != "" && IsDigit(s[0]) then [s[0]] + LeadingDigits(s[1..]) else ""
  }

  function Unsigned(s: string): string {
    if s != "" && (s[0] == '-' || s[0] == '+') then s[1..] else s
  }

  /** The number a text denotes: blanks, a sign, digits, anything. */
  function Denotes(s: string): int {
    var t := s[Blanks(s)..];
    var v: int := Value(LeadingDigits(Unsigned(t)));
    if t != "" && t[0] == '-' then -v else v
  }

  /** The digits are all there is up to something that is not a digit. */
  lemma {:induction false} LeadingIs(ds: string, rest: string)
    requires AllDigits(ds) && (rest == "" || !IsDigit(rest[0]))
    ensures LeadingDigits(ds + rest) == ds
  {
    if ds != "" {
      assert (ds + rest)[1..] == ds[1..] + rest;
      LeadingIs(ds[1..], rest);
    } else {
      assert ds + rest == rest;
    }
  }

  lemma {:induction false} BlanksIs(k: nat, rest: string)
    requires rest == "" || (rest[0] != ' ' && rest[0] != '\t')
    ensures Blanks(Repeat(' ', k) + rest) == k
  {
    if k > 0 {
      assert (Repeat(' ', k) + rest)[1..] == Repeat(' ', k - 1) + rest;
      BlanksIs(k - 1, rest);
    } else {
      assert Repeat(' ', 0) + rest == rest;
    }
  }

  /** atoi, whose unsigned accumulator wraps around.  The end of the string is the terminating NUL. */
  method Atoi(s: string) returns (r: int32)
    ensures r == Signed(Denotes(s))
  {
    hide LeadingDigits, Value, Signed, Blanks;
    var i := SkipBlanks(s);
    var neg := false;
    ghost var t := s[i..];
    if i < |s| && s[i] == '-' {
      neg := true;
      i := i + 1;
    } else if i < |s| && s[i] == '+' {
      i := i + 1;
    }
    assert s[i..] == Unsigned(t);
    var val := Accumulate(s, i);
    var v := Value(LeadingDigits(Unsigned(t)));
    Negated(v);
    r := Signed(if neg then (TWO32 - val) % TWO32 else val);
  }

  method SkipBlanks(s: string) returns (i: nat)
    ensures i == Blanks(s)
  {
    i := 0;
    while i < |s| && (s[i] == ' ' || s[i] == '\t')
      invariant 0 <= i <= |s| && Blanks(s) == i + Blanks(s[i..])
    {
      assert s[i..][1..] == s[i + 1..];
      i := i + 1;
    }
  }

  /** The digit loop of atoi. */
  method Accumulate(s: string, from: nat) returns (val: nat)
    requires from <= |s|
    ensures val == Value(LeadingDigits(s[from..])) % TWO32
  {
    hide LeadingDigits;
    var i := from;
    val := 0;
    ghost var ds := LeadingDigits(s[from..]);
    while i < |s|
      invariant from <= i <= |s| && i - from <= |ds|
      invariant val == Value(ds[..i - from]) % TWO32
    {
      assert s[i] == s[from..][i - from];
      if !IsDigit(s[i]) {
        break;
      }
      assert ds[..i - from + 1][..i - from] == ds[..i - from];
      MulMod(Value(ds[..i - from]), (s[i] - '0') as nat);
      val := (val * 10 + (s[i] - '0') as nat) % TWO32;
      i := i + 1;
    }
    assert i - from == |ds| && ds[..|ds|] == ds;
  }

  lemma MulMod(v: nat, d: nat)
    ensures (v % TWO32 * 10 + d) % TWO32 == (v * 10 + d) % TWO32
  {
    var q := v / TWO32;
    assert v * 10 + d == v % TWO32 * 10 + d + q * 10 * TWO32;
  }

  lemma Negated(v: nat)
    ensures Signed((TWO32 - v % TWO32) % TWO32) == Signed(-(v as int)) && Signed(v % TWO32) == Signed(v)
  {
  }
}
