/** The printf engine (os161/lib/libc/__printf.c) sending to snprintf's buffer (os161/lib/libc/snprintf.c).
    An argument of the wrong kind, or one too few, is undefined in C; here it reads as 0 or as a null string.
    */
module Printf {
  import opened Decimal

  datatype Arg = Num(n: int) | Str(s: string) | Null

  function ArgNum(args: seq<Arg>, ap: nat): int {
    if ap < |args| && args[ap].Num? then args[ap].n else 0
  }

  function ArgStr(args: seq<Arg>, ap: nat): string {
    if ap < |args| && args[ap].Str? then args[ap].s else "(null)"
  }

  // ---------------------------------------------------------------- what a format means

  predicate IsModifier(c: char) {
    c in "#-ql0123456789"
  }

  /** The digits among the modifiers. */
  function WidthDigits(mods: string): (r: string)
    ensures AllDigits(r)
  {
    if mods == "" then ""
    else
      var n := |mods| - 1;
      WidthDigits(mods[..n]) + if IsDigit(mods[n]) then [mods[n]] else ""
  }

  function Width(mods: string): nat {
    Value(WidthDigits(mods))
  }

  /** The field is padded with zeros if the first of the digits is a 0. */
  function FillChar(mods: string): (r: char)
    ensures r == '0' || r == ' '
  {
    if WidthDigits(mods) != "" && WidthDigits(mods)[0] == '0' then '0' else ' '
  }

  /** A text in its field: spaces go before the prefix, zeros after it, and with a `-` everything goes to the right. */
  function Padded(mods: string, prefix: string, body: string): (r: string)
    ensures |r| == if Width(mods) > |prefix| + |body| then Width(mods) else |prefix| + |body|
  {
    var len := |prefix| + |body|;
    var pad := Repeat(FillChar(mods), if Width(mods) > len then Width(mods) - len else 0);
    if '-' in mods then prefix + body + pad
    else if FillChar(mods) == '0' then prefix + pad + body
    else pad + prefix + body
  }

  predicate IsNumeric(ch: char) {
    ch in "doupx"
  }

  function Base(ch: char): (r: nat)
    ensures r == 8 || r == 10 || r == 16
  {
    if ch == 'd' || ch == 'u' then 10 else if ch == 'o' then 8 else 16
  }

  function Magnitude(ch: char, n: int): (r: nat)
    ensures r < TWO32
  {
    var s: int := Signed(n);
    if ch == 'd' && s < 0 then -s else if ch == 'd' then s else n % TWO32
  }

  function SignPrefix(ch: char, n: int): string {
    if ch == 'd' && Signed(n) < 0 then "-" else ""
  }

  function BasePrefix(mods: string, ch: char): string {
    if !('#' in mods || ch == 'p') then "" else if Base(ch) == 16 then "0x" else if Base(ch) == 8 then "0" else ""
  }

  function NumberField(mods: string, ch: char, n: int): string {
    Padded(mods, SignPrefix(ch, n) + BasePrefix(mods, ch), Digits(Magnitude(ch, n), Base(ch)))
  }

  /** %c of a NUL is an empty string; anything not known prints itself. */
  function OtherText(ch: char, n: int): string {
    if ch == 'c' then CharText(n) else [ch]
  }

  function Field(mods: string, ch: char, args: seq<Arg>, ap: nat): string {
    if IsNumeric(ch) then NumberField(mods, ch, ArgNum(args, ap))
    else if ch == 's' then Padded(mods, "", ArgStr(args, ap))
    else Padded(mods, "", OtherText(ch, ArgNum(args, ap)))
  }

  /** How many arguments a field takes. */
  function Takes(ch: char): nat {
    if IsNumeric(ch) || ch == 's' || ch == 'c' then 1 else 0
  }

  /** The text a format and its arguments stand for. */
  function Rendered(fmt: string, args: seq<Arg>, ap: nat): string
    decreases |fmt|, 1
  {
    if fmt == "" then ""
    else if fmt[0] == '%' then RenderedField("", fmt[1..], args, ap)
    else [fmt[0]] + Rendered(fmt[1..], args, ap)
  }

  /** The same after a % and the modifiers `mods`. */
  function RenderedField(mods: string, fmt: string, args: seq<Arg>, ap: nat): string
    decreases |fmt|, 0
  {
    if fmt == "" then ""
    else if IsModifier(fmt[0]) then RenderedField(mods + [fmt[0]], fmt[1..], args, ap)
    else Field(mods, fmt[0], args, ap) + Rendered(fmt[1..], args, ap + Takes(fmt[0]))
  }

  // ---------------------------------------------------------------- snprintf's sink

  class Snp {
    const buf: array<char>
    const buflen: nat
    var bufpos: nat
    ghost var sent: seq<char>
    /** The buffer as it was handed over. */
    ghost const before: seq<char>

    /** The buffer begins with as much as fits of what was sent, and is otherwise untouched. */
    ghost predicate Valid()
      reads this, buf
    {
      && buflen <= buf.Length == |before|
      && bufpos == (if |sent| < buflen then |sent| else buflen)
      && buf[..] == sent[..bufpos] + before[bufpos..]
    }

    /** `len` is the length passed to vsnprintf: one place is kept for the NUL. */
    constructor (buf: array<char>, len: nat)
      requires len <= buf.Length
      ensures Valid() && sent == [] && this.buf == buf && before == buf[..] && buflen == if len == 0 then 0 else len - 1
    {
      this.buf := buf;
      buflen := if len == 0 then 0 else len - 1;
      bufpos := 0;
      sent := [];
      before := buf[..];
    }

    lemma Contents()
      requires Valid()
      ensures bufpos <= |before| == buf.Length && bufpos == (if |sent| < buflen then |sent| else buflen)
      ensures buf[..] == sent[..bufpos] + before[bufpos..]
    {
    }

    /** __snprintf_send */
    method Send(data: seq<char>)
      requires Valid()
      modifies this, buf
      ensures Valid() && sent == old(sent) + data
    {
      for i := 0 to |data|
        invariant Valid() && sent == old(sent) + data[..i]
      {
        if bufpos < buflen {
          ghost var was := buf[..];
          buf[bufpos] := data[i];
          assert buf[..] == was[bufpos := data[i]];
          bufpos := bufpos + 1;
        }
        sent := sent + [data[i]];
        assert data[..i + 1] == data[..i] + [data[i]];
      }
      assert data[..|data|] == data;
    }
  }

  // ---------------------------------------------------------------- the engine

  /** Room for a 32-bit number in base 8, and a NUL. */
  const NUMBER_BUF_SIZE := 32 / 3 + 2

  class Pf {
    const snp: Snp
    const args: seq<Arg>
    var ap: nat
    var charcount: nat
    var inPct: bool
    var num: nat
    var sign: bool
    var spacing: nat
    var rightspc: bool
    var fillchar: char
    var base: nat
    var baseprefix: bool
    var altformat: bool

    ghost predicate Valid()
      reads this, snp, snp.buf
    {
      snp.Valid() && charcount == |snp.sent|
    }

    /** The fields say what the modifiers so far have asked for. */
    ghost predicate Flags(mods: string)
      reads this
    {
      && spacing == Width(mods) && rightspc == ('-' in mods) && fillchar == FillChar(mods) && altformat == ('#' in mods)
      && num == 0 && !sign && base == 0 && !baseprefix
    }

    constructor (snp: Snp, args: seq<Arg>)
      requires snp.Valid() && snp.sent == []
      ensures Valid() && Flags("") && !inPct && ap == 0 && this.snp == snp && this.args == args
    {
      this.snp, this.args, ap, charcount := snp, args, 0, 0;
      new;
      EndField();
    }

    /** __pf_endfield */
    method EndField()
      modifies this
      ensures Flags("") && !inPct && ap == old(ap) && charcount == old(charcount)
    {
      inPct := false;
      num := 0;
      sign := false;
      spacing := 0;
      rightspc := false;
      fillchar := ' ';
      base := 0;
      baseprefix := false;
      altformat := false;
    }

    /** __pf_print */
    method Print(txt: string)
      requires Valid()
      modifies this`charcount, snp, snp.buf
      ensures Valid() && snp.sent == old(snp.sent) + txt
    {
      snp.Send(txt);
      charcount := charcount + |txt|;
    }

    /** __pf_modifier */
    method Modifier(ch: char, ghost mods: string)
      requires IsModifier(ch) && Flags(mods)
      modifies this`spacing, this`rightspc, this`fillchar, this`altformat
      ensures Flags(mods + [ch])
    {
      hide Value;
      ModifierPush(mods, ch);
      if ch == '#' {
        altformat := true;
      } else if ch == '-' {
        rightspc := true;
      } else if ch == 'l' || ch == 'q' {
      } else if ch == '0' {
        if spacing > 0 {
          spacing := spacing * 10;
        } else {
          fillchar := '0';
        }
      } else {
        assert '0' < ch <= '9';
        spacing := spacing * 10 + (ch - '0') as nat;
      }
    }

    /** __pf_fill */
    method Fill(spc: nat)
      requires Valid()
      modifies this`charcount, snp, snp.buf
      ensures Valid() && snp.sent == old(snp.sent) + Repeat(fillchar, spc)
    {
      for i := 0 to spc
        invariant Valid() && snp.sent == old(snp.sent) + Repeat(fillchar, i)
      {
        Print([fillchar]);
        assert Repeat(fillchar, i + 1) == Repeat(fillchar, i) + [fillchar];
      }
    }

    /** __pf_printstuff */
    method PrintStuff(prefix: string, prefix2: string, stuff: string, ghost mods: string)
      requires Valid() && spacing == Width(mods) && rightspc == ('-' in mods) && fillchar == FillChar(mods)
      modifies this`charcount, snp, snp.buf
      ensures Valid() && snp.sent == old(snp.sent) + Padded(mods, prefix + prefix2, stuff)
    {
      hide Width, FillChar, Snp.Valid;
      ghost var sent := snp.sent;
      var len := |prefix| + |prefix2| + |stuff|;
      var spc := spacing;
      if spc > len {
        spc := spc - len;
      } else {
        spc := 0;
      }
      if spc > 0 && !rightspc && fillchar != '0' {
        Fill(spc);
      }
      Print(prefix);
      Print(prefix2);
      if spc > 0 && !rightspc && fillchar == '0' {
        Fill(spc);
      }
      Print(stuff);
      if spc > 0 && rightspc {
        Fill(spc);
      }
      Assembled(sent, Repeat(fillchar, spc), prefix, prefix2, stuff);
    }

    /** The conversion in __pf_printnum: the numeral of the number. */
    method Convert() returns (x: string)
      requires num < TWO32 && (base == 8 || base == 10 || base == 16)
      ensures x == Digits(num, base) && IsNumeral(x, base) && ValueIn(x, base) == num
    {
      x := DigitLoop();
      NumeralValue(num, base);
    }

    /** Its digit loop, which fills the buffer from the right. */
    method DigitLoop() returns (x: string)
      requires num < TWO32 && (base == 8 || base == 10 || base == 16)
      ensures x == Digits(num, base)
    {
      hide Digits, Digit;
      BufferSuffices(num, base);
      var buf := new char[NUMBER_BUF_SIZE];
      var i := NUMBER_BUF_SIZE - 1;
      var xnum: nat := num;
      buf[i] := '\0';
      i := i - 1;
      while true
        invariant -1 <= i < NUMBER_BUF_SIZE - 1 && buf[NUMBER_BUF_SIZE - 1] == '\0'
        invariant Digits(num, base) == Digits(xnum, base) + buf[i + 1..NUMBER_BUF_SIZE - 1]
        decreases xnum
      {
        LastDigit(xnum, base);
        ghost var tail := buf[i + 1..NUMBER_BUF_SIZE - 1];
        var d, rest := xnum % base, xnum / base;
        buf[i] := Digit(d);
        assert buf[i..NUMBER_BUF_SIZE - 1] == [Digit(d)] + tail;
        i := i - 1;
        xnum := rest;
        if xnum == 0 {
          break;
        }
      }
      x := buf[i + 1..NUMBER_BUF_SIZE - 1];
    }

    /** __pf_printnum */
    method PrintNum(ghost mods: string)
      requires Valid() && spacing == Width(mods) && rightspc == ('-' in mods) && fillchar == FillChar(mods)
      requires num < TWO32 && (base == 8 || base == 10 || base == 16)
      modifies this`charcount, snp, snp.buf
      ensures Valid()
      ensures snp.sent == old(snp.sent) + Padded(mods, (if sign then "-" else "") +
                            (if baseprefix && base == 16 then "0x" else if baseprefix && base == 8 then "0" else ""),
                              Digits(num, base))
    {
      hide Width, FillChar, Snp.Valid, Padded, Digits, IsNumeral, ValueIn;
      var x := Convert();
      var bprefix, sprefix := "", "";
      if baseprefix && base == 16 {
        bprefix := "0x";
      } else if baseprefix && base == 8 {
        bprefix := "0";
      }
      if sign {
        sprefix := "-";
      }
      PrintStuff(sprefix, bprefix, x, mods);
    }

    /** __pf_getnum and __pf_setbase.  int and long are both 32 bits wide. */
    method GetNum(ch: char)
      requires IsNumeric(ch) && !sign && !baseprefix
      modifies this`ap, this`num, this`sign, this`base, this`baseprefix
      ensures num == Magnitude(ch, ArgNum(args, old(ap))) && base == Base(ch) && ap == old(ap) + 1
      ensures sign <==> ch == 'd' && Signed(ArgNum(args, old(ap))) < 0
      ensures baseprefix <==> altformat || ch == 'p'
    {
      var arg := ArgNum(args, ap);
      ap := ap + 1;
      if ch == 'd' {
        var signednum: int := Signed(arg);
        if signednum < 0 {
          sign := true;
          num := -signednum % TWO32;
        } else {
          num := signednum;
        }
      } else {
        num := arg % TWO32;
      }
      if ch == 'd' || ch == 'u' {
        base := 10;
      } else if ch == 'x' || ch == 'p' {
        base := 16;
      } else {
        base := 8;
      }
      if altformat || ch == 'p' {
        baseprefix := true;
      }
    }

    /** The end of a field: the type character `ch`. */
    method Conversion(ch: char, ghost mods: string)
      requires Valid() && Flags(mods) && inPct && !IsModifier(ch)
      modifies this, snp, snp.buf
      ensures Valid() && Flags("") && !inPct
      ensures snp.sent == old(snp.sent) + Field(mods, ch, args, old(ap)) && ap == old(ap) + Takes(ch)
    {
      hide Width, FillChar, Snp.Valid, Padded, Digits, Signed;
      if IsNumeric(ch) {
        GetNum(ch);
        PrintNum(mods);
        EndField();
      } else if ch == 's' {
        var str := ArgStr(args, ap);
        ap := ap + 1;
        assert "" + "" == "";
        PrintStuff("", "", str, mods);
        EndField();
      } else {
        var x := [ch];
        if ch == 'c' {
          x := CharText(ArgNum(args, ap));
          ap := ap + 1;
        }
        assert "" + "" == "";
        PrintStuff("", "", x, mods);
        EndField();
      }
    }

    /** __pf_send, with `rest` the format after `ch`. */
    method SendChar(ch: char, ghost mods: string, ghost rest: string) returns (ghost now: string)
      requires Valid() && Flags(mods) && (!inPct ==> mods == "")
      modifies this, snp, snp.buf
      ensures Valid() && Flags(now) && (!inPct ==> now == "")
      ensures snp.sent + ToCome(inPct, now, rest, args, ap) ==
              old(snp.sent) + ToCome(old(inPct), mods, [ch] + rest, args, old(ap))
    {
      hide Width, FillChar, Snp.Valid, Field, IsModifier;
      now := mods;
      assert ([ch] + rest)[1..] == rest;
      if !inPct && ch != '%' {
        Print([ch]);
      } else if !inPct {
        inPct := true;
      } else if IsModifier(ch) {
        Modifier(ch, mods);
        now := mods + [ch];
      } else {
        Conversion(ch, mods);
        now := "";
      }
    }
  }

  /** A NUL character is an empty string. */
  function CharText(n: int): string {
    if n % 256 == 0 then "" else [(n % 256) as char]
  }

  /** What is still to be sent. */
  ghost function ToCome(inPct: bool, mods: string, fmt: string, args: seq<Arg>, ap: nat): string {
    if inPct then RenderedField(mods, fmt, args, ap) else Rendered(fmt, args, ap)
  }

  lemma LastDigit(n: nat, base: nat)
    requires base == 8 || base == 10 || base == 16
    ensures Digits(n, base) == (if n / base == 0 then "" else Digits(n / base, base)) + [Digit(n % base)]
    ensures n > 0 ==> n / base < n
  {
    if base == 8 {
    } else if base == 10 {
    }
  }

  /** NUMBER_BUF_SIZE - 1 digits are enough for every 32-bit number in every base used. */
  lemma BufferSuffices(n: nat, base: nat)
    requires n < TWO32 && (base == 8 || base == 10 || base == 16)
    ensures |Digits(n, base)| <= NUMBER_BUF_SIZE - 1
  {
    EightToThe11();
    PowGrows(8, base, 11);
    DigitsLength(n, base, 11);
  }

  lemma EightToThe11()
    ensures Pow(8, 11) == 0x2_0000_0000
  {
    assert Pow(8, 3) == 512;
    assert Pow(8, 5) == 32768;
    assert Pow(8, 7) == 2097152;
    assert Pow(8, 9) == 134217728;
  }

  lemma {:induction false} PowGrows(a: nat, b: nat, k: nat)
    requires a <= b
    ensures Pow(a, k) <= Pow(b, k)
  {
    if k == 0 {
    } else {
      PowGrows(a, b, k - 1);
      MulMono(a, Pow(a, k - 1), Pow(b, k - 1));
      MulMono(Pow(b, k - 1), a, b);
    }
  }

  lemma Assembled(s: string, pad: string, p: string, q: string, body: string)
    ensures s + pad + p + q + body == s + (pad + (p + q) + body)
    ensures s + p + q + pad + body == s + (p + q + pad + body)
    ensures s + p + q + body + pad == s + (p + q + body + pad)
    ensures pad == "" ==> s + p + q + body == s + (pad + (p + q) + body)
  {
  }

  lemma ModifierPush(mods: string, ch: char)
    requires IsModifier(ch)
    ensures var now := mods + [ch];
            && Width(now) == (if IsDigit(ch) then Width(mods) * 10 + (ch - '0') as nat else Width(mods))
            && FillChar(now) == (if ch == '0' && Width(mods) == 0 then '0' else FillChar(mods))
            && ('-' in now <==> '-' in mods || ch == '-') && ('#' in now <==> '#' in mods || ch == '#')
  {
    hide Value, WidthDigits;
    var w := WidthDigits(mods);
    WidthDigitsPush(mods, ch);
    if IsDigit(ch) {
      ValuePush(w, ch);
    }
    assert w + "" == w;
    if w == "" {
      NoDigits();
    } else if Value(w) == 0 {
      NoValue(w);
    }
  }

  lemma WidthDigitsPush(mods: string, ch: char)
    ensures WidthDigits(mods + [ch]) == WidthDigits(mods) + if IsDigit(ch) then [ch] else ""
  {
    assert (mods + [ch])[..|mods|] == mods;
  }

  lemma ValuePush(w: string, ch: char)
    requires AllDigits(w) && IsDigit(ch)
    ensures AllDigits(w + [ch]) && Value(w + [ch]) == Value(w) * 10 + (ch - '0') as nat
  {
    assert (w + [ch])[..|w|] == w;
  }

  lemma NoDigits()
    ensures Value("") == 0
  {
  }

  lemma {:induction false} NoValue(s: string)
    requires AllDigits(s) && s != "" && Value(s) == 0
    ensures s[0] == '0'
  {
    if |s| <= 1 {
    } else {
      NoValue(s[..|s| - 1]);
    }
  }

  /** __vprintf: the text the format stands for is sent, and its length returned. */
  method VPrintf(snp: Snp, fmt: string, args: seq<Arg>) returns (count: nat)
    requires snp.Valid() && snp.sent == []
    modifies snp, snp.buf
    ensures snp.Valid() && snp.sent == Rendered(fmt, args, 0) && count == |Rendered(fmt, args, 0)|
  {
    hide Width, FillChar, Snp.Valid;
    var pf := new Pf(snp, args);
    ghost var mods := "";
    assert fmt[0..] == fmt;
    for i := 0 to |fmt|
      invariant pf.Valid() && pf.Flags(mods) && (!pf.inPct ==> mods == "") && fresh(pf) && pf.snp == snp
        && pf.args == args
      invariant snp.sent + ToCome(pf.inPct, mods, fmt[i..], args, pf.ap) == Rendered(fmt, args, 0)
    {
      assert fmt[i..] == [fmt[i]] + fmt[i + 1..];
      mods := pf.SendChar(fmt[i], mods, fmt[i + 1..]);
    }
    count := pf.charcount;
  }

  /** vsnprintf into the first `len` places of `buf`: as much of the text as fits before a NUL, the rest of
      the buffer left alone, and the length of the whole text returned. */
  method VSnprintf(buf: array<char>, len: nat, fmt: string, args: seq<Arg>) returns (count: nat)
    requires len <= buf.Length
    modifies buf
    ensures count == |Rendered(fmt, args, 0)|
    ensures len == 0 ==> buf[..] == old(buf[..])
    ensures len > 0 ==>
              var k := if count < len - 1 then count else len - 1;
              buf[..] == Rendered(fmt, args, 0)[..k] + ['\0'] + old(buf[..])[k + 1..]
  {
    hide Rendered, Snp.Valid;
    var snp := new Snp(buf, len);
    count := VPrintf(snp, fmt, args);
    snp.Contents();
    ghost var text, before := Rendered(fmt, args, 0), old(buf[..]);
    var k := snp.bufpos;
    assert buf[..] == text[..k] + before[k..];
    if len > 0 {
      Terminated(text, before, k);
      ghost var was := buf[..];
      buf[k] := '\0';
      assert buf[..] == was[k := '\0'];
    } else {
      assert text[..0] + before[0..] == before;
    }
  }

  lemma Terminated(text: string, before: string, k: nat)
    requires k <= |text| && k < |before|
    ensures (text[..k] + before[k..])[k := '\0'] == text[..k] + ['\0'] + before[k + 1..]
  {
  }
}
