/** What printf's formats mean (os161/lib/libc/__printf.c), told on the text that comes out. */
module PrintfLaws {
  import opened Decimal
  import opened Printf

  // ---------------------------------------------------------------- formats

  /** Ordinary text is copied. */
  lemma {:induction false} TextLaw(s: string, rest: string, args: seq<Arg>, ap: nat)
    requires '%' !in s
    ensures Rendered(s + rest, args, ap) == s + Rendered(rest, args, ap)
  {
    if s == "" {
      assert "" + rest == rest;
    } else {
      assert (s + rest)[0] == s[0] && (s + rest)[1..] == s[1..] + rest;
      TextLaw(s[1..], rest, args, ap);
      assert [s[0]] + (s[1..] + Rendered(rest, args, ap)) == s + Rendered(rest, args, ap);
    }
  }

  predicate Modifiers(mods: string) {
    forall i :: 0 <= i < |mods| ==> mods[i] in "#-ql0123456789"
  }

  lemma {:induction false} ModifiersRead(done: string, mods: string, ch: char, rest: string, args: seq<Arg>, ap: nat)
    requires Modifiers(mods) && ch !in "#-ql0123456789"
    ensures RenderedField(done, mods + [ch] + rest, args, ap) ==
            Field(done + mods, ch, args, ap) + Rendered(rest, args, ap + if ch in "doupxsc" then 1 else 0)
    decreases |mods|
  {
    hide Field;
    var fmt := mods + [ch] + rest;
    if mods == "" {
      assert fmt[0] == ch && fmt[1..] == rest && done + mods == done;
    } else {
      assert fmt[0] == mods[0] && fmt[1..] == mods[1..] + [ch] + rest;
      ModifiersRead(done + [mods[0]], mods[1..], ch, rest, args, ap);
      assert done + [mods[0]] + mods[1..] == done + mods;
    }
  }

  /** A field takes its modifiers, its type, and one argument if the type is one of doupxsc; then the format
      goes on. */
  lemma FieldLaw(mods: string, ch: char, rest: string, args: seq<Arg>, ap: nat)
    requires Modifiers(mods) && ch !in "#-ql0123456789"
    ensures Rendered("%" + mods + [ch] + rest, args, ap) ==
            Field(mods, ch, args, ap) + Rendered(rest, args, ap + if ch in "doupxsc" then 1 else 0)
  {
    hide Field, RenderedField;
    var fmt := "%" + mods + [ch] + rest;
    assert fmt[0] == '%' && fmt[1..] == mods + [ch] + rest;
    ModifiersRead("", mods, ch, rest, args, ap);
    assert "" + mods == mods;
  }

  // ---------------------------------------------------------------- what is in a field

  /** %s is the string, or (null). */
  lemma StringLaw(mods: string, args: seq<Arg>, ap: nat)
    requires ap < |args|
    ensures args[ap].Str? ==> Field(mods, 's', args, ap) == Padded(mods, "", args[ap].s)
    ensures args[ap].Null? ==> Field(mods, 's', args, ap) == Padded(mods, "", "(null)")
  {
  }

  /** %c is the character of that code, and nothing for a NUL; %% and unknown types are themselves. */
  lemma CharLaw(mods: string, args: seq<Arg>, ap: nat, ch: char)
    ensures ap < |args| && args[ap].Num? && 0 < args[ap].n < 256 ==>
      Field(mods, 'c', args, ap) == Padded(mods, "", [args[ap].n as char])
    ensures ap < |args| && args[ap] == Num(0) ==> Field(mods, 'c', args, ap) == Padded(mods, "", "")
    ensures ch !in "doupxsc" ==> Field(mods, ch, args, ap) == Padded(mods, "", [ch])
  {
    hide Padded;
  }

  /** The base each type prints in. */
  function BaseOf(ch: char): nat {
    if ch == 'o' then 8 else if ch == 'x' || ch == 'p' then 16 else 10
  }

  /** %d, %u, %o, %x and %p: a sign if there is one, 0x or 0 if it is asked for, and the numeral of the number,
      which reads back as the number in its base. */
  lemma NumberLaw(mods: string, ch: char, n: int, args: seq<Arg>, ap: nat) returns (prefix: string, body: string)
    requires ch in "doupx" && ap < |args| && args[ap] == Num(n) && -0x8000_0000 <= n < 0x1_0000_0000
    requires ch == 'd' ==> n < 0x8000_0000
    ensures Field(mods, ch, args, ap) == Padded(mods, prefix, body)
    ensures prefix == (if ch == 'd' && n < 0 then "-" else "")
                      + if ch != 'p' && '#' !in mods then ""
                        else if ch == 'o' then "0" else if ch == 'x' || ch == 'p' then "0x" else ""
    ensures body != "" && IsNumeral(body, BaseOf(ch)) && (|body| > 1 ==> body[0] != '0')
    ensures ValueIn(body, BaseOf(ch)) ==
            if ch == 'd' then (if n < 0 then -n else n) else if n < 0 then n + 0x1_0000_0000 else n
  {
    hide Padded, Digits, ValueIn, IsNumeral;
    prefix := SignPrefix(ch, n) + BasePrefix(mods, ch);
    body := Digits(Magnitude(ch, n), Base(ch));
    NumeralValue(Magnitude(ch, n), Base(ch));
    if Magnitude(ch, n) == 0 {
      OneZero(Base(ch));
    }
  }

  lemma OneZero(base: nat)
    requires 2 <= base <= 16
    ensures |Digits(0, base)| == 1
  {
  }

  // ---------------------------------------------------------------- the field itself

  /** A field is its text, filled up on the left with spaces, on the left with zeros after the prefix, or, with
      a `-`, on the right. */
  lemma PaddedLaw(mods: string, prefix: string, body: string)
    ensures var r, text := Padded(mods, prefix, body), prefix + body;
      && |r| == (if Width(mods) > |text| then Width(mods) else |text|)
      && ('-' in mods ==>
            r[..|text|] == text && forall i :: |text| <= i < |r| ==> r[i] == FillChar(mods))
      && ('-' !in mods && FillChar(mods) == ' ' ==>
            r[|r| - |text|..] == text && forall i :: 0 <= i < |r| - |text| ==> r[i] == ' ')
      && ('-' !in mods && FillChar(mods) == '0' ==>
            && r[..|prefix|] == prefix && r[|r| - |body|..] == body
            && forall i :: |prefix| <= i < |r| - |body| ==> r[i] == '0')
  {
    hide Width, FillChar;
  }

  /** The width is the number the digits among the modifiers spell, and a leading 0 asks for zeros. */
  lemma ModifierLaw(mods: string, ch: char)
    requires ch in "#-ql0123456789"
    ensures Width("") == 0 && FillChar("") == ' '
    ensures Width(mods + [ch]) == if '0' <= ch <= '9' then Width(mods) * 10 + (ch - '0') as nat else Width(mods)
    ensures FillChar(mods + [ch]) == if ch == '0' && Width(mods) == 0 then '0' else FillChar(mods)
  {
    hide Value;
    ModifierPush(mods, ch);
    NoDigits();
  }

  // ---------------------------------------------------------------- plain formats

  lemma Unpadded(text: string)
    ensures Padded("", "", text) == text
  {
    PaddedLaw("", "", text);
    ModifierLaw("", '-');
    assert "" + text == text;
  }

  /** printf("%s", s) prints s, printf("%c", n) the character n, and printf("%%") a percent sign. */
  lemma PlainFormats(s: string, n: int, args: seq<Arg>)
    ensures Rendered("%s", [Str(s)], 0) == s
    ensures 0 < n < 256 ==> Rendered("%c", [Num(n)], 0) == [n as char]
    ensures Rendered("%%", args, 0) == "%"
  {
    hide Field, Padded, Rendered;
    assert "%" + "" + ['s'] + "" == "%s" && "%" + "" + ['c'] + "" == "%c" && "%" + "" + ['%'] + "" == "%%";
    FieldLaw("", 's', "", [Str(s)], 0);
    FieldLaw("", 'c', "", [Num(n)], 0);
    FieldLaw("", '%', "", args, 0);
    StringLaw("", [Str(s)], 0);
    CharLaw("", [Num(n)], 0, '%');
    CharLaw("", args, 0, '%');
    Unpadded(s);
    Unpadded("%");
    if 0 < n < 256 {
      Unpadded([n as char]);
    }
    EndOfFormat([Str(s)], 1);
    EndOfFormat([Num(n)], 1);
    EndOfFormat(args, 0);
  }

  lemma EndOfFormat(args: seq<Arg>, ap: nat)
    ensures Rendered("", args, ap) == ""
  {
  }

  /** printf("%x", n) prints the numeral of n in base 16. */
  lemma PlainNumbers(ch: char, n: int) returns (body: string)
    requires ch in "uox" && 0 <= n < 0x1_0000_0000
    ensures Rendered("%" + [ch], [Num(n)], 0) == body
    ensures body != "" && IsNumeral(body, BaseOf(ch)) && ValueIn(body, BaseOf(ch)) == n
    ensures |body| > 1 ==> body[0] != '0'
  {
    hide Field, Padded, Rendered, ValueIn, IsNumeral;
    assert "%" + "" + [ch] + "" == "%" + [ch];
    FieldLaw("", ch, "", [Num(n)], 0);
    var prefix;
    prefix, body := NumberLaw("", ch, n, [Num(n)], 0);
    Unpadded(body);
    EndOfFormat([Num(n)], 1);
  }

  // ---------------------------------------------------------------- atoi

  predicate IsBlank(c: char) {
    c == ' ' || c == '\t'
  }

  lemma {:induction false} BlanksAre(blank: string, t: string)
    requires (forall i :: 0 <= i < |blank| ==> IsBlank(blank[i])) && (t == "" || !IsBlank(t[0]))
    ensures Blanks(blank + t) == |blank|
  {
    if blank == "" {
      assert "" + t == t;
    } else {
      assert (blank + t)[1..] == blank[1..] + t;
      BlanksAre(blank[1..], t);
    }
  }

  lemma {:induction false} ValueIsDecimal(ds: string)
    requires AllDigits(ds)
    ensures IsNumeral(ds, 10) && Value(ds) == ValueIn(ds, 10)
  {
    if ds == "" {
    } else {
      ValueIsDecimal(ds[..|ds| - 1]);
    }
  }

  /** What atoi takes for the number in a text: blanks and tabs, a sign or none, digits in base 10 or none, and
      anything else after that. */
  lemma AtoiLaw(blank: string, sign: string, ds: string, rest: string)
    requires (forall i :: 0 <= i < |blank| ==> IsBlank(blank[i])) && sign in {"", "-", "+"} && AllDigits(ds)
    requires rest == "" || !IsDigit(rest[0])
    requires ds == "" && sign == "" && rest != "" ==> !IsBlank(rest[0]) && rest[0] != '-' && rest[0] != '+'
    ensures IsNumeral(ds, 10)
    ensures Denotes(blank + sign + ds + rest) == if sign == "-" then -(ValueIn(ds, 10) as int) else ValueIn(ds, 10)
  {
    hide Value, ValueIn, Blanks, LeadingDigits;
    var s, t := blank + sign + ds + rest, sign + (ds + rest);
    assert s == blank + t;
    assert ds != "" ==> IsDigit(ds[0]);
    BlanksAre(blank, t);
    assert s[|blank|..] == t;
    assert Unsigned(t) == ds + rest;
    LeadingIs(ds, rest);
    ValueIsDecimal(ds);
  }
}
