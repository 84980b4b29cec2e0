/**
 What the number in a text is, digit by digit, and that it may be written in Persian and in Arabic-Indic
 digits as well as in ASCII ones.
 */
module Numerals {
  import opened Wrappers
  import opened Strings
  import opened Numfmt
  import opened Output
  import opened NumberLaws

  const DIGITS := "0123456789"

  /** The number with its point moved n places to the right: times ten, n times. */
  function Shifted(v: real, n: nat): real {
    if n == 0 then v else 10.0 * Shifted(v, n - 1)
  }

  lemma {:induction false} ShiftedSum(a: real, b: real, n: nat)
    ensures Shifted(a + b, n) == Shifted(a, n) + Shifted(b, n)
  {
    if n > 0 { ShiftedSum(a, b, n - 1); }
  }

  lemma {:induction false} ShiftedMinus(a: real, n: nat)
    ensures Shifted(-a, n) == -Shifted(a, n)
  {
    if n > 0 { ShiftedMinus(a, n - 1); }
  }

  lemma {:induction false} ShiftedTenth(a: real, n: nat)
    ensures Shifted(a / 10.0, n + 1) == Shifted(a, n)
  {
    if n > 0 { ShiftedTenth(a, n - 1); }
  }

  // ----- digits and their values -----

  /** The digits are ten, and each denotes its place among them. */
  lemma {:induction false} DigitsAreTen(c: char)
    ensures IsDigit(c) <==> c in DIGITS
    ensures forall d :: 0 <= d < 10 ==> IsDigit(DIGITS[d]) && NatOf([DIGITS[d]]) == d
  {
    forall d | 0 <= d < 10
      ensures IsDigit(DIGITS[d]) && NatOf([DIGITS[d]]) == d
    {
      assert DIGITS[d] as int == '0' as int + d;
      assert [DIGITS[d]][..0] == [];
    }
    if IsDigit(c) { assert DIGITS[c as int - '0' as int] == c; }
  }

  /** The number a run of digits denotes, as a real. */
  function Whole(s: string): real
    requires AllDigits(s)
  {
    NatOf(s) as real
  }

  lemma {:induction false} WholeSnoc(init: string, last: char)
    requires AllDigits(init) && IsDigit(last)
    ensures AllDigits(init + [last])
    ensures Whole(init + [last]) == 10.0 * Whole(init) + (last as int - '0' as int) as real
  {
    assert (init + [last])[..|init|] == init;
  }

  /** Digits put behind others shift those to the left. */
  lemma {:induction false} WholeConcat(a: string, b: string)
    requires AllDigits(a) && AllDigits(b)
    ensures AllDigits(a + b) && Whole(a + b) == Shifted(Whole(a), |b|) + Whole(b)
  {
    if b == [] {
      assert a + b == a;
    } else {
      var init, last := b[..|b| - 1], b[|b| - 1];
      assert last in b && forall r :: r in init ==> r in b;
      WholeConcat(a, init);
      assert a + b == (a + init) + [last] && b == init + [last];
      WholeSnoc(a + init, last);
      WholeSnoc(init, last);
    }
  }

  /** A fraction is its digits, with the point moved behind them. */
  lemma {:induction false} FractionIs(s: string)
    requires AllDigits(s)
    ensures Shifted(FractionOf(s), |s|) == Whole(s)
  {
    if s != [] {
      var first, rest := [s[0]], s[1..];
      assert s[0] in s && forall r :: r in rest ==> r in s;
      var digit := (s[0] as int - '0' as int) as real;
      assert Whole(s) == Shifted(digit, |rest|) + Whole(rest) by {
        WholeConcat(first, rest);
        assert s == first + rest;
        WholeSnoc("", s[0]);
        assert "" + first == first;
      }
      FractionIs(rest);
      ShiftedSum(digit, FractionOf(rest), |rest|);
      ShiftedTenth(digit + FractionOf(rest), |rest|);
    }
  }

  /** A number with a sign, a whole part and a fraction is its digits, negated for a minus, with the point in place. */
  lemma {:induction false} NumberIs(sign: string, whole: string, frac: string)
    requires AllDigits(whole) && AllDigits(frac)
    ensures AllDigits(whole + frac)
    ensures Shifted(Number(sign, whole, frac), |frac|) ==
      if sign == "-" then -Whole(whole + frac) else Whole(whole + frac)
  {
    WholeConcat(whole, frac);
    FractionIs(frac);
    ShiftedSum(Whole(whole), FractionOf(frac), |frac|);
    ShiftedMinus(Whole(whole) + FractionOf(frac), |frac|);
  }

  /** Where the first point is, or the end. */
  function PointAt(d: string): (i: nat)
    ensures i <= |d|
  {
    if IndexOf(d, '.') < 0 then |d| else IndexOf(d, '.')
  }

  lemma {:induction false} PartsAroundPoint(before: string, after: string)
    requires '.' !in before
    ensures Parts(before + (['.'] + after)) == (OnlyDigits(before), OnlyDigits(['.'] + after))
  {
    var tail := ['.'] + after;
    assert Cut(before + tail, '.') == (before, after, true) by { CutOf(before, '.', after); }
    assert OnlyDigits(tail) == OnlyDigits(after) by {
      OnlyDigitsConcat(['.'], after);
      OnlyDigitsSnoc("", '.');
      assert "" + ['.'] == ['.'];
    }
  }

  lemma {:induction false} PartsAround(d: string)
    ensures Parts(d) == (OnlyDigits(d[..PointAt(d)]), OnlyDigits(d[PointAt(d)..]))
  {
    var i := PointAt(d);
    IndexOfIsFirst(d, '.');
    if i < |d| {
      assert d[i..] == ['.'] + d[i + 1..];
      assert d == d[..i] + (['.'] + d[i + 1..]);
      PartsAroundPoint(d[..i], d[i + 1..]);
    } else {
      CutWithout(d, '.');
      assert d[..i] == d && d[i..] == "";
    }
  }

  /**
   The value of a text is all its digits, with the point before those behind the first point, and negated if a minus
   comes first. What else is in the text does not matter.
   */
  lemma {:induction false} ValueIs(s: string)
    ensures var d := Digits(s); var digits, places := OnlyDigits(d), |OnlyDigits(d[PointAt(d)..])|;
      && AllDigits(digits)
      && (digits == "" <==> Value(s) == None)
      && (digits != "" ==>
           Shifted(Value(s).value, places) == if d[0] == '-' then -Whole(digits) else Whole(digits))
  {
    var d := Digits(s);
    var whole, frac := Parts(d).0, Parts(d).1;
    PartsAround(d);
    PartsAreDigits(d);
    OnlyDigitsAre(d);
    if whole + frac == "" {
      assert Value(s) == None;
    } else {
      assert Value(s) == Some(Number(Sign(d), whole, frac)) by { ValueOf(s, Sign(d), whole, frac); }
      NumberIs(Sign(d), whole, frac);
      assert d != "" && (Sign(d) == "-" <==> d[0] == '-');
    }
  }

  /** The digits of a text are its ASCII digits, in order. */
  lemma {:induction false} OnlyDigitsKeeps(a: string, c: char, b: string)
    ensures OnlyDigits("") == ""
    ensures OnlyDigits(a + [c] + b) == OnlyDigits(a) + (if c in DIGITS then [c] else "") + OnlyDigits(b)
  {
    OnlyDigitsConcat(a + [c], b);
    OnlyDigitsSnoc(a, c);
    DigitsAreTen(c);
  }

  // ----- the three scripts -----

  datatype Script = Latin | Persian | Arabic {
    /** The rune of zero; the other digits follow it. */
    function Zero(): char {
      match this
      case Latin => '0'
      case Persian => '\U{06F0}'
      case Arabic => '\U{0660}'
    }

    function Point(): char {
      if Latin? then '.' else '\U{066B}'
    }
  }

  /** How an ASCII rune is written in the script. */
  function Glyph(script: Script, c: char): char {
    if '0' <= c <= '9' then (script.Zero() as int + (c as int - '0' as int)) as char
    else if c == '.' then script.Point()
    else c
  }

  /** A text written in the digits of the script. */
  function In(script: Script, t: string): (s: string)
    ensures |s| == |t| && forall i :: 0 <= i < |t| ==> s[i] == Glyph(script, t[i])
  {
    seq(|t|, i requires 0 <= i < |t| => Glyph(script, t[i]))
  }

  lemma {:induction false} DigitsConcat(a: string, b: string)
    ensures Digits(a + b) == Digits(a) + Digits(b)
  {
    EachConcat(a, b, Rewritten);
  }

  /**
   Rune by rune: the digits of both scripts become ASCII ones, their decimal point becomes a point, the six
   invisible runes vanish, and any other rune stays.
   */
  lemma {:induction false} DigitsOfRune(r: char)
    ensures forall d :: 0 <= d < 10 ==> r as int == 0x06F0 + d || r as int == 0x0660 + d ==> Digits([r]) == [DIGITS[d]]
    ensures r == '\U{066B}' ==> Digits([r]) == "."
    ensures r in ['\U{200B}', '\U{200C}', '\U{200D}', '\U{200E}', '\U{200F}', '\U{FEFF}'] ==> Digits([r]) == ""
    ensures
      (&& !(0x06F0 <= r as int <= 0x06F9) && !(0x0660 <= r as int <= 0x0669) && r != '\U{066B}'
       && r !in ['\U{200B}', '\U{200C}', '\U{200D}', '\U{200E}', '\U{200F}', '\U{FEFF}']) ==>
      Digits([r]) == [r]
  {
    assert Digits([r]) == Rewritten(r) by {
      EachSnoc("", r, Rewritten);
      assert "" + [r] == [r];
    }
    assert forall d :: 0 <= d < 10 ==> DIGITS[d] as int == '0' as int + d;
  }

  lemma {:induction false} GlyphIsRead(script: Script, c: char)
    requires Plain(c)
    ensures Rewritten(Glyph(script, c)) == [c]
  {
  }

  lemma {:induction false} DigitsOfGlyphs(s: string, t: string)
    requires |s| == |t| && forall i :: 0 <= i < |t| ==> Rewritten(s[i]) == [t[i]]
    ensures Digits(s) == t
  {
    if t != "" {
      var n := |t| - 1;
      DigitsOfGlyphs(s[..n], t[..n]);
      assert t == t[..n] + [t[n]];
    }
  }

  /** A text in any of the scripts is read as the text it writes. */
  lemma {:induction false} DigitsOfScript(script: Script, t: string)
    requires AllPlain(t)
    ensures Digits(In(script, t)) == t
  {
    forall i | 0 <= i < |t|
      ensures Rewritten(In(script, t)[i]) == [t[i]]
    {
      assert t[i] in t;
      GlyphIsRead(script, t[i]);
    }
    DigitsOfGlyphs(In(script, t), t);
  }

  lemma {:induction false} SameInScript(script: Script, t: string)
    requires AllPlain(t)
    ensures Clean(In(script, t)) == Clean(t) && Change(In(script, t)) == Change(t) && Value(In(script, t)) == Value(t)
  {
    DigitsOfScript(script, t);
    DigitsOfPlain(t);
  }

  /** A decimal printed with or without separators is read back from any of the scripts, as text and as number. */
  lemma {:induction false} ReadInScript(script: Script, x: Decimal)
    requires x.Valid()
    ensures NumberText(Digits(In(script, x.Show()))) == x.Show() && Value(In(script, x.Show())) == Some(x.Real())
    ensures NumberText(Digits(In(script, Group(x.Show())))) == x.Show()
    ensures Value(In(script, Group(x.Show()))) == Some(x.Real())
  {
    ShowIsPrinted(x);
    PrintedIsPlain(x.Show());
    DigitsOfScript(script, x.Show());
    ShownIsRead(x);
    SameInScript(script, x.Show());
    GroupIsPrinted(x);
    PrintedIsPlain(Group(x.Show()));
    DigitsOfScript(script, Group(x.Show()));
    PrintThenParse(x);
    SameInScript(script, Group(x.Show()));
  }

  lemma {:induction false} ShownIsRead(x: Decimal)
    requires x.Valid()
    ensures NumberText(x.Show()) == x.Show() && Value(x.Show()) == Some(x.Real())
  {
    assert Digits(x.Show()) == x.Show() by {
      ShowIsPrinted(x);
      PrintedIsPlain(x.Show());
    }
    assert x.whole[0] in x.whole;
    assert Parts(x.Show()) == (x.whole, x.frac) && Sign(x.Show()) == x.SignText() by {
      PartsOfGrouped(x.SignText(), x.whole, x.frac);
      OnlyDigitsOf(x.whole);
    }
    ValueOf(x.Show(), x.SignText(), x.whole, x.frac);
  }

  /** So is a change cell. */
  lemma {:induction false} ChangeInScript(script: Script, percent: Decimal, amount: Decimal)
    requires percent.Valid() && amount.Valid()
    ensures var text := Group(amount.Show());
      Change(In(script, Cell(percent.Show(), text))) == (percent.Real(), text)
  {
    var text := Group(amount.Show());
    ShowIsPrinted(percent);
    GroupIsPrinted(amount);
    CellIsPlain(percent.Show(), text);
    SameInScript(script, Cell(percent.Show(), text));
    ChangeRoundTrip(percent, amount);
  }

  lemma {:induction false} CellIsPlain(p: string, g: string)
    requires (forall r :: r in p ==> IsPrinted(r)) && (forall r :: r in g ==> IsPrinted(r))
    ensures AllPlain(Cell(p, g))
  {
    WordOfPercent(p);
    PrintedIsPlain(g);
    AsciiIsPlain(' ');
    assert Cell(p, g) == "(" + p + "%)" + " " + g;
    assert forall r :: r in Cell(p, g) ==> r in "(" + p + "%)" || r == ' ' || r in g;
  }

  // ----- other separators -----

  /** Numbers are also grouped with other signs than the comma. */
  function Separated(t: string, sep: char): string {
    if t == "" then ""
    else Separated(t[..|t| - 1], sep) + [if t[|t| - 1] == ',' then sep else t[|t| - 1]]
  }

  lemma {:induction false} SeparatedDigits(t: string, sep: char)
    requires !IsDigit(sep) && sep != '.' && '.' !in t
    ensures OnlyDigits(Separated(t, sep)) == OnlyDigits(t) && '.' !in Separated(t, sep)
    ensures |Separated(t, sep)| == |t| && (t != "" && IsDigit(t[0]) ==> Separated(t, sep)[0] == t[0])
  {
    if t != "" {
      var init, last := t[..|t| - 1], t[|t| - 1];
      assert last in t && forall r :: r in init ==> r in t;
      SeparatedDigits(init, sep);
      OnlyDigitsSnoc(Separated(init, sep), if last == ',' then sep else last);
    }
  }

  /** Whatever rune separates the groups of a decimal, as long as it is neither digit nor point, its number is read. */
  lemma {:induction false} AnySeparator(x: Decimal, sep: char)
    requires x.Valid() && !IsDigit(sep) && sep != '.' && Plain(sep)
    ensures Value(x.SignText() + Mantissa(Separated(GroupWhole(x.whole), sep), x.frac)) == Some(x.Real())
  {
    var g := Separated(GroupWhole(x.whole), sep);
    var s := x.SignText() + Mantissa(g, x.frac);
    GroupWholeOf(x.whole);
    SeparatedDigits(GroupWhole(x.whole), sep);
    assert Digits(s) == s by {
      SeparatedIsPlain(GroupWhole(x.whole), sep);
      forall r | r in s
        ensures Plain(r)
      {
        assert r in x.SignText() || r in g || r == '.' || r in x.frac;
        if r !in g { AsciiIsPlain(r); }
      }
      DigitsOfPlain(s);
    }
    PartsOfGrouped(x.SignText(), g, x.frac);
    ValueOf(s, x.SignText(), x.whole, x.frac);
  }

  lemma {:induction false} SeparatedIsPlain(t: string, sep: char)
    requires Plain(sep) && forall r :: r in t ==> IsDigit(r) || r == ','
    ensures AllPlain(Separated(t, sep))
  {
    if t != "" {
      var init, last := t[..|t| - 1], t[|t| - 1];
      assert last in t && forall r :: r in init ==> r in t;
      SeparatedIsPlain(init, sep);
      AsciiIsPlain(last);
    }
  }
}
