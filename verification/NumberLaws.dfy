/**
 What the number text functions promise together: every text with a digit is read, what is printed
 is read back, and cleaning a cell changes its value in one case only.
 */
module NumberLaws {
  import opened Wrappers
  import opened Strings
  import opened Numfmt
  import opened Output
  import Board

  /** A decimal as it is written in full: a sign, a whole part and a possibly empty fraction. */
  datatype Decimal = Decimal(neg: bool, whole: string, frac: string) {
    predicate Valid() {
      whole != "" && AllDigits(whole) && AllDigits(frac)
    }

    function SignText(): (r: string)
      ensures IsSign(r)
    {
      if neg then "-" else ""
    }

    function Show(): string {
      SignText() + Mantissa(whole, frac)
    }

    function Real(): real
      requires Valid()
    {
      Number(SignText(), whole, frac)
    }
  }

  lemma {:induction false} AsciiIsPlain(r: char)
    requires r <= '~'
    ensures Plain(r)
  {
  }

  lemma {:induction false} SignOfParts(sign: string, whole: string, frac: string)
    requires IsSign(sign) && AllDigits(whole)
    ensures Sign(sign + Mantissa(whole, frac)) == sign
    ensures (sign + Mantissa(whole, frac))[|sign|..] == Mantissa(whole, frac)
  {
    var t := sign + Mantissa(whole, frac);
    if sign != "" {
      assert t[0] == sign[0];
    } else {
      assert t == Mantissa(whole, frac);
      if whole != "" {
        assert t[0] == whole[0] && whole[0] in whole;
      }
    }
  }

  lemma {:induction false} CutMantissa(whole: string, frac: string)
    requires AllDigits(whole)
    ensures Cut(Mantissa(whole, frac), '.') == (whole, frac, frac != "")
  {
    if frac == "" {
      CutWithout(whole, '.');
      assert whole + "" == whole;
    } else {
      CutOf(whole, '.', frac);
    }
  }

  /** The parser accepts sign and mantissa, and reads the number they denote. */
  lemma {:induction false} ParseParts(sign: string, whole: string, frac: string)
    requires IsSign(sign) && AllDigits(whole) && AllDigits(frac) && whole + frac != ""
    ensures ParseDecimal(sign + Mantissa(whole, frac)) == Some(Number(sign, whole, frac))
  {
    SignOfParts(sign, whole, frac);
    CutMantissa(whole, frac);
  }

  lemma {:induction false} PartsAreDigits(d: string)
    ensures AllDigits(Parts(d).0) && AllDigits(Parts(d).1)
    ensures Parts(d).0 + Parts(d).1 == OnlyDigits(d)
  {
    var (before, after, found) := Cut(d, '.');
    CutMeaning(d, '.');
    OnlyDigitsAre(before);
    OnlyDigitsAre(after);
    if found {
      assert d == before + "." + after;
      OnlyDigitsConcat(before + ".", after);
      OnlyDigitsSnoc(before, '.');
    } else {
      assert d == before;
    }
  }

  lemma {:induction false} OnlyDigitsConcat(a: string, b: string)
    ensures OnlyDigits(a + b) == OnlyDigits(a) + OnlyDigits(b)
  {
    if b == [] {
      assert a + b == a;
    } else {
      var init, r := b[..|b| - 1], b[|b| - 1];
      var kept := if IsDigit(r) then [r] else [];
      OnlyDigitsConcat(a, init);
      assert OnlyDigits(a + b) == OnlyDigits(a + init) + kept by {
        OnlyDigitsSnoc(a + init, r);
        assert a + b == a + init + [r];
      }
      assert OnlyDigits(b) == OnlyDigits(init) + kept;
    }
  }

  /** The value of a text, from the sign and the digits found in it. */
  lemma {:induction false} ValueOf(s: string, sign: string, whole: string, frac: string)
    requires Sign(Digits(s)) == sign && Parts(Digits(s)) == (whole, frac)
    requires AllDigits(whole) && AllDigits(frac) && whole + frac != ""
    ensures NumberText(Digits(s)) == sign + Mantissa(whole, frac)
    ensures Value(s) == Some(Number(sign, whole, frac))
  {
    var d := Digits(s);
    assert HasDigit(d) by {
      PartsAreDigits(d);
      OnlyDigitsAre(d);
    }
    assert Value(s) == ParseDecimal(sign + Mantissa(whole, frac));
    ParseParts(sign, whole, frac);
  }

  /** A decimal the float parser accepts: it has a digit, and no point at its end. */
  predicate Grammatical(t: string) {
    var sign := Sign(t);
    var (whole, frac, point) := Cut(t[|sign|..], '.');
    AllDigits(whole) && AllDigits(frac) && whole + frac != "" && (point ==> frac != "")
  }

  /** Any text with a digit in any of the three scripts is read as a number, and no other text is. */
  lemma {:induction false} ReadsWhateverHasADigit(s: string)
    ensures Value(s).Some? <==> HasDigit(Digits(s))
    ensures HasDigit(Digits(s)) ==> Grammatical(NumberText(Digits(s)))
  {
    var d := Digits(s);
    if HasDigit(d) {
      var whole, frac := Parts(d).0, Parts(d).1;
      assert AllDigits(whole) && AllDigits(frac) && whole + frac != "" by {
        PartsAreDigits(d);
        OnlyDigitsAre(d);
      }
      ValueOf(s, Sign(d), whole, frac);
      SignOfParts(Sign(d), whole, frac);
      CutMantissa(whole, frac);
    }
  }

  // ----- print, then parse -----

  lemma {:induction false} GroupWholeOf(whole: string)
    requires AllDigits(whole)
    ensures OnlyDigits(GroupWhole(whole)) == whole
    ensures forall r :: r in GroupWhole(whole) ==> IsDigit(r) || r == ','
    ensures whole != "" ==> GroupWhole(whole) != "" && IsDigit(GroupWhole(whole)[0])
  {
    if |whole| <= 3 {
      OnlyDigitsOf(whole);
      assert whole != "" ==> whole[0] in whole;
    } else {
      var left, right := whole[..|whole| - 3], whole[|whole| - 3..];
      var g := GroupWhole(left);
      GroupWholeOf(left);
      assert GroupWhole(whole) == g + "," + right;
      assert OnlyDigits(g + "," + right) == left + right by {
        OnlyDigitsOf(right);
        OnlyDigitsConcat(g + ",", right);
        OnlyDigitsSnoc(g, ',');
      }
      assert left + right == whole;
    }
  }

  lemma {:induction false} CutSigned(sign: string, digits: string, frac: string)
    requires IsSign(sign) && '.' !in digits
    ensures Cut(sign + Mantissa(digits, frac), '.') == (sign + digits, frac, frac != "")
  {
    if frac == "" {
      CutWithout(sign + digits, '.');
      assert sign + Mantissa(digits, frac) == sign + digits;
    } else {
      CutOf(sign + digits, '.', frac);
      assert sign + Mantissa(digits, frac) == sign + digits + ("." + frac);
    }
  }

  /** The printed form of a decimal: its sign, its grouped whole part and its fraction. */
  lemma {:induction false} GroupShow(x: Decimal)
    requires x.Valid()
    ensures Group(x.Show()) == x.SignText() + Mantissa(GroupWhole(x.whole), x.frac)
  {
    CutSigned(x.SignText(), x.whole, x.frac);
    var head := x.SignText() + x.whole;
    assert x.whole[0] in x.whole;
    if x.neg {
      assert head[0] == '-' && head[1..] == x.whole;
    } else {
      assert head == x.whole;
    }
    var g := GroupWhole(x.whole);
    assert x.SignText() + g + (if x.frac != "" then "." + x.frac else "") == x.SignText() + Mantissa(g, x.frac);
  }

  /** The runes of a printed number. */
  predicate IsPrinted(r: char) {
    IsDigit(r) || r == ',' || r == '.' || r == '-'
  }

  lemma {:induction false} PrintedIsPlain(s: string)
    requires forall r :: r in s ==> IsPrinted(r)
    ensures AllPlain(s) && NoSpace(s) && Digits(s) == s
  {
    forall i | 0 <= i < |s|
      ensures Plain(s[i]) && !IsSpace(s[i])
    {
      assert IsPrinted(s[i]);
      AsciiIsPlain(s[i]);
      VisibleIsNotSpace(s[i]);
    }
    DigitsOfPlain(s);
  }

  lemma {:induction false} GroupIsPrinted(x: Decimal)
    requires x.Valid()
    ensures forall r :: r in Group(x.Show()) ==> IsPrinted(r)
    ensures Group(x.Show()) != ""
  {
    var sign, g := x.SignText(), GroupWhole(x.whole);
    GroupShow(x);
    GroupWholeOf(x.whole);
    assert forall r :: r in sign + Mantissa(g, x.frac) ==> r in sign || r in g || r == '.' || r in x.frac;
  }

  /** Reading signed text whose digits are grouped in any way. */
  lemma {:induction false} PartsOfGrouped(sign: string, g: string, frac: string)
    requires sign == "" || sign == "-"
    requires AllDigits(frac) && '.' !in g && g != "" && IsDigit(g[0])
    ensures var t := sign + Mantissa(g, frac); Parts(t) == (OnlyDigits(g), frac) && Sign(t) == sign
  {
    var t := sign + Mantissa(g, frac);
    assert Sign(t) == sign by {
      assert t[0] == if sign == "" then g[0] else '-';
    }
    assert Cut(t, '.') == (sign + g, frac, frac != "") by { CutSigned(sign, g, frac); }
    assert OnlyDigits(sign + g) == OnlyDigits(g) by {
      OnlyDigitsConcat(sign, g);
      OnlyDigitsSnoc("", '-');
    }
    assert OnlyDigits(frac) == frac by { OnlyDigitsOf(frac); }
  }

  /** Printing a decimal with separators and reading the result gives back its text and its number. */
  lemma {:induction false} PrintThenParse(x: Decimal)
    requires x.Valid()
    ensures NumberText(Digits(Group(x.Show()))) == x.Show()
    ensures Value(Group(x.Show())) == Some(x.Real())
    ensures InThrees(Split(GroupWhole(x.whole), ','), x.whole)
  {
    var g := Group(x.Show());
    assert Digits(g) == g by {
      GroupIsPrinted(x);
      PrintedIsPlain(g);
    }
    assert Parts(g) == (x.whole, x.frac) && Sign(g) == x.SignText() by {
      GroupShow(x);
      GroupWholeOf(x.whole);
      PartsOfGrouped(x.SignText(), GroupWhole(x.whole), x.frac);
    }
    ValueOf(g, x.SignText(), x.whole, x.frac);
    GroupsAreThrees(x.whole);
  }

  /** Two decimals that print alike are written alike. */
  lemma {:induction false} GroupIsInjective(x: Decimal, y: Decimal)
    requires x.Valid() && y.Valid() && Group(x.Show()) == Group(y.Show())
    ensures x.Show() == y.Show()
  {
    PrintThenParse(x);
    PrintThenParse(y);
  }

  // ----- the change cell -----

  lemma {:induction false} ShowIsPrinted(x: Decimal)
    requires x.Valid()
    ensures forall r :: r in x.Show() ==> IsPrinted(r)
    ensures x.Show() != ""
  {
    var sign := x.SignText();
    assert x.Show() == sign + Mantissa(x.whole, x.frac);
    assert forall r :: r in sign + Mantissa(x.whole, x.frac) ==> r in sign || r in x.whole || r == '.' || r in x.frac;
  }

  /** A percent sign behind a decimal is not part of its number. */
  lemma {:induction false} ValueOfPercent(x: Decimal)
    requires x.Valid()
    ensures Value(x.Show() + "%") == Some(x.Real())
  {
    var s := x.Show() + "%";
    assert Digits(s) == s by {
      ShowIsPrinted(x);
      PrintedIsPlain(x.Show());
      AsciiIsPlain('%');
      assert forall r :: r in s <==> r in x.Show() || r == '%';
      DigitsOfPlain(s);
    }
    assert x.whole[0] in x.whole;
    assert Parts(x.Show()) == (x.whole, x.frac) && Sign(x.Show()) == x.SignText() by {
      PartsOfGrouped(x.SignText(), x.whole, x.frac);
      OnlyDigitsOf(x.whole);
    }
    PartsSnoc(x.Show(), '%');
    assert Sign(s) == Sign(x.Show()) by {
      ShowIsPrinted(x);
      assert s[0] == x.Show()[0];
    }
    ValueOf(s, x.SignText(), x.whole, x.frac);
  }

  /** A change cell as the site renders it. */
  function Cell(percent: string, amount: string): string {
    "(" + percent + "%)" + (" " + amount)
  }

  lemma {:induction false} WordOfPercent(p: string)
    requires forall r :: r in p ==> IsPrinted(r)
    ensures IsWord("(" + p + "%)") && AllPlain("(" + p + "%)")
  {
    var w := "(" + p + "%)";
    assert w[0] == '(';
    PrintedIsPlain(p);
    forall i | 0 <= i < |w|
      ensures Plain(w[i]) && !IsSpace(w[i])
    {
      assert w[i] == '(' || w[i] in p || w[i] == '%' || w[i] == ')';
      AsciiIsPlain(w[i]);
      VisibleIsNotSpace(w[i]);
    }
  }

  lemma {:induction false} WordIsNormal(w: string)
    requires IsWord(w) && AllPlain(w)
    ensures Normal(w)
  {
  }

  /** The cell is in normal form: its one blank stands between the two words. */
  lemma {:induction false} CellIsNormal(p: string, g: string)
    requires g != "" && (forall r :: r in p ==> IsPrinted(r)) && (forall r :: r in g ==> IsPrinted(r))
    ensures Clean(Cell(p, g)) == Cell(p, g)
  {
    PrintedIsPlain(g);
    WordIsNormal(g);
    WordOfPercent(p);
    WordThenNormal("(" + p + "%)", g);
    CleanFixes(Cell(p, g));
  }

  lemma {:induction false} TrimOneBlank(g: string)
    requires g != "" && NoSpace(g)
    ensures TrimSpace(" " + g) == g && TrimSpace(g) == g
  {
    var s := " " + g;
    assert s[1..] == g;
    assert SpaceLength(s) == 1;
    TrimSpaceFixed(g);
  }

  lemma {:induction false} CellCuts(p: string, g: string)
    requires forall r :: r in p ==> IsPrinted(r)
    ensures var c, n := Cell(p, g), |p| + 2;
      && n < |c| && IndexOf(c, '(') == 0 && IndexOf(c, ')') == n
      && c[1..n] == p + "%" && c[n + 1..] == " " + g
  {
    var c, n := Cell(p, g), |p| + 2;
    assert c[0] == '(' && c[n] == ')' && c[n - 1] == '%';
    assert forall k :: 1 <= k <= |p| ==> c[k] == p[k - 1] && IsPrinted(p[k - 1]);
    IndexIs(c, '(', 0);
    IndexIs(c, ')', n);
  }

  /** The parts a change cell is cut into. */
  lemma {:induction false} ChangeOf(p: string, g: string, v: real)
    requires g != "" && (forall r :: r in p ==> IsPrinted(r)) && (forall r :: r in g ==> IsPrinted(r))
    requires Value(p + "%") == Some(v)
    ensures Change(Cell(p, g)) == (v, g)
  {
    var c, n := Cell(p, g), |p| + 2;
    CellIsNormal(p, g);
    CellCuts(p, g);
    assert c[0..] == c;
    assert TrimSpace(c[n + 1..]) == g by {
      PrintedIsPlain(g);
      TrimOneBlank(g);
    }
  }

  /** A change cell printed from a percentage and a grouped amount is split and read back exactly. */
  lemma {:induction false} ChangeRoundTrip(percent: Decimal, amount: Decimal)
    requires percent.Valid() && amount.Valid()
    ensures var text := Group(amount.Show());
      && Change(Cell(percent.Show(), text)) == (percent.Real(), text)
      && Board.AmountOf(text) == Board.Amount(text, amount.Real())
  {
    var text := Group(amount.Show());
    ShowIsPrinted(percent);
    GroupIsPrinted(amount);
    ValueOfPercent(percent);
    ChangeOf(percent.Show(), text, percent.Real());
    assert TrimSpace(text) == text by {
      PrintedIsPlain(text);
      TrimOneBlank(text);
    }
    PrintThenParse(amount);
  }

  // ----- cleaning a cell and its value -----

  /** The runes of s that are not white space. */
  function Strip(s: string): string {
    if s == [] then []
    else Strip(s[..|s| - 1]) + (if IsSpace(s[|s| - 1]) then [] else [s[|s| - 1]])
  }

  lemma {:induction false} StripConcat(a: string, b: string)
    ensures Strip(a + b) == Strip(a) + Strip(b)
  {
    if b == [] {
      assert a + b == a;
    } else {
      var init, t := b[..|b| - 1], a + b;
      StripConcat(a, init);
      assert t[..|t| - 1] == a + init;
    }
  }

  lemma {:induction false} StripCons(c: char, rest: string)
    ensures Strip([c] + rest) == (if IsSpace(c) then "" else [c]) + Strip(rest)
  {
    StripConcat([c], rest);
    assert [c][..0] == [];
    assert Strip([c]) == if IsSpace(c) then "" else [c];
  }

  lemma {:induction false} StripOfFields(s: string)
    ensures Strip(Join(Fields(s), " ")) == Strip(s)
    decreases |s|
  {
    if s == [] {
    } else if IsSpace(s[0]) {
      StripOfFields(s[1..]);
      assert s == [s[0]] + s[1..];
      StripCons(s[0], s[1..]);
    } else {
      var n := WordLength(s);
      var w, rest := s[..n], s[n..];
      assert Fields(s) == [w] + Fields(rest) && s == w + rest;
      StripOfFields(rest);
      StripOfJoin(w, Fields(rest));
      StripConcat(w, rest);
    }
  }

  lemma {:induction false} StripOfJoin(w: string, ws: seq<string>)
    ensures Strip(Join([w] + ws, " ")) == Strip(w) + Strip(Join(ws, " "))
  {
    if ws == [] {
      assert [w] + ws == [w];
    } else {
      var line := Join(ws, " ");
      JoinCons(w, ws, " ");
      StripConcat(w, " " + line);
      StripCons(' ', line);
    }
  }

  lemma {:induction false} PartsOfStrip(s: string)
    ensures Parts(Strip(s)) == Parts(s)
    ensures '.' in Strip(s) <==> '.' in s
  {
    if s != [] {
      var init, r := s[..|s| - 1], s[|s| - 1];
      PartsOfStrip(init);
      assert s == init + [r];
      assert Strip(s) == if IsSpace(r) then Strip(init) else Strip(init) + [r];
      assert IsSpace(r) ==> !IsDigit(r) && r != '.' by {
        if IsDigit(r) || r == '.' { VisibleIsNotSpace(r); }
      }
      PartsSnoc(init, r);
      PartsSnoc(Strip(init), r);
    }
  }

  lemma {:induction false} StripOfTrimLeft(s: string)
    ensures Strip(TrimLeft(s)) == Strip(s)
  {
    if s != [] && IsSpace(s[0]) {
      StripOfTrimLeft(s[1..]);
      assert s == [s[0]] + s[1..];
      StripCons(s[0], s[1..]);
      assert TrimLeft(s) == TrimLeft(s[1..]);
    } else {
      assert s[0..] == s;
    }
  }

  lemma {:induction false} SignOfStrip(s: string)
    requires s != "" ==> !IsSpace(s[0])
    ensures Sign(Strip(s)) == Sign(s)
  {
    if s != "" {
      assert s == [s[0]] + s[1..];
      StripCons(s[0], s[1..]);
    }
  }

  /** Cleaning keeps the digits and the point, and uncovers a sign behind white space. */
  lemma {:induction false} PartsOfClean(s: string)
    ensures Digits(Clean(s)) == Clean(s)
    ensures Parts(Clean(s)) == Parts(Digits(s))
    ensures Sign(Clean(s)) == Sign(TrimLeft(Digits(s)))
  {
    var d, c := Digits(s), Clean(s);
    assert Normal(c) && Digits(c) == c by {
      CleanIsNormal(s);
      DigitsOfPlain(c);
    }
    StripOfFields(d);
    StripOfTrimLeft(d);
    PartsOfStrip(c);
    PartsOfStrip(d);
    SignOfStrip(c);
    SignOfStrip(TrimLeft(d));
  }

  lemma {:induction false} OnlyDigitsMembers(s: string)
    ensures forall r :: r in OnlyDigits(s) <==> r in s && IsDigit(r)
  {
    if s != [] {
      OnlyDigitsMembers(s[..|s| - 1]);
      assert s == s[..|s| - 1] + [s[|s| - 1]];
    }
  }

  predicate HasNonZero(s: string) {
    exists r :: r in s && '1' <= r <= '9'
  }

  lemma {:induction false} HasNonZeroConcat(a: string, b: string)
    ensures HasNonZero(a + b) <==> HasNonZero(a) || HasNonZero(b)
  {
    assert forall r :: r in a + b <==> r in a || r in b;
    assert HasNonZero(a) ==> exists r :: r in a + b && '1' <= r <= '9';
    assert HasNonZero(b) ==> exists r :: r in a + b && '1' <= r <= '9';
  }

  lemma {:induction false} NatOfZero(s: string)
    requires AllDigits(s)
    ensures NatOf(s) > 0 <==> HasNonZero(s)
  {
    if s != [] {
      var init, last := s[..|s| - 1], s[|s| - 1];
      assert last in s;
      NatOfZero(init);
      assert s == init + [last];
      HasNonZeroConcat(init, [last]);
      assert HasNonZero([last]) <==> '1' <= last <= '9' by { assert [last][0] in [last]; }
    }
  }

  lemma {:induction false} FractionOfZero(s: string)
    requires AllDigits(s)
    ensures FractionOf(s) >= 0.0
    ensures FractionOf(s) > 0.0 <==> HasNonZero(s)
  {
    if s != [] {
      var first, rest := s[0], s[1..];
      assert first in s && forall r :: r in rest ==> r in s;
      FractionOfZero(rest);
      assert s == [first] + rest;
      HasNonZeroConcat([first], rest);
      assert HasNonZero([first]) <==> '1' <= first <= '9' by { assert [first][0] in [first]; }
    }
  }

  /** Only a minus that hides behind leading white space, before a number that is not zero, changes the value. */
  predicate HidesMinus(d: string) {
    d != "" && IsSpace(d[0]) && Sign(TrimLeft(d)) == "-" && HasNonZero(d)
  }

  lemma {:induction false} SignMatters(whole: string, frac: string)
    requires AllDigits(whole) && AllDigits(frac)
    ensures Number("-", whole, frac) != Number("", whole, frac) <==> HasNonZero(whole + frac)
    ensures Number("+", whole, frac) == Number("", whole, frac)
  {
    NatOfZero(whole);
    FractionOfZero(frac);
    HasNonZeroConcat(whole, frac);
  }

  lemma {:induction false} SignOfSpace(d: string)
    requires d != "" && IsSpace(d[0])
    ensures Sign(d) == ""
  {
    if '!' <= d[0] <= '~' { VisibleIsNotSpace(d[0]); }
  }

  lemma {:induction false} SignUncovered(d: string, whole: string, frac: string)
    requires AllDigits(whole) && AllDigits(frac) && (HasNonZero(d) <==> HasNonZero(whole + frac))
    ensures Number(Sign(TrimLeft(d)), whole, frac) == Number(Sign(d), whole, frac) <==> !HidesMinus(d)
  {
    SignMatters(whole, frac);
    if d != "" && IsSpace(d[0]) {
      SignOfSpace(d);
    } else {
      assert TrimLeft(d) == d;
    }
  }

  /** Cleaning a cell keeps its value exactly when it does not uncover such a minus. */
  lemma {:induction false} CleanKeepsValueIff(s: string)
    ensures Value(Clean(s)) == Value(s) <==> !HidesMinus(Digits(s))
  {
    var d, c := Digits(s), Clean(s);
    var whole, frac := Parts(d).0, Parts(d).1;
    PartsOfClean(s);
    assert AllDigits(whole) && AllDigits(frac) && whole + frac == OnlyDigits(d) == OnlyDigits(c) by {
      PartsAreDigits(d);
      PartsAreDigits(c);
    }
    OnlyDigitsMembers(d);
    if whole + frac == "" {
      assert Value(s) == None && Value(c) == None by {
        OnlyDigitsAre(d);
        OnlyDigitsAre(c);
      }
    } else {
      assert Value(s) == Some(Number(Sign(d), whole, frac)) by { ValueOf(s, Sign(d), whole, frac); }
      assert Value(c) == Some(Number(Sign(c), whole, frac)) by { ValueOf(c, Sign(c), whole, frac); }
      SignUncovered(d, whole, frac);
    }
  }

  /** A cell the program reads differently once it is cleaned. */
  lemma {:induction false} LeadingSpaceHidesMinus()
    ensures Value(Clean(" -5")) != Value(" -5")
  {
    var s := " -5";
    assert AllPlain(s) by {
      forall r | r in s ensures Plain(r) { AsciiIsPlain(r); }
    }
    DigitsOfPlain(s);
    assert HidesMinus(s) by {
      VisibleIsNotSpace('-');
      assert s[1..][0] == '-';
      assert SpaceLength(s) == 1;
      assert s[2] == '5' && s[2] in s;
    }
    CleanKeepsValueIff(s);
  }

  // ----- the sign of a change -----

  lemma {:induction false} NegativeNumber(sign: string, whole: string, frac: string)
    requires AllDigits(whole) && AllDigits(frac)
    ensures Number(sign, whole, frac) < 0.0 <==> sign == "-" && HasNonZero(whole + frac)
  {
    NatOfZero(whole);
    FractionOfZero(frac);
    HasNonZeroConcat(whole, frac);
  }

  predicate IsNegative(v: Option<real>) {
    v.Some? && v.value < 0.0
  }

  /** A text is read as a negative number exactly when it starts with a minus and has a digit other than zero. */
  lemma {:induction false} ValueIsNegativeIff(s: string)
    ensures IsNegative(Value(s)) <==> Sign(Digits(s)) == "-" && HasNonZero(Digits(s))
  {
    var d := Digits(s);
    var whole, frac := Parts(d).0, Parts(d).1;
    assert AllDigits(whole) && AllDigits(frac) && whole + frac == OnlyDigits(d) by { PartsAreDigits(d); }
    OnlyDigitsMembers(d);
    assert HasNonZero(d) <==> HasNonZero(whole + frac);
    if whole + frac == "" {
      assert Value(s) == None by { OnlyDigitsAre(d); }
    } else {
      assert Value(s) == Some(Number(Sign(d), whole, frac)) by { ValueOf(s, Sign(d), whole, frac); }
      NegativeNumber(Sign(d), whole, frac);
    }
  }

  /** The brackets of a cell are the first opening one and the next closing one. */
  ghost predicate Brackets(c: string, open: nat, shut: nat) {
    && open < shut < |c| && c[open] == '(' && c[shut] == ')'
    && (forall k :: 0 <= k < open ==> c[k] != '(')
    && (forall k :: open <= k < shut ==> c[k] != ')')
  }

  lemma {:induction false} IndexIs(s: string, c: char, i: nat)
    requires i < |s| && s[i] == c && forall k :: 0 <= k < i ==> s[k] != c
    ensures IndexOf(s, c) == i
  {
    IndexOfIsFirst(s, c);
    assert s[i] in s;
  }

  lemma {:induction false} BracketsFound(c: string, open: nat, shut: nat)
    requires Brackets(c, open, shut)
    ensures IndexOf(c, '(') == open && IndexOf(c[open..], ')') == shut - open
  {
    IndexIs(c, '(', open);
    forall k | 0 <= k < shut - open
      ensures c[open..][k] != ')'
    {
      assert c[open..][k] == c[open + k];
    }
    IndexIs(c[open..], ')', shut - open);
  }

  lemma {:induction false} BracketsLost(c: string)
    requires forall open: nat, shut: nat :: !Brackets(c, open, shut)
    ensures IndexOf(c, '(') < 0 || IndexOf(c[IndexOf(c, '(')..], ')') < 0
  {
    var open := IndexOf(c, '(');
    IndexOfIsFirst(c, '(');
    if open >= 0 {
      var rest := c[open..];
      var shut := IndexOf(rest, ')');
      IndexOfIsFirst(rest, ')');
      assert forall k :: open <= k < |c| ==> c[k] == rest[k - open];
      assert shut >= 0 ==> Brackets(c, open, open + shut);
    }
  }

  /** The first half of a cell is the number in its brackets, and zero without brackets or number. */
  lemma {:induction false} PercentIs(c: string, read: string -> Option<real>, open: nat, shut: nat)
    requires Brackets(c, open, shut)
    ensures Halves(c, read) == (OrZero(read(c[open + 1..shut])), TrimSpace(c[shut + 1..]))
  {
    BracketsFound(c, open, shut);
    HalvesAt(c, read, open, shut);
  }

  lemma {:induction false} HalvesAt(c: string, read: string -> Option<real>, open: nat, shut: nat)
    requires open < shut < |c| && IndexOf(c, '(') == open && IndexOf(c[open..], ')') == shut - open
    ensures Halves(c, read) == CutAt(c, read, open, shut)
  {
    assert open + (shut - open) == shut;
  }

  lemma {:induction false} NoPercent(c: string, read: string -> Option<real>)
    requires forall open: nat, shut: nat :: !Brackets(c, open, shut)
    ensures Halves(c, read) == (0.0, c)
  {
    BracketsLost(c);
  }

  /** A cell with brackets is split into the number in them, or zero without one, and the trimmed text after them. */
  lemma {:induction false} ChangeInBrackets(s: string, open: nat, shut: nat)
    requires Brackets(Clean(s), open, shut)
    ensures Change(s).0 == match Value(Clean(s)[open + 1..shut]) case Some(v) => v case None => 0.0
    ensures Change(s).1 == TrimSpace(Clean(s)[shut + 1..])
  {
    PercentIs(Clean(s), Value, open, shut);
  }

  /** A cell without brackets is an amount, and has no percentage. */
  lemma {:induction false} ChangeWithoutBrackets(s: string)
    requires forall open: nat, shut: nat :: !Brackets(Clean(s), open, shut)
    ensures Change(s) == (0.0, Clean(s))
  {
    NoPercent(Clean(s), Value);
  }

  /** A minus stands in front of a number that is not zero. */
  predicate ReadsNegative(t: string) {
    Sign(t) == "-" && HasNonZero(t)
  }

  lemma {:induction false} PartIsPlain(c: string, from: nat, to: nat)
    requires AllPlain(c) && from <= to <= |c|
    ensures Digits(c[from..to]) == c[from..to]
  {
    DigitsOfPlain(c[from..to]);
  }

  lemma {:induction false} BracketsAreUnique(c: string, open: nat, shut: nat)
    requires Brackets(c, open, shut)
    ensures forall o: nat, h: nat :: Brackets(c, o, h) ==> o == open && h == shut
  {
    forall o: nat, h: nat | Brackets(c, o, h)
      ensures o == open && h == shut
    {
      BracketsFound(c, open, shut);
      BracketsFound(c, o, h);
    }
  }

  lemma {:induction false} HalfIsNegative(c: string, open: nat, shut: nat)
    requires AllPlain(c) && Brackets(c, open, shut)
    ensures Halves(c, Value).0 < 0.0 <==> ReadsNegative(c[open + 1..shut])
  {
    var inside := c[open + 1..shut];
    assert Halves(c, Value).0 == OrZero(Value(inside)) by { PercentIs(c, Value, open, shut); }
    assert Digits(inside) == inside by { PartIsPlain(c, open + 1, shut); }
    ValueIsNegativeIff(inside);
  }

  /** The percentage is negative exactly when the brackets hold a minus in front of a number that is not zero. */
  lemma {:induction false} PercentIsNegativeIff(s: string)
    ensures Change(s).0 < 0.0 <==>
      exists open: nat, shut: nat :: Brackets(Clean(s), open, shut) && ReadsNegative(Clean(s)[open + 1..shut])
  {
    var c := Clean(s);
    assert AllPlain(c) by { CleanIsNormal(s); }
    if open: nat, shut: nat :| Brackets(c, open, shut) {
      HalfIsNegative(c, open, shut);
      BracketsAreUnique(c, open, shut);
    } else {
      NoPercent(c, Value);
    }
  }

  /** The amount of a change is negative exactly when its trimmed text is. */
  lemma {:induction false} AmountIsNegativeIff(text: string)
    ensures Board.AmountOf(text).value < 0.0 <==> ReadsNegative(Digits(TrimSpace(text)))
  {
    ValueIsNegativeIff(TrimSpace(text));
  }

  /** A cell whose percentage and amount are both read as negative. */
  lemma {:induction false} ChangeMayBeNegative()
    ensures var (percent, amount) := Change(Cell("-1", "-5"));
      percent < 0.0 && Board.AmountOf(amount).value < 0.0
  {
    var one, five := Decimal(true, "1", ""), Decimal(true, "5", "");
    assert one.Show() == "-1" && five.Show() == "-5";
    assert GroupWhole("5") == "5";
    GroupShow(five);
    ChangeRoundTrip(one, five);
    NegativeNumber("-", "1", "");
    NegativeNumber("-", "5", "");
  }
}
