/**
 The number text of a market page: normalising its digits and white space, reading an amount out
 of whatever surrounds it, and splitting a change cell. Numbers are exact decimals.
 */
module Numfmt {
  import opened Wrappers
  import opened Strings

  /** The zero width runes that are dropped on sight. */
  const ZERO_WIDTH := "\U{200B}\U{200C}\U{200D}\U{200E}\U{200F}\U{FEFF}"

  /** What one rune becomes when digits are normalised. */
  function Rewritten(r: char): string {
    if '\U{06F0}' <= r <= '\U{06F9}' then [('0' as int + (r as int - 0x06F0)) as char]
    else if '\U{0660}' <= r <= '\U{0669}' then [('0' as int + (r as int - 0x0660)) as char]
    else if r == '\U{066B}' then "."
    else if r in ZERO_WIDTH then ""
    else [r]
  }

  /** What is written for the runes of s, one after the other. */
  function Each(s: string, write: char -> string): string {
    if s == [] then [] else Each(s[..|s| - 1], write) + write(s[|s| - 1])
  }

  function Digits(s: string): string {
    Each(s, Rewritten)
  }

  lemma {:induction false} EachSnoc(s: string, r: char, write: char -> string)
    ensures Each(s + [r], write) == Each(s, write) + write(r)
  {
    assert (s + [r])[..|s|] == s;
  }

  lemma {:induction false} EachConcat(a: string, b: string, write: char -> string)
    ensures Each(a + b, write) == Each(a, write) + Each(b, write)
  {
    if b == [] {
      assert a + b == a;
    } else {
      var init, last := b[..|b| - 1], write(b[|b| - 1]);
      EachConcat(a, init, write);
      assert Each(a + b, write) == Each(a + init, write) + last by {
        assert (a + b)[..|a + b| - 1] == a + init;
      }
      assert (Each(a, write) + Each(init, write)) + last == Each(a, write) + (Each(init, write) + last);
    }
  }

  /** The loop of the program over the runes of s. */
  method RewriteDigits(s: string) returns (b: string)
    ensures b == Digits(s)
  {
    if s == "" { return s; }
    b := "";
    for i := 0 to |s|
      invariant b == Digits(s[..i])
    {
      var r := s[i];
      assert s[..i + 1] == s[..i] + [r];
      EachSnoc(s[..i], r, Rewritten);
      if '\U{06F0}' <= r <= '\U{06F9}' {
        b := b + [('0' as int + (r as int - 0x06F0)) as char];
      } else if '\U{0660}' <= r <= '\U{0669}' {
        b := b + [('0' as int + (r as int - 0x0660)) as char];
      } else if r == '\U{066B}' {
        b := b + ".";
      } else if r in ZERO_WIDTH {
      } else {
        b := b + [r];
      }
    }
    assert s[..|s|] == s;
  }

  function Clean(s: string): string {
    Join(Fields(Digits(s)), " ")
  }

  /** Splits a change cell such as "(0.32%) 6,050" into its percentage and its amount text. */
  function Change(s: string): (real, string) {
    Halves(Clean(s), Value)
  }

  function OrZero(v: Option<real>): real {
    match v
    case Some(x) => x
    case None => 0.0
  }

  /** The number between two places, or zero without one, and the trimmed text after the second. */
  function CutAt(c: string, read: string -> Option<real>, open: nat, shut: nat): (real, string)
    requires open < shut < |c|
  {
    (OrZero(read(c[open + 1..shut])), TrimSpace(c[shut + 1..]))
  }

  /** The two halves of a cleaned cell: the number in its brackets, if it has any, and the text after them. */
  function Halves(c: string, read: string -> Option<real>): (real, string) {
    var open := IndexOf(c, '(');
    var shut := if open < 0 then -1 else IndexOf(c[open..], ')');
    assert shut != 0;
    if shut < 0 then (0.0, c) else CutAt(c, read, open, open + shut)
  }

  // ----- the normal form of Clean -----

  /** A rune that normalising leaves alone. */
  predicate Plain(r: char) {
    Rewritten(r) == [r]
  }

  predicate AllPlain(s: string) {
    forall r :: r in s ==> Plain(r)
  }

  /** White space at i is one blank, and not the second of two. */
  predicate SingleBlank(s: string, i: nat)
    requires i < |s|
  {
    IsSpace(s[i]) ==> s[i] == ' ' && 0 < i && !IsSpace(s[i - 1])
  }

  /** No digit to rewrite, no zero width rune, and single blanks between words only. */
  predicate Normal(s: string) {
    && AllPlain(s)
    && (s != [] ==> !IsSpace(s[0]) && !IsSpace(s[|s| - 1]))
    && (forall i {:trigger SingleBlank(s, i)} :: 0 <= i < |s| ==> SingleBlank(s, i))
  }

  lemma {:induction false} RewrittenIsPlain(r: char)
    ensures AllPlain(Rewritten(r))
  {
  }

  lemma {:induction false} DigitsArePlain(s: string)
    ensures AllPlain(Digits(s))
  {
    if s != [] {
      RewrittenIsPlain(s[|s| - 1]);
      DigitsArePlain(s[..|s| - 1]);
    }
  }

  lemma {:induction false} DigitsOfPlain(s: string)
    requires AllPlain(s)
    ensures Digits(s) == s
  {
    if s != [] {
      assert s[|s| - 1] in s;
      DigitsOfPlain(s[..|s| - 1]);
    }
  }

  lemma {:induction false} FieldsArePlain(s: string)
    requires AllPlain(s)
    ensures forall w :: w in Fields(s) ==> AllPlain(w)
    decreases |s|
  {
    if s != [] {
      assert forall i :: 0 <= i < |s| ==> forall r :: r in s[i..] ==> r in s;
      if IsSpace(s[0]) {
        FieldsArePlain(s[1..]);
      } else {
        var n := WordLength(s);
        assert forall r :: r in s[..n] ==> r in s;
        assert forall r :: r in s[n..] ==> r in s;
        FieldsArePlain(s[n..]);
      }
    }
  }

  lemma {:induction false} JoinIsNormal(ws: seq<string>)
    requires AllWords(ws) && forall w :: w in ws ==> AllPlain(w)
    ensures Normal(Join(ws, " ")) && (ws != [] ==> Join(ws, " ") != "")
  {
    if |ws| == 1 {
      assert ws[0] in ws;
    } else if |ws| > 1 {
      var w, rest := ws[0], Join(ws[1..], " ");
      assert w in ws && forall v :: v in ws[1..] ==> v in ws;
      JoinIsNormal(ws[1..]);
      assert [w] + ws[1..] == ws;
      JoinCons(w, ws[1..], " ");
      WordThenNormal(w, rest);
    }
  }

  lemma {:induction false} WordThenNormal(w: string, rest: string)
    requires IsWord(w) && AllPlain(w) && Normal(rest) && rest != []
    ensures Normal(w + (" " + rest))
  {
    var s := w + (" " + rest);
    forall i | 0 <= i < |s|
      ensures SingleBlank(s, i)
    {
      if i > |w| {
        assert SingleBlank(rest, i - |w| - 1);
      }
    }
  }

  /** Whatever the cell, its cleaned text is in normal form and holds the same words. */
  lemma {:induction false} CleanIsNormal(s: string)
    ensures Normal(Clean(s))
    ensures Fields(Clean(s)) == Fields(Digits(s))
  {
    DigitsArePlain(s);
    FieldsArePlain(Digits(s));
    FieldsAreWords(Digits(s));
    JoinIsNormal(Fields(Digits(s)));
    FieldsOfJoin(Fields(Digits(s)));
  }

  /** A normal text is a word, or a word, a blank and more normal text. */
  lemma {:induction false} NormalSplit(s: string) returns (w: string, rest: string)
    requires Normal(s) && s != [] && WordLength(s) < |s|
    ensures IsWord(w) && s == w + (" " + rest) && Normal(rest) && rest != []
  {
    var n := WordLength(s);
    w, rest := s[..n], s[n + 1..];
    WordLengthNoSpace(s);
    assert SingleBlank(s, n) && SingleBlank(s, n + 1);
    forall i | 0 <= i < |rest|
      ensures SingleBlank(rest, i)
    {
      assert SingleBlank(s, n + 1 + i);
    }
  }

  lemma {:induction false} NormalIsJoined(s: string)
    requires Normal(s)
    ensures Join(Fields(s), " ") == s
    decreases |s|
  {
    if s == [] {
    } else if WordLength(s) == |s| {
      WordLengthNoSpace(s);
      assert s[..|s|] == s && s[|s|..] == [];
    } else {
      var w, rest := NormalSplit(s);
      NormalIsJoined(rest);
      FieldsSpace(rest);
      FieldsCons(w, " " + rest);
      JoinCons(w, Fields(rest), " ");
    }
  }

  /** The cleaned texts are exactly the normal ones, so cleaning twice changes nothing. */
  lemma {:induction false} CleanFixes(s: string)
    ensures Clean(s) == s <==> Normal(s)
    ensures Clean(Clean(s)) == Clean(s)
    ensures Clean(Digits(s)) == Clean(s)
  {
    CleanIsNormal(s);
    if Normal(s) {
      DigitsOfPlain(s);
      NormalIsJoined(s);
    }
    DigitsOfPlain(Clean(s));
    NormalIsJoined(Clean(s));
    DigitsArePlain(s);
    DigitsOfPlain(Digits(s));
  }

  // ----- reading an amount -----

  predicate IsDigit(c: char) {
    '0' <= c <= '9'
  }

  predicate AllDigits(s: string) {
    forall r :: r in s ==> IsDigit(r)
  }

  predicate HasDigit(s: string) {
    exists r :: r in s && IsDigit(r)
  }

  function OnlyDigits(s: string): string {
    if s == [] then []
    else OnlyDigits(s[..|s| - 1]) + (if IsDigit(s[|s| - 1]) then [s[|s| - 1]] else [])
  }

  /** The number a run of digits denotes. */
  function NatOf(s: string): nat
    requires AllDigits(s)
  {
    if s == [] then 0
    else
      assert s[|s| - 1] in s;
      10 * NatOf(s[..|s| - 1]) + (s[|s| - 1] as int - '0' as int)
  }

  /** The fraction a run of digits after the point denotes. */
  function FractionOf(s: string): real
    requires AllDigits(s)
  {
    if s == [] then 0.0
    else
      assert s[0] in s && forall r :: r in s[1..] ==> r in s;
      ((s[0] as int - '0' as int) as real + FractionOf(s[1..])) / 10.0
  }

  function Number(sign: string, whole: string, frac: string): real
    requires AllDigits(whole) && AllDigits(frac)
  {
    var magnitude := NatOf(whole) as real + FractionOf(frac);
    if sign == "-" then -magnitude else magnitude
  }

  /** A sign that may start a number. */
  predicate IsSign(s: string) {
    s == "" || s == "-" || s == "+"
  }

  function Sign(s: string): (r: string)
    ensures IsSign(r)
  {
    if s != "" && (s[0] == '-' || s[0] == '+') then [s[0]] else ""
  }

  /** Digits with a point in front of the fraction, if there is one. */
  function Mantissa(whole: string, frac: string): string {
    whole + (if frac == "" then "" else "." + frac)
  }

  /**
   Reading a decimal exactly: an optional sign, digits, and possibly a point and digits, with at
   least one digit in all. None is a syntax error.
   */
  function ParseDecimal(t: string): Option<real> {
    var sign := Sign(t);
    var (whole, frac, point) := Cut(t[|sign|..], '.');
    if AllDigits(whole) && AllDigits(frac) && whole + frac != "" then
      Some(Number(sign, whole, frac))
    else None
  }

  /** The digits of s before its first point, and those after it. */
  function Parts(s: string): (string, string) {
    var (before, after, found) := Cut(s, '.');
    (OnlyDigits(before), OnlyDigits(after))
  }

  /** The text handed to the float parser: sign, digits and at most one inner point. */
  function NumberText(s: string): string {
    var (whole, frac) := Parts(s);
    Sign(s) + Mantissa(whole, frac)
  }

  function Value(s: string): Option<real> {
    var d := Digits(s);
    if HasDigit(d) then ParseDecimal(NumberText(d)) else None
  }

  lemma {:induction false} OnlyDigitsAre(s: string)
    ensures AllDigits(OnlyDigits(s))
    ensures OnlyDigits(s) == "" <==> !HasDigit(s)
  {
    if s != [] {
      OnlyDigitsAre(s[..|s| - 1]);
      assert s == s[..|s| - 1] + [s[|s| - 1]];
    }
  }

  lemma {:induction false} OnlyDigitsOf(s: string)
    requires AllDigits(s)
    ensures OnlyDigits(s) == s
  {
    if s != [] {
      assert s[|s| - 1] in s;
      OnlyDigitsOf(s[..|s| - 1]);
      assert s == s[..|s| - 1] + [s[|s| - 1]];
    }
  }

  // ----- the loop of the program computes Value -----

  lemma {:induction false} OnlyDigitsSnoc(s: string, r: char)
    ensures OnlyDigits(s + [r]) == if IsDigit(r) then OnlyDigits(s) + [r] else OnlyDigits(s)
  {
    var t := s + [r];
    assert t[..|t| - 1] == s;
  }

  lemma {:induction false} PartsSnoc(s: string, r: char)
    ensures var (whole, frac) := Parts(s);
      Parts(s + [r]) ==
        if !IsDigit(r) then (whole, frac)
        else if '.' in s then (whole, frac + [r])
        else (whole + [r], frac)
  {
    var t := s + [r];
    assert t[..|t| - 1] == s;
    var (before, after, found) := Cut(s, '.');
    assert found == ('.' in s) && (!found ==> after == "") by { CutMeaning(s, '.'); }
    OnlyDigitsSnoc(before, r);
    OnlyDigitsSnoc(after, r);
  }

  lemma {:induction false} NoPointNoFraction(s: string)
    requires '.' !in s
    ensures Parts(s).1 == ""
  {
    CutWithout(s, '.');
  }

  /** The builder of the loop, part by part. */
  function Built(sign: string, whole: string, dot: bool, frac: string): string {
    sign + whole + (if dot then "." + frac else "")
  }

  lemma {:induction false} BuiltSnoc(sign: string, whole: string, frac: string, r: char)
    ensures Built(sign, whole, true, frac) + [r] == Built(sign, whole, true, frac + [r])
    ensures Built(sign, whole, false, "") + [r] == Built(sign, whole + [r], false, "")
    ensures Built(sign, whole, false, "") + "." == Built(sign, whole, true, "")
  {
    assert sign + whole + ("." + frac) + [r] == sign + whole + ("." + (frac + [r]));
    assert sign + whole + "" + [r] == sign + (whole + [r]) + "";
  }

  /** What the loop has built after the runes of d. */
  function Scanned(d: string): string {
    Built(Sign(d), Parts(d).0, '.' in d, Parts(d).1)
  }

  /** The runes the loop keeps, after those of d: digits, the first point, and a sign at the front. */
  predicate Keeps(d: string, r: char) {
    IsDigit(r) || (r == '.' && '.' !in d) || ((r == '-' || r == '+') && d == "")
  }

  lemma {:induction false} ScannedSnoc(d: string, r: char)
    ensures Scanned(d + [r]) == Scanned(d) + (if Keeps(d, r) then [r] else "")
  {
    var sign, whole, frac := Sign(d), Parts(d).0, Parts(d).1;
    assert d != "" ==> Sign(d + [r]) == sign;
    PartsSnoc(d, r);
    if '.' in d {
      BuiltSnoc(sign, whole, frac, r);
    } else {
      NoPointNoFraction(d);
      BuiltSnoc(sign, whole, "", r);
    }
  }

  method ScanNumber(d: string) returns (b: string, digits: bool)
    ensures digits == HasDigit(d)
    ensures b == Built(Sign(d), Parts(d).0, '.' in d, Parts(d).1)
  {
    b, digits := "", false;
    var dot := false;
    for i := 0 to |d|
      invariant digits == HasDigit(d[..i])
      invariant dot == ('.' in d[..i])
      invariant b == Scanned(d[..i])
    {
      var r := d[i];
      ghost var before := d[..i];
      assert d[..i + 1] == before + [r];
      ScannedSnoc(before, r);
      if '0' <= r <= '9' {
        digits := true;
        b := b + [r];
      } else if r == '.' && !dot {
        dot := true;
        b := b + [r];
      } else if (r == '-' || r == '+') && i == 0 {
        b := b + [r];
      }
    }
    assert d[..|d|] == d;
  }

  method ReadValue(s: string) returns (v: real, ok: bool)
    ensures Value(s) == if ok then Some(v) else None
    ensures !ok ==> v == 0.0
  {
    var d := RewriteDigits(s);
    var b, digits := ScanNumber(d);
    if !digits { return 0.0, false; }
    BuiltTrimmed(d);
    match ParseDecimal(TrimSuffix(b, '.'))
    case None => return 0.0, false;
    case Some(x) => return x, true;
  }

  /** Dropping a final point from what the loop built leaves the text of the number. */
  lemma {:induction false} BuiltTrimmed(d: string)
    requires HasDigit(d)
    ensures TrimSuffix(Built(Sign(d), Parts(d).0, '.' in d, Parts(d).1), '.') == NumberText(d)
  {
    var (before, after, found) := Cut(d, '.');
    var (whole, frac) := Parts(d);
    assert found == ('.' in d) && (!found ==> d == before && after == "") by { CutMeaning(d, '.'); }
    assert AllDigits(whole) && AllDigits(frac) && (!found ==> whole != "") by {
      OnlyDigitsAre(before);
      OnlyDigitsAre(after);
    }
    BuiltTrimmedParts(Sign(d), whole, found, frac);
  }

  lemma {:induction false} BuiltTrimmedParts(sign: string, whole: string, dot: bool, frac: string)
    requires AllDigits(whole) && AllDigits(frac)
    requires !dot ==> whole != "" && frac == ""
    ensures TrimSuffix(Built(sign, whole, dot, frac), '.') == sign + Mantissa(whole, frac)
  {
    if !dot {
      assert whole[|whole| - 1] in whole;
      TrimSuffixOf(sign, whole, '.');
    } else if frac == "" {
      TrimSuffixOf(sign + whole, "", '.');
    } else {
      var tail := "." + frac;
      assert frac[|frac| - 1] in frac;
      TrimSuffixOf(sign + whole, tail, '.');
      assert sign + whole + tail == sign + (whole + tail);
    }
  }
}
