/**
 The few string operations the program takes from its standard library, with the properties
 the other modules rely on. A string is a sequence of Unicode scalar values.
 */
module Strings {

  /** A range table: the runes from the first to the second of each pair. */
  predicate InTable(c: char, table: seq<(char, char)>) {
    table != [] && (table[0].0 <= c <= table[0].1 || InTable(c, table[1..]))
  }

  lemma {:induction false} InTableIff(c: char, table: seq<(char, char)>)
    ensures InTable(c, table) <==> exists i :: 0 <= i < |table| && table[i].0 <= c <= table[i].1
  {
    if table != [] {
      InTableIff(c, table[1..]);
      assert forall i :: 1 <= i < |table| ==> table[i] == table[1..][i - 1];
    }
  }

  /** The white space runes of Unicode. */
  const WHITE_SPACE: seq<(char, char)> :=
    [('\t', '\r'), (' ', ' '), ('\U{0085}', '\U{0085}'), ('\U{00A0}', '\U{00A0}'), ('\U{1680}', '\U{1680}'),
     ('\U{2000}', '\U{200A}'), ('\U{2028}', '\U{2029}'), ('\U{202F}', '\U{202F}'), ('\U{205F}', '\U{205F}'),
     ('\U{3000}', '\U{3000}')]

  predicate IsSpace(c: char) {
    InTable(c, WHITE_SPACE)
  }

  /** The white space runes. */
  lemma {:induction false} SpaceRunes(c: char)
    ensures IsSpace(c) <==>
      || '\t' <= c <= '\r' || c == ' ' || c == '\U{0085}' || c == '\U{00A0}' || c == '\U{1680}'
      || '\U{2000}' <= c <= '\U{200A}' || c == '\U{2028}' || c == '\U{2029}' || c == '\U{202F}'
      || c == '\U{205F}' || c == '\U{3000}'
  {
    var t := WHITE_SPACE;
    InTableIff(c, t);
    assert |t| == 10;
    assert t[0] == ('\t', '\r') && t[1] == (' ', ' ') && t[2] == ('\U{0085}', '\U{0085}');
    assert t[3] == ('\U{00A0}', '\U{00A0}') && t[4] == ('\U{1680}', '\U{1680}') && t[5] == ('\U{2000}', '\U{200A}');
    assert t[6] == ('\U{2028}', '\U{2029}') && t[7] == ('\U{202F}', '\U{202F}') && t[8] == ('\U{205F}', '\U{205F}');
    assert t[9] == ('\U{3000}', '\U{3000}');
  }

  /** No visible ASCII rune is white space, and neither is any rune past the last table entry. */
  lemma {:induction false} VisibleIsNotSpace(c: char)
    requires '!' <= c <= '~' || '\U{0600}' <= c <= '\U{06FF}'
    ensures !IsSpace(c)
  {
    InTableIff(c, WHITE_SPACE);
  }

  predicate NoSpace(s: string) {
    forall i :: 0 <= i < |s| ==> !IsSpace(s[i])
  }

  /** The number of runes of the leading run of white space. */
  function SpaceLength(s: string): (n: nat)
    ensures n <= |s|
    ensures n < |s| ==> !IsSpace(s[n])
  {
    if s == [] || !IsSpace(s[0]) then 0 else 1 + SpaceLength(s[1..])
  }

  /** The number of runes of the leading run of runes that are not white space. */
  function WordLength(s: string): (n: nat)
    ensures n <= |s|
    ensures n < |s| ==> IsSpace(s[n])
  {
    if s == [] || IsSpace(s[0]) then 0 else 1 + WordLength(s[1..])
  }

  function TrimLeft(s: string): (r: string)
    ensures |r| <= |s|
    ensures r != [] ==> !IsSpace(r[0])
  {
    s[SpaceLength(s)..]
  }

  function TrimRight(s: string): (r: string)
    ensures |r| <= |s| && r == s[..|r|]
    ensures r != [] ==> !IsSpace(r[|r| - 1])
  {
    if s != [] && IsSpace(s[|s| - 1]) then TrimRight(s[..|s| - 1]) else s
  }

  function TrimSpace(s: string): (r: string)
    ensures |r| <= |s|
    ensures r != [] ==> !IsSpace(r[0]) && !IsSpace(r[|r| - 1])
  {
    TrimRight(TrimLeft(s))
  }

  /** Nothing is trimmed exactly when neither end is white space. */
  lemma {:induction false} TrimSpaceFixed(s: string)
    ensures TrimSpace(s) == s <==> s == [] || (!IsSpace(s[0]) && !IsSpace(s[|s| - 1]))
  {
  }

  predicate AllSpace(s: string) {
    forall c :: c in s ==> IsSpace(c)
  }

  lemma {:induction false} SpaceLengthIs(before: string, rest: string)
    requires AllSpace(before) && (rest != "" ==> !IsSpace(rest[0]))
    ensures SpaceLength(before + rest) == |before|
  {
    if before != "" {
      assert before[0] in before && forall c :: c in before[1..] ==> c in before;
      SpaceLengthIs(before[1..], rest);
      assert (before + rest)[1..] == before[1..] + rest;
    } else {
      assert before + rest == rest;
    }
  }

  lemma {:induction false} TrimRightIs(t: string, after: string)
    requires AllSpace(after) && (t != "" ==> !IsSpace(t[|t| - 1]))
    ensures TrimRight(t + after) == t
  {
    if after != "" {
      var init := after[..|after| - 1];
      assert after[|after| - 1] in after && forall c :: c in init ==> c in after;
      TrimRightIs(t, init);
      assert (t + after)[..|t + after| - 1] == t + init;
    } else {
      assert t + after == t;
    }
  }

  /** White space around a text that neither starts nor ends with any is what is trimmed. */
  lemma {:induction false} TrimSpaceIs(before: string, t: string, after: string)
    requires AllSpace(before) && AllSpace(after)
    requires t != "" ==> !IsSpace(t[0]) && !IsSpace(t[|t| - 1])
    ensures TrimSpace(before + t + after) == t
  {
    var s := before + t + after;
    if t == "" {
      assert AllSpace(s) by { assert forall c :: c in s ==> c in before || c in after; }
      SpaceLengthIs(s, "");
      assert s + "" == s;
      assert TrimLeft(s) == "";
    } else {
      assert s == before + (t + after);
      SpaceLengthIs(before, t + after);
      assert TrimLeft(s) == t + after;
      TrimRightIs(t, after);
    }
  }

  predicate IsWord(w: string) {
    w != [] && NoSpace(w)
  }

  predicate AllWords(ws: seq<string>) {
    forall w :: w in ws ==> IsWord(w)
  }

  /** The words of a text: its maximal runs of runes that are not white space. */
  function Fields(s: string): (ws: seq<string>)
    decreases |s|
  {
    if s == [] then []
    else if IsSpace(s[0]) then Fields(s[1..])
    else
      var n := WordLength(s);
      [s[..n]] + Fields(s[n..])
  }

  function Join(parts: seq<string>, sep: string): string {
    if parts == [] then ""
    else if |parts| == 1 then parts[0]
    else parts[0] + sep + Join(parts[1..], sep)
  }

  lemma {:induction false} WordLengthIs(s: string, n: nat)
    requires n <= |s| && NoSpace(s[..n])
    requires n < |s| ==> IsSpace(s[n])
    ensures WordLength(s) == n
  {
    if n > 0 {
      assert s[0] == s[..n][0];
      assert s[1..][..n - 1] == s[..n][1..];
      WordLengthIs(s[1..], n - 1);
    }
  }

  lemma {:induction false} WordLengthNoSpace(s: string)
    ensures NoSpace(s[..WordLength(s)])
  {
    if s != [] && !IsSpace(s[0]) {
      WordLengthNoSpace(s[1..]);
      assert s[..WordLength(s)] == [s[0]] + s[1..][..WordLength(s[1..])];
    }
  }

  lemma {:induction false} FieldsAreWords(s: string)
    ensures AllWords(Fields(s))
    decreases |s|
  {
    if s != [] {
      if IsSpace(s[0]) {
        FieldsAreWords(s[1..]);
      } else {
        WordLengthNoSpace(s);
        FieldsAreWords(s[WordLength(s)..]);
      }
    }
  }

  /** A word followed by white space or by nothing is the first of the words. */
  lemma {:induction false} FieldsCons(w: string, rest: string)
    requires IsWord(w)
    requires rest == [] || IsSpace(rest[0])
    ensures Fields(w + rest) == [w] + Fields(rest)
  {
    var line := w + rest;
    assert line[0] == w[0];
    assert line[..|w|] == w && line[|w|..] == rest;
    WordLengthIs(line, |w|);
  }

  lemma {:induction false} FieldsSpace(rest: string)
    ensures Fields(" " + rest) == Fields(rest)
  {
    assert (" " + rest)[1..] == rest;
  }

  /** The words around white space are those before it and those after it. */
  lemma {:induction false} FieldsAround(a: string, c: char, b: string)
    requires IsSpace(c)
    ensures Fields(a + [c] + b) == Fields(a) + Fields(b)
    decreases |a|
  {
    var s := a + [c] + b;
    if a == [] {
      assert s == [c] + b && s[1..] == b;
    } else if IsSpace(a[0]) {
      FieldsAround(a[1..], c, b);
      assert s[1..] == a[1..] + [c] + b;
    } else {
      var n := WordLength(a);
      var w, rest := a[..n], a[n..];
      WordLengthNoSpace(a);
      assert Fields(s) == [w] + Fields(rest + [c] + b) by {
        assert s == w + (rest + [c] + b);
        FieldsCons(w, rest + [c] + b);
      }
      assert Fields(a) == [w] + Fields(rest);
      FieldsAround(rest, c, b);
    }
  }

  /** Texts that meet at white space keep their words apart. */
  lemma {:induction false} FieldsApart(a: string, b: string)
    requires a == "" || b == "" || IsSpace(a[|a| - 1]) || IsSpace(b[0])
    ensures Fields(a + b) == Fields(a) + Fields(b)
  {
    if a == "" {
      assert a + b == b;
    } else if b == "" {
      assert a + b == a;
    } else if IsSpace(b[0]) {
      assert a + b == a + [b[0]] + b[1..];
      FieldsAround(a, b[0], b[1..]);
    } else {
      var init, c := a[..|a| - 1], a[|a| - 1];
      assert a + b == init + [c] + b && a == init + [c] + [];
      FieldsAround(init, c, b);
      FieldsAround(init, c, []);
    }
  }

  lemma {:induction false} JoinCons(w: string, ws: seq<string>, sep: string)
    requires ws != []
    ensures Join([w] + ws, sep) == w + (sep + Join(ws, sep))
  {
    assert ([w] + ws)[1..] == ws;
    assert w + sep + Join(ws, sep) == w + (sep + Join(ws, sep));
  }

  /** Fields undoes Join: the words of a line of words are those words. */
  lemma {:induction false} FieldsOfJoin(ws: seq<string>)
    requires AllWords(ws)
    ensures Fields(Join(ws, " ")) == ws
  {
    if ws == [] {
    } else if |ws| == 1 {
      FieldsCons(ws[0], "");
      assert ws[0] + "" == ws[0];
    } else {
      var w, tail := ws[0], " " + Join(ws[1..], " ");
      assert [w] + ws[1..] == ws;
      FieldsOfJoin(ws[1..]);
      JoinCons(w, ws[1..], " ");
      FieldsSpace(Join(ws[1..], " "));
      FieldsCons(w, tail);
    }
  }

  /** The pieces of s between occurrences of sep; always at least one. */
  function Split(s: string, sep: char): (parts: seq<string>)
    ensures |parts| >= 1
  {
    if s == [] then [""]
    else
      var rest := Split(s[1..], sep);
      if s[0] == sep then [""] + rest else [[s[0]] + rest[0]] + rest[1..]
  }

  lemma {:induction false} SplitWithout(s: string, sep: char)
    requires sep !in s
    ensures Split(s, sep) == [s]
  {
    if s != [] {
      SplitWithout(s[1..], sep);
      assert s == [s[0]] + s[1..];
    }
  }

  lemma {:induction false} SplitLast(s: string, sep: char, last: string)
    requires sep !in last
    ensures Split(s + [sep] + last, sep) == Split(s, sep) + [last]
  {
    if s == [] {
      assert s + [sep] + last == [sep] + last;
      assert ([sep] + last)[1..] == last;
      SplitWithout(last, sep);
    } else {
      assert (s + [sep] + last)[1..] == s[1..] + [sep] + last;
      SplitLast(s[1..], sep, last);
    }
  }

  /** Split is the inverse of Join, and no piece holds the separator. */
  lemma {:induction false} SplitJoin(s: string, sep: char)
    ensures Join(Split(s, sep), [sep]) == s
    ensures forall part :: part in Split(s, sep) ==> sep !in part
  {
    if s != [] {
      SplitJoin(s[1..], sep);
      var rest := Split(s[1..], sep);
      if s[0] != sep {
        var parts := [[s[0]] + rest[0]] + rest[1..];
        assert parts[1..] == rest[1..];
        if |rest| > 1 {
          assert Join(parts, [sep]) == [s[0]] + Join(rest, [sep]);
        }
      } else {
        assert ([""] + rest)[1..] == rest;
      }
    }
  }

  lemma {:induction false} SplitFirst(first: string, sep: char, rest: string)
    requires sep !in first
    ensures Split(first + ([sep] + rest), sep) == [first] + Split(rest, sep)
  {
    var s := first + ([sep] + rest);
    if first == "" {
      assert s[1..] == rest;
    } else {
      assert s[0] == first[0] && first[0] in first && s[1..] == first[1..] + ([sep] + rest);
      SplitFirst(first[1..], sep, rest);
      assert [s[0]] + first[1..] == first;
    }
  }

  /** Pieces without the separator come back as they were joined. */
  lemma {:induction false} SplitOfJoin(parts: seq<string>, sep: char)
    requires parts != [] && forall part :: part in parts ==> sep !in part
    ensures Split(Join(parts, [sep]), sep) == parts
  {
    var first, rest := parts[0], parts[1..];
    assert first in parts && forall part :: part in rest ==> part in parts;
    if rest == [] {
      SplitWithout(first, sep);
    } else {
      assert parts == [first] + rest;
      SplitOfJoin(rest, sep);
      JoinCons(first, rest, [sep]);
      SplitFirst(first, sep, Join(rest, [sep]));
    }
  }

  /** The position of the first c in s, or -1. */
  function IndexOf(s: string, c: char): (i: int)
    ensures -1 <= i < |s|
    ensures i >= 0 ==> s[i] == c
  {
    if s == [] then -1
    else if s[0] == c then 0
    else
      var i := IndexOf(s[1..], c);
      if i < 0 then -1 else i + 1
  }

  lemma {:induction false} IndexOfIsFirst(s: string, c: char)
    ensures IndexOf(s, c) == -1 <==> c !in s
    ensures forall k :: 0 <= k < IndexOf(s, c) ==> s[k] != c
  {
    if s != [] && s[0] != c {
      IndexOfIsFirst(s[1..], c);
      assert s == [s[0]] + s[1..];
    }
  }

  /** The text without a final c. */
  function TrimSuffix(s: string, c: char): string {
    if s != "" && s[|s| - 1] == c then s[..|s| - 1] else s
  }

  lemma {:induction false} TrimSuffixOf(head: string, tail: string, c: char)
    ensures TrimSuffix(head + [c], c) == head
    ensures tail != "" && tail[|tail| - 1] != c ==> TrimSuffix(head + tail, c) == head + tail
  {
    assert (head + [c])[..|head|] == head;
  }

  /** The text before and after the first sep, and whether there is one. */
  function Cut(s: string, sep: char): (string, string, bool) {
    if s == [] then ("", "", false)
    else
      var (before, after, found) := Cut(s[..|s| - 1], sep);
      var last := s[|s| - 1];
      if found then (before, after + [last], true)
      else if last == sep then (before, "", true)
      else (before + [last], "", false)
  }

  lemma {:induction false} CutMeaning(s: string, sep: char)
    ensures var (before, after, found) := Cut(s, sep);
      && found == (sep in s) && sep !in before
      && s == before + (if found then [sep] + after else "")
      && (!found ==> after == "")
  {
    if s != [] {
      CutMeaning(s[..|s| - 1], sep);
      assert s == s[..|s| - 1] + [s[|s| - 1]];
    }
  }

  /** A cut is determined by what it means. */
  lemma {:induction false} CutOf(before: string, sep: char, after: string)
    requires sep !in before
    ensures Cut(before + ([sep] + after), sep) == (before, after, true)
  {
    var s := before + ([sep] + after);
    if after == [] {
      CutWithout(before, sep);
      assert s[..|s| - 1] == before;
    } else {
      var init := after[..|after| - 1];
      CutOf(before, sep, init);
      assert s[..|s| - 1] == before + ([sep] + init);
      assert init + [after[|after| - 1]] == after;
    }
  }

  lemma {:induction false} CutWithout(s: string, sep: char)
    requires sep !in s
    ensures Cut(s, sep) == (s, "", false)
  {
    if s != [] {
      CutWithout(s[..|s| - 1], sep);
      assert s[|s| - 1] in s;
      assert s == s[..|s| - 1] + [s[|s| - 1]];
    }
  }

  /** The text after the last c, or all of it. */
  function AfterLast(s: string, c: char): string {
    if s == "" || s[|s| - 1] == c then ""
    else AfterLast(s[..|s| - 1], c) + [s[|s| - 1]]
  }

  /** The text before the first rune of any. */
  function BeforeAny(s: string, any: string): string {
    if s == "" || s[0] in any then "" else [s[0]] + BeforeAny(s[1..], any)
  }

  predicate MatchesAt(s: string, sub: string, i: nat) {
    i + |sub| <= |s| && s[i..i + |sub|] == sub
  }

  predicate Contains(s: string, sub: string) {
    exists i :: 0 <= i <= |s| && MatchesAt(s, sub, i)
  }
}
