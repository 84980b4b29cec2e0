/** Printing a number with thousands separators, from its shortest decimal text. */
module Output {
  import opened Strings

  /** Groups of three counted from the right, with commas between them. */
  function GroupWhole(whole: string): string {
    if |whole| <= 3 then whole
    else GroupWhole(whole[..|whole| - 3]) + "," + whole[|whole| - 3..]
  }

  function Group(s: string): string {
    var (head, frac, hasFrac) := Cut(s, '.');
    var neg := head != "" && head[0] == '-';
    var whole := if neg then head[1..] else head;
    (if neg then "-" else "") + GroupWhole(whole) + (if hasFrac then "." + frac else "")
  }

  // ----- the loop of the program computes Group -----

  /** What the left to right loop has written after i runes. */
  function Written(whole: string, i: nat): string
    requires i <= |whole|
  {
    if i == 0 then ""
    else
      Written(whole, i - 1)
      + (if i - 1 > 0 && (|whole| - (i - 1)) % 3 == 0 then "," else "")
      + [whole[i - 1]]
  }

  lemma {:induction false} WrittenPrefix(whole: string, i: nat)
    requires i + 3 <= |whole|
    ensures Written(whole, i) == Written(whole[..|whole| - 3], i)
  {
    if i > 0 {
      WrittenPrefix(whole, i - 1);
    }
  }

  lemma {:induction false} WrittenIsGrouped(whole: string)
    ensures Written(whole, |whole|) == GroupWhole(whole)
  {
    var n := |whole|;
    if n <= 3 {
      WrittenShort(whole, n);
      assert whole[..n] == whole;
    } else {
      var left, right := whole[..n - 3], whole[n - 3..];
      WrittenIsGrouped(left);
      WrittenPrefix(whole, n - 3);
      assert Written(whole, n - 2) == GroupWhole(left) + "," + [right[0]];
      assert Written(whole, n - 1) == Written(whole, n - 2) + "" + [right[1]];
      assert Written(whole, n) == Written(whole, n - 1) + "" + [right[2]];
      assert right == [right[0]] + [right[1]] + [right[2]];
    }
  }

  lemma {:induction false} WrittenShort(whole: string, i: nat)
    requires i <= |whole| <= 3
    ensures Written(whole, i) == whole[..i]
  {
    if i > 0 {
      WrittenShort(whole, i - 1);
      assert whole[..i] == whole[..i - 1] + [whole[i - 1]];
    }
  }

  method PrintWhole(whole: string) returns (b: string)
    ensures b == GroupWhole(whole)
  {
    b := "";
    for i := 0 to |whole|
      invariant b == Written(whole, i)
    {
      if i > 0 && (|whole| - i) % 3 == 0 {
        b := b + ",";
      }
      b := b + [whole[i]];
    }
    WrittenIsGrouped(whole);
  }

  method PrintGrouped(s: string) returns (out: string)
    ensures out == Group(s)
  {
    var (whole, frac, hasFrac) := Cut(s, '.');
    var neg := whole != "" && whole[0] == '-';
    if neg { whole := whole[1..]; }

    out := PrintWhole(whole);
    if neg { out := "-" + out; }
    if hasFrac { out := out + ("." + frac); }
  }

  // ----- the shape of the groups -----

  /** One group of one to three digits, then groups of exactly three, that put together are the number. */
  predicate InThrees(groups: seq<string>, whole: string) {
    && |groups| >= 1
    && (whole != "" ==> 1 <= |groups[0]|) && |groups[0]| <= 3
    && (forall i :: 1 <= i < |groups| ==> |groups[i]| == 3)
    && Join(groups, "") == whole
  }

  lemma {:induction false} JoinSnoc(parts: seq<string>, last: string)
    ensures Join(parts + [last], "") == Join(parts, "") + last
  {
    if parts == [] {
    } else {
      var tail := parts[1..] + [last];
      assert parts + [last] == [parts[0]] + tail;
      JoinCons(parts[0], tail, "");
      JoinSnoc(parts[1..], last);
      if |parts| > 1 {
        assert [parts[0]] + parts[1..] == parts;
        JoinCons(parts[0], parts[1..], "");
      }
    }
  }

  lemma {:induction false} GroupsAreThrees(whole: string)
    requires ',' !in whole
    ensures InThrees(Split(GroupWhole(whole), ','), whole)
  {
    var n := |whole|;
    if n <= 3 {
      SplitWithout(whole, ',');
    } else {
      var left, right := whole[..n - 3], whole[n - 3..];
      GroupsAreThrees(left);
      SplitLast(GroupWhole(left), ',', right);
      JoinSnoc(Split(GroupWhole(left), ','), right);
      assert left + right == whole;
    }
  }
}
