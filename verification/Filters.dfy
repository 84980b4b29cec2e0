/**
 Narrowing a board to a category and to a list of keys: once behind the HTTP API, once behind the
 command line.
 */
module Filters {
  import opened Strings
  import opened Board
  import Scrape

  // ----- comma separated keys -----

  /** The pieces that are not blank, trimmed. */
  function Words(parts: seq<string>): seq<string> {
    if parts == [] then []
    else
      var word := TrimSpace(parts[|parts| - 1]);
      Words(parts[..|parts| - 1]) + (if word == "" then [] else [word])
  }

  function KeyList(raw: string): seq<string> {
    Words(Split(raw, ','))
  }

  function Members(keys: seq<string>): set<string> {
    set key | key in keys
  }

  method SplitCSV(raw: string) returns (out: seq<string>)
    ensures out == KeyList(raw)
  {
    out := [];
    var parts := Split(raw, ',');
    for i := 0 to |parts|
      invariant out == Words(parts[..i])
    {
      WordsStep(parts, i);
      var part := TrimSpace(parts[i]);
      if part != "" { out := out + [part]; }
    }
    assert parts[..|parts|] == parts;
  }

  lemma {:induction false} TrimmedAwayIsSpace(s: string)
    requires TrimSpace(s) == ""
    ensures forall c :: c in s ==> IsSpace(c)
  {
    if TrimLeft(s) != "" {
      TrimRightKeepsFirst(TrimLeft(s));
    } else {
      SpaceLengthIsSpace(s);
      assert s[..SpaceLength(s)] == s;
    }
  }

  lemma {:induction false} TrimRightKeepsFirst(s: string)
    requires s != "" && !IsSpace(s[0])
    ensures TrimRight(s) != ""
  {
    if |s| > 1 {
      TrimRightKeepsFirst(s[..|s| - 1]);
    }
  }

  lemma {:induction false} SpaceLengthIsSpace(s: string)
    ensures forall c :: c in s[..SpaceLength(s)] ==> IsSpace(c)
  {
    if s != [] && IsSpace(s[0]) {
      SpaceLengthIsSpace(s[1..]);
      assert s[..SpaceLength(s)] == [s[0]] + s[1..][..SpaceLength(s[1..])];
    }
  }

  lemma {:induction false} BlankHasNoKeys(raw: string)
    requires TrimSpace(raw) == ""
    ensures KeyList(raw) == []
  {
    TrimmedAwayIsSpace(raw);
    VisibleIsNotSpace(',');
    SplitWithout(raw, ',');
    var parts := Split(raw, ',');
    assert parts == [raw] && parts[..|parts| - 1] == [];
    assert TrimSpace(parts[|parts| - 1]) == "";
    assert Words(parts) == Words([]);
  }

  lemma {:induction false} MembersSnoc(keys: seq<string>, key: string)
    ensures Members(keys + [key]) == Members(keys) + {key}
  {
  }

  lemma {:induction false} WordsStep(parts: seq<string>, i: nat)
    requires i < |parts|
    ensures Words(parts[..i + 1]) ==
      Words(parts[..i]) + (if TrimSpace(parts[i]) == "" then [] else [TrimSpace(parts[i])])
  {
    assert parts[..i + 1][..i] == parts[..i];
  }

  /** The program keeps the keys as a map to true; its domain is what counts. */
  method SplitKeys(raw: string) returns (out: set<string>)
    ensures out == Members(KeyList(raw))
  {
    if TrimSpace(raw) == "" {
      BlankHasNoKeys(raw);
      return {};
    }
    out := {};
    var parts := Split(raw, ',');
    for i := 0 to |parts|
      invariant out == Members(Words(parts[..i]))
    {
      WordsStep(parts, i);
      var key := TrimSpace(parts[i]);
      MembersSnoc(Words(parts[..i]), key);
      if key != "" { out := out + {key}; }
    }
    assert parts[..|parts|] == parts;
  }

  /** The piece is the key with blanks around it; without a key it is blank. */
  ghost predicate Padded(piece: string, key: string) {
    && ',' !in piece && (key != "" ==> !IsSpace(key[0]) && !IsSpace(key[|key| - 1]))
    && exists before, after :: AllSpace(before) && AllSpace(after) && piece == before + key + after
  }

  /** The keys that are there. */
  function Given(keys: seq<string>): seq<string> {
    if keys == [] then [] else Given(keys[..|keys| - 1]) + (if keys[|keys| - 1] == "" then [] else [keys[|keys| - 1]])
  }

  lemma {:induction false} WordsOfPadded(pieces: seq<string>, keys: seq<string>)
    requires |pieces| == |keys| && forall i :: 0 <= i < |keys| ==> Padded(pieces[i], keys[i])
    ensures Words(pieces) == Given(keys)
  {
    if keys != [] {
      var n := |keys| - 1;
      WordsOfPadded(pieces[..n], keys[..n]);
      assert Padded(pieces[n], keys[n]);
      var before, after :| AllSpace(before) && AllSpace(after) && pieces[n] == before + keys[n] + after;
      TrimSpaceIs(before, keys[n], after);
    }
  }

  /** Keys joined with commas, with any blanks around them, come back as those keys, and blank pieces as nothing. */
  lemma {:induction false} KeysComeBack(pieces: seq<string>, keys: seq<string>)
    requires |pieces| == |keys| > 0 && forall i :: 0 <= i < |keys| ==> Padded(pieces[i], keys[i])
    ensures KeyList(Join(pieces, ",")) == Given(keys)
    ensures (forall i :: 0 <= i < |keys| ==> keys[i] != "") ==> KeyList(Join(pieces, ",")) == keys
  {
    forall piece | piece in pieces
      ensures ',' !in piece
    {
      var i :| 0 <= i < |pieces| && pieces[i] == piece;
      assert Padded(pieces[i], keys[i]);
    }
    SplitOfJoin(pieces, ',');
    WordsOfPadded(pieces, keys);
    if forall i :: 0 <= i < |keys| ==> keys[i] != "" { AllGiven(keys); }
  }

  lemma {:induction false} AllGiven(keys: seq<string>)
    requires forall i :: 0 <= i < |keys| ==> keys[i] != ""
    ensures Given(keys) == keys
  {
    if keys != [] {
      AllGiven(keys[..|keys| - 1]);
      assert keys == keys[..|keys| - 1] + [keys[|keys| - 1]];
    }
  }

  // ----- the filter -----

  function KeptItems(items: seq<Item>, keys: set<string>): seq<Item> {
    if items == [] then []
    else
      var last := items[|items| - 1];
      KeptItems(items[..|items| - 1], keys) + (if last.key in keys then [last] else [])
  }

  /** What is left of one category: nothing, all of it, or the items asked for. */
  function Sifted(c: Category, category: string, keys: set<string>): seq<Category> {
    if category != "" && c.title != category then []
    else if keys == {} then [c]
    else if KeptItems(c.items, keys) == [] then []
    else [Category(c.title, KeptItems(c.items, keys))]
  }

  function Kept(categories: seq<Category>, category: string, keys: set<string>): seq<Category> {
    if categories == [] then []
    else
      var n := |categories| - 1;
      Kept(categories[..n], category, keys) + Sifted(categories[n], category, keys)
  }

  function Filtered(categories: seq<Category>, category: string, keys: set<string>): seq<Category> {
    if category == "" && keys == {} then categories else Kept(categories, category, keys)
  }

  method KeepItems(items: seq<Item>, keys: set<string>) returns (kept: seq<Item>)
    ensures kept == KeptItems(items, keys)
  {
    kept := [];
    for k := 0 to |items|
      invariant kept == KeptItems(items[..k], keys)
    {
      assert items[..k + 1][..k] == items[..k];
      if items[k].key in keys { kept := kept + [items[k]]; }
    }
    assert items[..|items|] == items;
  }

  /** The filter of the HTTP API, on the raw query parameters. */
  method FilterCategories(categories: seq<Category>, rawCategory: string, rawKeys: string) returns (out: seq<Category>)
    ensures out == Filtered(categories, TrimSpace(rawCategory), Members(KeyList(rawKeys)))
  {
    var category := TrimSpace(rawCategory);
    var keys := SplitKeys(rawKeys);
    if category == "" && keys == {} { return categories; }

    out := [];
    for i := 0 to |categories|
      invariant out == Kept(categories[..i], category, keys)
    {
      assert categories[..i + 1][..i] == categories[..i];
      var c := categories[i];
      if category != "" && c.title != category { continue; }
      if keys == {} {
        out := out + [c];
        continue;
      }
      var kept := KeepItems(c.items, keys);
      if |kept| > 0 { out := out + [Category(c.title, kept)]; }
    }
    assert categories[..|categories|] == categories;
  }

  /** The filter of the command line, on the flag values. */
  method Filter(categories: seq<Category>, category: string, keys: seq<string>) returns (out: seq<Category>)
    ensures out == Filtered(categories, category, Members(keys))
  {
    assert keys != [] ==> keys[0] in Members(keys);
    if category == "" && |keys| == 0 { return categories; }

    var wanted: set<string> := {};
    for k := 0 to |keys|
      invariant wanted == Members(keys[..k])
    {
      wanted := wanted + {keys[k]};
    }
    assert keys[..|keys|] == keys;

    out := [];
    for i := 0 to |categories|
      invariant out == Kept(categories[..i], category, wanted)
    {
      assert categories[..i + 1][..i] == categories[..i];
      var c := categories[i];
      if category != "" && c.title != category { continue; }
      if wanted == {} {
        out := out + [c];
        continue;
      }
      var kept := KeepItems(c.items, wanted);
      if |kept| > 0 { out := out + [Category(c.title, kept)]; }
    }
    assert categories[..|categories|] == categories;
  }

  // ----- what filtering does to the items -----

  /** Every item carries the caption of the category it sits in. */
  ghost predicate Labelled(categories: seq<Category>) {
    forall i, k :: 0 <= i < |categories| && 0 <= k < |categories[i].items| ==>
      categories[i].items[k].category == categories[i].title
  }

  predicate Wanted(item: Item, category: string, keys: set<string>) {
    (category == "" || item.category == category) && (keys == {} || item.key in keys)
  }

  /** The wanted items, in order. */
  function Sieve(items: seq<Item>, category: string, keys: set<string>): seq<Item> {
    if items == [] then []
    else
      var last := items[|items| - 1];
      Sieve(items[..|items| - 1], category, keys) + (if Wanted(last, category, keys) then [last] else [])
  }

  lemma {:induction false} SieveConcat(a: seq<Item>, b: seq<Item>, category: string, keys: set<string>)
    ensures Sieve(a + b, category, keys) == Sieve(a, category, keys) + Sieve(b, category, keys)
  {
    if b == [] {
      assert a + b == a;
    } else {
      SieveConcat(a, b[..|b| - 1], category, keys);
      assert (a + b)[..|a + b| - 1] == a + b[..|b| - 1];
    }
  }

  /** The items of one category, sifted, when each of them carries its caption. */
  lemma {:induction false} SieveOfCategory(items: seq<Item>, title: string, category: string, keys: set<string>)
    requires forall k :: 0 <= k < |items| ==> items[k].category == title
    ensures Sieve(items, category, keys) ==
      if category != "" && title != category then []
      else if keys == {} then items
      else KeptItems(items, keys)
  {
    if items != [] {
      SieveOfCategory(items[..|items| - 1], title, category, keys);
      assert items == items[..|items| - 1] + [items[|items| - 1]];
    }
  }

  lemma {:induction false} FlattenSifted(c: Category, category: string, keys: set<string>)
    requires forall k :: 0 <= k < |c.items| ==> c.items[k].category == c.title
    ensures Flatten(Sifted(c, category, keys)) == Sieve(c.items, category, keys)
  {
    SieveOfCategory(c.items, c.title, category, keys);
    forall d: Category
      ensures Flatten([d]) == d.items
    {
      assert [d][..0] == [];
    }
  }

  lemma {:induction false} FlattenKept(categories: seq<Category>, category: string, keys: set<string>)
    requires Labelled(categories)
    ensures Flatten(Kept(categories, category, keys)) == Sieve(Flatten(categories), category, keys)
  {
    if categories != [] {
      var init, last := categories[..|categories| - 1], categories[|categories| - 1];
      FlattenKept(init, category, keys);
      FlattenSifted(last, category, keys);
      FlattenConcat(Kept(init, category, keys), Sifted(last, category, keys));
      SieveConcat(Flatten(init), last.items, category, keys);
    }
  }

  lemma {:induction false} SieveAll(items: seq<Item>)
    ensures Sieve(items, "", {}) == items
  {
    if items != [] {
      SieveAll(items[..|items| - 1]);
      assert items == items[..|items| - 1] + [items[|items| - 1]];
    }
  }

  /** Filtering a board and flattening it, or flattening it and keeping the wanted items, is the same. */
  lemma {:induction false} FlattenFiltered(board: seq<Category>, category: string, keys: set<string>)
    requires Labelled(board)
    ensures Flatten(Filtered(board, category, keys)) == Sieve(Flatten(board), category, keys)
  {
    if category == "" && keys == {} {
      SieveAll(Flatten(board));
    } else {
      FlattenKept(board, category, keys);
    }
  }

  /** The boards the program builds are labelled. */
  lemma {:induction false} BoardsAreLabelled(
      categories: seq<Category>, m: Market, baseURL: string, tables: seq<Scrape.Table>)
    requires CategoriesOf(categories, tables, ConversionFor(m, baseURL))
    ensures Labelled(categories)
  {
    var kept, convert := NonEmpty(tables), ConversionFor(m, baseURL);
    forall i, k | 0 <= i < |categories| && 0 <= k < |categories[i].items|
      ensures categories[i].items[k].category == categories[i].title
    {
      assert CategoryOf(categories[i], kept[i], convert);
      CategoryOfItem(m, kept[i].title, baseURL, kept[i].rows[k]);
    }
  }

  lemma {:induction false} CategoryOfItem(m: Market, title: string, baseURL: string, row: Scrape.Row)
    ensures ConversionFor(m, baseURL)(title, row).category == title
  {
  }

  // ----- which categories are left -----

  /** The category has the caption asked for and, if keys are asked for, an item with one of them. */
  ghost predicate Survives(c: Category, category: string, keys: set<string>) {
    && (category == "" || c.title == category)
    && (keys == {} || exists k :: 0 <= k < |c.items| && c.items[k].key in keys)
  }

  ghost function Survivors(board: seq<Category>, category: string, keys: set<string>): seq<Category> {
    if board == [] then []
    else
      var last := board[|board| - 1];
      Survivors(board[..|board| - 1], category, keys) + (if Survives(last, category, keys) then [last] else [])
  }

  /** What is left of c: its caption, and of its items exactly those asked for. */
  ghost predicate LeftOf(d: Category, c: Category, keys: set<string>) {
    && d.title == c.title
    && (keys == {} ==> d.items == c.items)
    && (forall item :: item in d.items <==> item in c.items && (keys == {} || item.key in keys))
    && (keys != {} ==> d.items != [])
  }

  lemma {:induction false} KeptItemsAre(items: seq<Item>, keys: set<string>)
    ensures forall item :: item in KeptItems(items, keys) <==> item in items && item.key in keys
  {
    if items != [] {
      var init, last := items[..|items| - 1], items[|items| - 1];
      KeptItemsAre(init, keys);
      assert items == init + [last];
    }
  }

  lemma {:induction false} SiftedIs(c: Category, category: string, keys: set<string>)
    ensures Sifted(c, category, keys) != [] <==> Survives(c, category, keys)
    ensures Survives(c, category, keys) ==>
      |Sifted(c, category, keys)| == 1 && LeftOf(Sifted(c, category, keys)[0], c, keys)
  {
    var kept := KeptItems(c.items, keys);
    KeptItemsAre(c.items, keys);
    if kept != [] { assert kept[0] in kept; }
  }

  lemma {:induction false} KeptSurvives(board: seq<Category>, category: string, keys: set<string>)
    ensures var out, left := Kept(board, category, keys), Survivors(board, category, keys);
      |out| == |left| && forall i :: 0 <= i < |out| ==> LeftOf(out[i], left[i], keys)
  {
    if board != [] {
      KeptSurvives(board[..|board| - 1], category, keys);
      SiftedIs(board[|board| - 1], category, keys);
    }
  }

  lemma {:induction false} AllSurvive(board: seq<Category>)
    ensures Survivors(board, "", {}) == board
  {
    if board != [] {
      AllSurvive(board[..|board| - 1]);
      assert board == board[..|board| - 1] + [board[|board| - 1]];
    }
  }

  /**
   The answer has one category for each category of the board that is asked for and, if keys are, has an item with
   one, in order and under its caption; with keys given none is empty, and without it keeps all its items.
   */
  lemma {:induction false} CategoriesSurvive(board: seq<Category>, category: string, keys: set<string>)
    ensures var out, left := Filtered(board, category, keys), Survivors(board, category, keys);
      |out| == |left| && forall i :: 0 <= i < |out| ==> LeftOf(out[i], left[i], keys)
  {
    if category == "" && keys == {} {
      AllSurvive(board);
    } else {
      KeptSurvives(board, category, keys);
    }
  }

  // ----- filtering twice -----

  lemma {:induction false} KeptItemsTwice(items: seq<Item>, keys: set<string>)
    ensures KeptItems(KeptItems(items, keys), keys) == KeptItems(items, keys)
  {
    if items != [] {
      var init, last := items[..|items| - 1], items[|items| - 1];
      KeptItemsTwice(init, keys);
      var once := KeptItems(init, keys);
      assert (once + [last])[..|once|] == once;
      assert KeptItems(items, keys) == if last.key in keys then once + [last] else once;
    }
  }

  lemma {:induction false} KeptSnoc(a: seq<Category>, c: Category, category: string, keys: set<string>)
    ensures Kept(a + [c], category, keys) == Kept(a, category, keys) + Sifted(c, category, keys)
  {
    assert (a + [c])[..|a|] == a;
  }

  lemma {:induction false} SiftedTwice(c: Category, category: string, keys: set<string>)
    ensures var sifted := Sifted(c, category, keys);
      |sifted| <= 1 && (sifted != [] ==> Sifted(sifted[0], category, keys) == sifted)
  {
    KeptItemsTwice(c.items, keys);
  }

  lemma {:induction false} KeptTwice(categories: seq<Category>, category: string, keys: set<string>)
    ensures Kept(Kept(categories, category, keys), category, keys) == Kept(categories, category, keys)
  {
    if categories != [] {
      var init, last := categories[..|categories| - 1], categories[|categories| - 1];
      var once, sifted := Kept(init, category, keys), Sifted(last, category, keys);
      KeptTwice(init, category, keys);
      SiftedTwice(last, category, keys);
      if sifted == [] {
        assert once + sifted == once;
      } else {
        assert sifted == [sifted[0]];
        KeptSnoc(once, sifted[0], category, keys);
      }
    }
  }

  /** Filtering twice changes nothing. */
  lemma {:induction false} FilteredTwice(board: seq<Category>, category: string, keys: set<string>)
    ensures Filtered(Filtered(board, category, keys), category, keys) == Filtered(board, category, keys)
  {
    KeptTwice(board, category, keys);
  }
}
