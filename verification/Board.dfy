/** The domain model of a price board: rows of text become items, tables become categories. */
module Board {
  import opened Wrappers
  import opened Strings
  import opened Numfmt
  import Scrape

  type Market = string

  /** A price as the site renders it, with its number. */
  datatype Amount = Amount(text: string, value: real)

  const NO_AMOUNT := Amount("", 0.0)

  datatype Direction = Unknown | Fell | Rose

  datatype Move = Move(status: Direction, percent: real, amount: Amount)

  datatype Item = Item(
    key: string, title: string, market: Market, category: string,
    price: Amount, low: Amount, high: Amount, change: Move, time: string, profileURL: string)

  datatype Category = Category(title: string, items: seq<Item>)

  datatype Snapshot = Snapshot(market: Market, source: string, fetchedAt: int, categories: seq<Category>)

  // ----- from rows to items -----

  function AmountOf(text: string): Amount {
    var trimmed := TrimSpace(text);
    match Value(trimmed)
    case None => NO_AMOUNT
    case Some(value) => Amount(trimmed, value)
  }

  function DirectionOf(s: string): Direction {
    if s == "low" then Fell else if s == "high" then Rose else Unknown
  }

  predicate HasPrefix(s: string, prefix: string) {
    prefix <= s
  }

  function AbsoluteURL(baseURL: string, link: string): string {
    var href := TrimSpace(link);
    if href == "" then ""
    else if HasPrefix(href, "http://") || HasPrefix(href, "https://") then href
    else if HasPrefix(href, "//") then "https:" + href
    else if HasPrefix(href, "/") then baseURL + href
    else baseURL + "/" + href
  }

  function ItemFrom(m: Market, category: string, baseURL: string, row: Scrape.Row): Item {
    var (percent, changeAmount) := Change(row.change);
    Item(row.slug, row.title, m, category, AmountOf(row.price), AmountOf(row.low), AmountOf(row.high),
         Move(DirectionOf(row.status), percent, AmountOf(changeAmount)), row.time, AbsoluteURL(baseURL, row.profile))
  }

  /** How the row of a table becomes an item, given the caption of the table. */
  type Conversion = (string, Scrape.Row) -> Item

  function ConversionFor(m: Market, baseURL: string): Conversion {
    (title, row) => ItemFrom(m, title, baseURL, row)
  }

  ghost predicate Converts(convert: Conversion, m: Market, baseURL: string) {
    forall title, row {:trigger ItemFrom(m, title, baseURL, row)} ::
      convert(title, row) == ItemFrom(m, title, baseURL, row)
  }

  /** The category of one table: its caption, and the items of its rows in order. */
  ghost predicate CategoryOf(c: Category, table: Scrape.Table, convert: Conversion) {
    && c.title == table.title
    && |c.items| == |table.rows|
    && forall i :: 0 <= i < |c.items| ==> c.items[i] == convert(table.title, table.rows[i])
  }

  /** The tables that have rows. */
  function NonEmpty(tables: seq<Scrape.Table>): seq<Scrape.Table> {
    if tables == [] then []
    else
      var n := |tables| - 1;
      NonEmpty(tables[..n]) + (if tables[n].rows == [] then [] else [tables[n]])
  }

  /** One category per table that has rows, in page order, with that table's caption and rows. */
  ghost predicate CategoriesOf(categories: seq<Category>, tables: seq<Scrape.Table>, convert: Conversion) {
    var kept := NonEmpty(tables);
    && |categories| == |kept|
    && forall i :: 0 <= i < |kept| ==> CategoryOf(categories[i], kept[i], convert)
  }

  method ConvertRow(m: Market, title: string, baseURL: string, row: Scrape.Row, ghost convert: Conversion)
    returns (item: Item)
    requires Converts(convert, m, baseURL)
    ensures item == convert(title, row)
  {
    item := ItemFrom(m, title, baseURL, row);
  }

  method CategoryFrom(m: Market, baseURL: string, table: Scrape.Table, ghost convert: Conversion) returns (c: Category)
    requires Converts(convert, m, baseURL)
    ensures CategoryOf(c, table, convert)
  {
    var items: seq<Item> := [];
    for k := 0 to |table.rows|
      invariant |items| == k
      invariant forall j :: 0 <= j < k ==> items[j] == convert(table.title, table.rows[j])
    {
      var item := ConvertRow(m, table.title, baseURL, table.rows[k], convert);
      items := items + [item];
    }
    return Category(table.title, items);
  }

  method SnapshotFrom(m: Market, baseURL: string, source: string, at: int, tables: seq<Scrape.Table>)
    returns (snap: Snapshot)
    ensures snap.market == m && snap.source == source && snap.fetchedAt == at
    ensures CategoriesOf(snap.categories, tables, ConversionFor(m, baseURL))
  {
    var categories: seq<Category> := [];
    ghost var convert := ConversionFor(m, baseURL);
    for i := 0 to |tables|
      invariant CategoriesOf(categories, tables[..i], convert)
    {
      assert tables[..i + 1][..i] == tables[..i];
      var table := tables[i];
      if |table.rows| != 0 {
        var category := CategoryFrom(m, baseURL, table, convert);
        categories := categories + [category];
      }
    }
    assert tables[..|tables|] == tables;
    return Snapshot(m, source, at, categories);
  }

  // ----- reading a board -----

  /** Every item in page order. */
  function Flatten(categories: seq<Category>): seq<Item> {
    if categories == [] then []
    else Flatten(categories[..|categories| - 1]) + categories[|categories| - 1].items
  }

  function Items(s: Snapshot): seq<Item> {
    Flatten(s.categories)
  }

  method Collect(s: Snapshot) returns (out: seq<Item>)
    ensures out == Items(s)
  {
    out := [];
    for i := 0 to |s.categories|
      invariant out == Flatten(s.categories[..i])
    {
      assert s.categories[..i + 1][..i] == s.categories[..i];
      var items := s.categories[i].items;
      ghost var before := out;
      for k := 0 to |items|
        invariant out == before + items[..k]
      {
        out := out + [items[k]];
      }
      assert items[..|items|] == items;
    }
    assert s.categories[..|s.categories|] == s.categories;
  }

  method Len(s: Snapshot) returns (n: nat)
    ensures n == |Items(s)|
  {
    n := 0;
    for i := 0 to |s.categories|
      invariant n == |Flatten(s.categories[..i])|
    {
      assert s.categories[..i + 1][..i] == s.categories[..i];
      n := n + |s.categories[i].items|;
    }
    assert s.categories[..|s.categories|] == s.categories;
  }

  /** The first item with the key, in page order. */
  function FirstWithKey(items: seq<Item>, key: string): Option<Item> {
    if items == [] then None
    else if items[0].key == key then Some(items[0])
    else FirstWithKey(items[1..], key)
  }

  function Lookup(s: Snapshot, key: string): Option<Item> {
    FirstWithKey(Items(s), key)
  }

  lemma {:induction false} FirstWithKeyConcat(a: seq<Item>, b: seq<Item>, key: string)
    ensures FirstWithKey(a + b, key) ==
      if FirstWithKey(a, key).Some? then FirstWithKey(a, key) else FirstWithKey(b, key)
  {
    if a == [] {
      assert a + b == b;
    } else {
      assert (a + b)[1..] == a[1..] + b;
      FirstWithKeyConcat(a[1..], b, key);
    }
  }

  /** The first match is the item at the least position whose key is the one asked for. */
  lemma {:induction false} FirstWithKeyMeaning(items: seq<Item>, key: string)
    ensures match FirstWithKey(items, key)
      case None => forall i :: 0 <= i < |items| ==> items[i].key != key
      case Some(item) =>
        (exists i :: 0 <= i < |items| && items[i] == item && item.key == key
                     && (forall j :: 0 <= j < i ==> items[j].key != key))
  {
    if items != [] && items[0].key != key {
      var rest := items[1..];
      FirstWithKeyMeaning(rest, key);
      assert forall j :: 1 <= j < |items| ==> items[j] == rest[j - 1];
      if FirstWithKey(rest, key).Some? {
        var i :| 0 <= i < |rest| && rest[i] == FirstWithKey(rest, key).value && rest[i].key == key
          && forall j :: 0 <= j < i ==> rest[j].key != key;
        assert items[i + 1] == rest[i];
      }
    }
  }

  method LookupItem(s: Snapshot, key: string) returns (item: Option<Item>)
    ensures item == Lookup(s, key)
  {
    for i := 0 to |s.categories|
      invariant FirstWithKey(Flatten(s.categories[..i]), key) == None
    {
      assert s.categories[..i + 1][..i] == s.categories[..i];
      var items := s.categories[i].items;
      FirstWithKeyConcat(Flatten(s.categories[..i]), items, key);
      var k := 0;
      while k < |items|
        invariant k <= |items|
        invariant FirstWithKey(items, key) == FirstWithKey(items[k..], key)
      {
        if items[k].key == key {
          FlattenConcat(s.categories[..i + 1], s.categories[i + 1..]);
          assert s.categories[..i + 1] + s.categories[i + 1..] == s.categories;
          FirstWithKeyConcat(Flatten(s.categories[..i + 1]), Flatten(s.categories[i + 1..]), key);
          return Some(items[k]);
        }
        assert items[k..][1..] == items[k + 1..];
        k := k + 1;
      }
    }
    assert s.categories[..|s.categories|] == s.categories;
    return None;
  }

  lemma {:induction false} FlattenConcat(a: seq<Category>, b: seq<Category>)
    ensures Flatten(a + b) == Flatten(a) + Flatten(b)
  {
    if b == [] {
      assert a + b == a;
    } else {
      var items := b[|b| - 1].items;
      FlattenConcat(a, b[..|b| - 1]);
      assert Flatten(a + b) == Flatten(a + b[..|b| - 1]) + items by {
        assert (a + b)[..|a + b| - 1] == a + b[..|b| - 1];
      }
      assert (Flatten(a) + Flatten(b[..|b| - 1])) + items == Flatten(a) + (Flatten(b[..|b| - 1]) + items);
    }
  }
}
