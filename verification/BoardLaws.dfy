/** What an item of a board says, told from the page it was read from, and that no row of the page is lost. */
module BoardLaws {
  import opened Wrappers
  import opened Strings
  import opened Numfmt
  import opened Dom
  import opened Scrape
  import opened ColumnOrder
  import opened Board
  import NumberLaws
  import Output
  import DomLaws
  import ScrapeLaws

  // ----- amounts -----

  /** The amount of a text: the text and its number if it has a digit, and otherwise nothing. */
  predicate IsAmountOf(amount: Amount, text: string) {
    if HasDigit(Digits(text)) then amount.text == text && Value(text) == Some(amount.value)
    else amount == Amount("", 0.0)
  }

  lemma {:induction false} CleanIsTrimmed(s: string)
    ensures TrimSpace(Clean(s)) == Clean(s)
  {
    CleanIsNormal(s);
    TrimSpaceFixed(Clean(s));
  }

  lemma {:induction false} AmountIs(text: string)
    ensures IsAmountOf(AmountOf(text), TrimSpace(text))
  {
    NumberLaws.ReadsWhateverHasADigit(TrimSpace(text));
  }

  // ----- the item of a row -----

  /** The amount of a column that holds one. */
  function AmountIn(item: Item, c: Column): Amount
    requires c.Price? || c.Low? || c.High?
  {
    match c
    case Price => item.price
    case Low => item.low
    case High => item.high
  }

  lemma {:induction false} ItemOfRow(m: Market, baseURL: string, title: string, row: Row, c: Column)
    requires c.Price? || c.Low? || c.High?
    requires TrimSpace(FieldOf(row, c)) == FieldOf(row, c)
    ensures IsAmountOf(AmountIn(ConversionFor(m, baseURL)(title, row), c), FieldOf(row, c))
  {
    AmountIs(FieldOf(row, c));
    AmountOfField(m, baseURL, title, row, c);
  }

  lemma {:induction false} AmountOfField(m: Market, baseURL: string, title: string, row: Row, c: Column)
    requires c.Price? || c.Low? || c.High?
    ensures AmountIn(ConversionFor(m, baseURL)(title, row), c) == AmountOf(FieldOf(row, c))
  {
  }

  /**
   The price, the low and the high of an item are the amounts whose text stands below the caption that announces
   them, however the columns are ordered; an empty price cell is made up for by the attribute of the line.
   */
  lemma {:induction false} AmountsComeFromTheirColumns(
      table: Node, tr: Node, keywords: Keywords, c: Column, i: nat, m: Market, baseURL: string)
    requires c.Price? || c.Low? || c.High?
    requires table.Node? && Readable(table, keywords) && tr.Node?
    requires var captions := Texts(HeadCells(table)[1..]);
      i < |captions| && ColumnOf(captions[i], keywords) == Some(c)
    ensures var (title, cols) := Head(table, keywords);
      var below := Clean(Text(CellAt(Kids(tr, Tag("td")), i)));
      var text := if c == Price && below == "" then Clean(Attr(tr, "data-price")) else below;
      RowOf(tr, cols).Some? ==> IsAmountOf(AmountIn(ConversionFor(m, baseURL)(title, RowOf(tr, cols).value), c), text)
  {
    var (title, cols) := Head(table, keywords);
    if RowOf(tr, cols).Some? {
      var row := RowOf(tr, cols).value;
      FieldsComeFromTheirColumns(table, tr, keywords, c, i);
      CleanIsTrimmed(Text(CellAt(Kids(tr, Tag("td")), i)));
      CleanIsTrimmed(Attr(tr, "data-price"));
      ItemOfRow(m, baseURL, title, row, c);
    }
  }

  /** The move an item reports: where its row says it goes, by what percentage and by what amount. */
  lemma {:induction false} MoveOfRow(m: Market, baseURL: string, title: string, row: Row)
    ensures var move := ConversionFor(m, baseURL)(title, row).change;
      && (move.status == Fell <==> row.status == "low") && (move.status == Rose <==> row.status == "high")
      && move.percent == Change(row.change).0 && move.amount == AmountOf(Change(row.change).1)
  {
  }

  lemma {:induction false} MoveOfCell(m: Market, baseURL: string, title: string, row: Row, p: NumberLaws.Decimal,
                                      a: NumberLaws.Decimal)
    requires p.Valid() && a.Valid() && row.change == NumberLaws.Cell(p.Show(), Output.Group(a.Show()))
    ensures var move := ConversionFor(m, baseURL)(title, row).change;
      move.percent == p.Real() && move.amount == Amount(Output.Group(a.Show()), a.Real())
  {
    MoveOfRow(m, baseURL, title, row);
    NumberLaws.ChangeRoundTrip(p, a);
  }

  /**
   The move of an item comes from the cell below the caption of the change: it fell or rose exactly if that cell
   says low or high, and a percentage and a grouped amount in the cell come back as numbers.
   */
  lemma {:induction false} MovesComeFromTheirColumn(
      table: Node, tr: Node, keywords: Keywords, i: nat, m: Market, baseURL: string,
      p: NumberLaws.Decimal, a: NumberLaws.Decimal)
    requires table.Node? && Readable(table, keywords) && tr.Node? && p.Valid() && a.Valid()
    requires var captions := Texts(HeadCells(table)[1..]);
      i < |captions| && ColumnOf(captions[i], keywords) == Some(Change_)
    requires RowOf(tr, Head(table, keywords).1).Some?
    ensures var (title, cols) := Head(table, keywords);
      var cell := CellAt(Kids(tr, Tag("td")), i);
      var move := ConversionFor(m, baseURL)(title, RowOf(tr, cols).value).change;
      && (move.status == Fell <==> Status(cell) == "low") && (move.status == Rose <==> Status(cell) == "high")
      && (Clean(Text(cell)) == NumberLaws.Cell(p.Show(), Output.Group(a.Show())) ==>
           move.percent == p.Real() && move.amount == Amount(Output.Group(a.Show()), a.Real()))
  {
    var (title, cols) := Head(table, keywords);
    var row := RowOf(tr, cols).value;
    FieldsComeFromTheirColumns(table, tr, keywords, Change_, i);
    MoveOfRow(m, baseURL, title, row);
    if row.change == NumberLaws.Cell(p.Show(), Output.Group(a.Show())) {
      MoveOfCell(m, baseURL, title, row, p, a);
    }
  }

  /** What an item takes over as it is. */
  lemma {:induction false} IdentityOfRow(m: Market, baseURL: string, title: string, row: Row)
    ensures var item := ConversionFor(m, baseURL)(title, row);
      && item.key == row.slug && item.title == row.title && item.time == row.time
      && item.market == m && item.category == title
  {
  }

  lemma {:induction false} FullLink(baseURL: string, href: string, scheme: string, rest: string)
    requires TrimSpace(href) == scheme + rest && (scheme == "http://" || scheme == "https://")
    ensures AbsoluteURL(baseURL, href) == scheme + rest
  {
    assert (scheme + rest)[..|scheme|] == scheme;
  }

  lemma {:induction false} SchemelessLink(baseURL: string, href: string, rest: string)
    requires TrimSpace(href) == "//" + rest
    ensures AbsoluteURL(baseURL, href) == "https://" + rest
  {
    var link := "//" + rest;
    assert link[0] == '/' && link[1] == '/' && link[..2] == "//";
    assert "https:" + link == "https://" + rest;
  }

  lemma {:induction false} RootedLink(baseURL: string, href: string, rest: string)
    requires TrimSpace(href) == "/" + rest && (rest == "" || rest[0] != '/')
    ensures AbsoluteURL(baseURL, href) == baseURL + "/" + rest
  {
    var link := "/" + rest;
    assert link[0] == '/' && (rest != "" ==> link[1] == rest[0]);
    assert HasPrefix(link, "/") by { assert link[..1] == "/"; }
    assert baseURL + link == baseURL + "/" + rest;
  }

  lemma {:induction false} RelativeLink(baseURL: string, href: string, rest: string)
    requires TrimSpace(href) == rest && rest != "" && rest[0] != '/'
    requires !HasPrefix(rest, "http://") && !HasPrefix(rest, "https://")
    ensures AbsoluteURL(baseURL, href) == baseURL + "/" + rest
  {
  }

  /**
   The link of an item: none stays none, one with its own scheme stays as it is, one without a scheme is given one,
   and any other, rooted or not, hangs below the base address.
   */
  lemma {:induction false} LinkOfRow(
      m: Market, baseURL: string, title: string, row: Row, start: string, rest: string)
    requires TrimSpace(row.profile) == start + rest
    ensures var url := ConversionFor(m, baseURL)(title, row).profileURL;
      && (start == "http://" || start == "https://" ==> url == start + rest)
      && (start == "//" ==> url == "https://" + rest)
      && (start == "/" && (rest == "" || rest[0] != '/') ==> url == baseURL + "/" + rest)
      && (start == "" && rest != "" && rest[0] != '/' && !HasPrefix(rest, "http://") && !HasPrefix(rest, "https://") ==>
           url == baseURL + "/" + rest)
      && (start == "" && rest == "" ==> url == "")
  {
    LinkOf(m, baseURL, title, row);
    if start == "http://" || start == "https://" {
      FullLink(baseURL, row.profile, start, rest);
    } else if start == "//" {
      SchemelessLink(baseURL, row.profile, rest);
    } else if start == "/" && (rest == "" || rest[0] != '/') {
      RootedLink(baseURL, row.profile, rest);
    } else if start == "" {
      assert start + rest == rest;
      if rest != "" && rest[0] != '/' && !HasPrefix(rest, "http://") && !HasPrefix(rest, "https://") {
        RelativeLink(baseURL, row.profile, rest);
      }
    }
  }

  lemma {:induction false} LinkOf(m: Market, baseURL: string, title: string, row: Row)
    ensures ConversionFor(m, baseURL)(title, row).profileURL == AbsoluteURL(baseURL, row.profile)
  {
  }

  // ----- no row is lost -----

  /** How many of the tables have rows. */
  function Filled(tables: seq<Table>): nat {
    if tables == [] then 0
    else Filled(tables[..|tables| - 1]) + (if tables[|tables| - 1].rows == [] then 0 else 1)
  }

  lemma {:induction false} NonEmptyAt(tables: seq<Table>, i: nat)
    requires i < |tables|
    ensures |NonEmpty(tables)| == Filled(tables)
    ensures tables[i].rows != [] ==> Filled(tables[..i]) < |NonEmpty(tables)|
    ensures tables[i].rows != [] ==> NonEmpty(tables)[Filled(tables[..i])] == tables[i]
    decreases |tables|
  {
    var n := |tables| - 1;
    NonEmptyCount(tables[..n]);
    if i < n {
      NonEmptyAt(tables[..n], i);
      assert tables[..n][..i] == tables[..i];
    }
  }

  lemma {:induction false} NonEmptyCount(tables: seq<Table>)
    ensures |NonEmpty(tables)| == Filled(tables)
  {
    if tables != [] { NonEmptyCount(tables[..|tables| - 1]); }
  }

  /** Each table with rows becomes the category at its place among those, with its caption and an item for each row. */
  lemma {:induction false} NoRowIsLost(
      categories: seq<Category>, tables: seq<Table>, m: Market, baseURL: string, i: nat)
    requires CategoriesOf(categories, tables, ConversionFor(m, baseURL))
    requires i < |tables| && tables[i].rows != []
    ensures |categories| == Filled(tables) && Filled(tables[..i]) < |categories|
    ensures var c := categories[Filled(tables[..i])];
      && c.title == tables[i].title && |c.items| == |tables[i].rows|
      && forall k :: 0 <= k < |c.items| ==> c.items[k] == ConversionFor(m, baseURL)(tables[i].title, tables[i].rows[k])
  {
    NonEmptyAt(tables, i);
    var place := Filled(tables[..i]);
    assert CategoryOf(categories[place], NonEmpty(tables)[place], ConversionFor(m, baseURL));
  }

  /** The items of a board are those of its categories, one after the other. */
  lemma {:induction false} FlattenAt(categories: seq<Category>, i: nat, k: nat)
    requires i < |categories| && k < |categories[i].items|
    ensures var before := |Flatten(categories[..i])|;
      before + k < |Flatten(categories)| && Flatten(categories)[before + k] == categories[i].items[k]
    ensures |Flatten(categories[..i + 1])| == |Flatten(categories[..i])| + |categories[i].items|
  {
    var n := |categories| - 1;
    assert categories[..i + 1][..i] == categories[..i];
    if i == n {
      assert categories[..i + 1] == categories;
    } else {
      FlattenAt(categories[..n], i, k);
      assert categories[..n][..i] == categories[..i];
    }
  }
}
