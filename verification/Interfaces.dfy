/** The HTTP API and the command line filter alike, on the boards the program can build. */
module Interfaces {
  import opened Wrappers
  import opened Strings
  import opened Numfmt
  import opened Board
  import opened Filters
  import NumberLaws
  import Dom
  import Scrape
  import SmallPage

  // ----- what comes out of the table reader -----

  predicate IsClean(s: string) {
    Clean(s) == s
  }

  predicate IsParsedRow(row: Scrape.Row) {
    && row.slug != "" && row.title != ""
    && IsClean(row.title) && IsClean(row.price) && IsClean(row.change)
    && IsClean(row.low) && IsClean(row.high) && IsClean(row.time)
    && (row.status == "" || row.status == "low" || row.status == "high")
  }

  predicate IsParsed(table: Scrape.Table) {
    IsClean(table.title) && forall i :: 0 <= i < |table.rows| ==> IsParsedRow(table.rows[i])
  }

  lemma {:induction false} CleanIsClean(s: string)
    ensures IsClean(Clean(s))
  {
    CleanFixes(s);
  }

  lemma {:induction false} StatusIsKnown(classes: seq<string>)
    ensures var status := Scrape.FirstStatus(classes); status == "" || status == "low" || status == "high"
  {
    if classes != [] { StatusIsKnown(classes[1..]); }
  }

  lemma {:induction false} DraftIsClean(line: Scrape.Line)
    ensures var row := Scrape.Draft(line);
      && IsClean(row.title) && IsClean(row.price) && IsClean(row.change)
      && IsClean(row.low) && IsClean(row.high) && IsClean(row.time)
      && (row.status == "" || row.status == "low" || row.status == "high")
  {
    forall cell: Dom.Node
      ensures IsClean(Scrape.CellText(cell))
    {
      CleanIsClean(Dom.Text(cell));
    }
    CleanIsClean(Dom.AttrIn(line.attrs, "data-price"));
    if line.change.Node? {
      StatusIsKnown(Scrape.AllClasses(Dom.TopHits(line.change.firstChild, Dom.Tag("span"))));
    }
  }

  lemma {:induction false} RowIsParsed(tr: Dom.Node, cols: Scrape.Layout, row: Scrape.Row)
    requires Scrape.RowOf(tr, cols) == Some(row)
    ensures IsParsedRow(row)
  {
    DraftIsClean(Scrape.LineFrom(tr, Dom.Found(tr, Dom.Tag("th")), Dom.Kids(tr, Dom.Tag("td")), cols));
  }

  lemma {:induction false} RowsFrom(trs: seq<Dom.Node>, read: Scrape.Reader)
    ensures forall row :: row in Scrape.Rows(trs, read) ==> exists tr :: tr in trs && read(tr) == Some(row)
  {
    if trs != [] {
      RowsFrom(trs[..|trs| - 1], read);
      assert trs[|trs| - 1] in trs && forall tr :: tr in trs[..|trs| - 1] ==> tr in trs;
    }
  }

  lemma {:induction false} TitleIsClean(table: Dom.Node, keywords: Scrape.Keywords)
    requires table.Node?
    ensures IsClean(Scrape.Head(table, keywords).0)
  {
    CleanFixes("");
    var cells := Scrape.HeadCells(table);
    if cells != [] { CleanIsClean(Dom.Text(cells[0])); }
  }

  /** Every table that is read has a clean caption, and rows with a key, a title and clean texts. */
  lemma {:induction false} TablesAreParsed(table: Dom.Node, keywords: Scrape.Keywords)
    requires table.Node?
    ensures IsParsed(Scrape.TableOf(table, keywords))
  {
    var cols := Scrape.Head(table, keywords).1;
    var trs, read := Scrape.BodyLines(table), Scrape.ReaderFor(cols);
    var rows := Scrape.Rows(trs, read);
    TitleIsClean(table, keywords);
    RowsFrom(trs, read);
    forall i | 0 <= i < |rows|
      ensures IsParsedRow(rows[i])
    {
      assert rows[i] in rows;
      var tr :| tr in trs && read(tr) == Some(rows[i]);
      RowIsParsed(tr, cols, rows[i]);
    }
  }

  // ----- the boards -----

  /** The table is what the reader makes of some node. */
  ghost predicate IsRead(table: Scrape.Table) {
    exists node: Dom.Node :: node.Node? && Scrape.TableOf(node, Scrape.HEADER_KEYWORDS) == table
  }

  ghost predicate AllRead(tables: seq<Scrape.Table>) {
    forall i :: 0 <= i < |tables| ==> IsRead(tables[i])
  }

  lemma {:induction false} ReadIsParsed(table: Scrape.Table)
    requires IsRead(table)
    ensures IsParsed(table)
  {
    var node: Dom.Node :| node.Node? && Scrape.TableOf(node, Scrape.HEADER_KEYWORDS) == table;
    TablesAreParsed(node, Scrape.HEADER_KEYWORDS);
  }

  ghost predicate BuiltFrom(board: seq<Category>, tables: seq<Scrape.Table>, m: Market, baseURL: string) {
    AllRead(tables) && CategoriesOf(board, tables, ConversionFor(m, baseURL))
  }

  /** The categories of a snapshot of tables read from a page. */
  ghost predicate IsBoard(board: seq<Category>) {
    exists tables, m, baseURL :: BuiltFrom(board, tables, m, baseURL)
  }

  lemma {:induction false} NonEmptyFrom(tables: seq<Scrape.Table>)
    ensures forall t :: t in NonEmpty(tables) ==> t in tables
  {
    if tables != [] {
      NonEmptyFrom(tables[..|tables| - 1]);
      assert tables[|tables| - 1] in tables && forall t :: t in tables[..|tables| - 1] ==> t in tables;
    }
  }

  lemma {:induction false} CaptionsAreClean(board: seq<Category>)
    requires IsBoard(board)
    ensures forall i :: 0 <= i < |board| ==> IsClean(board[i].title)
  {
    var tables, m, baseURL :| BuiltFrom(board, tables, m, baseURL);
    var kept := NonEmpty(tables);
    NonEmptyFrom(tables);
    forall i | 0 <= i < |board|
      ensures IsClean(board[i].title)
    {
      assert CategoryOf(board[i], kept[i], ConversionFor(m, baseURL));
      assert kept[i] in kept;
      var k :| 0 <= k < |tables| && tables[k] == kept[i];
      ReadIsParsed(tables[k]);
    }
  }

  // ----- the two answers -----

  /** The answer of the HTTP API to the two query parameters. */
  function ServerAnswer(board: seq<Category>, category: string, keys: string): seq<Category> {
    Filtered(board, TrimSpace(category), Members(KeyList(keys)))
  }

  /** The answer of the command line to the two flags. */
  function CommandAnswer(board: seq<Category>, category: string, keys: string): seq<Category> {
    Filtered(board, category, Members(KeyList(keys)))
  }

  lemma {:induction false} NothingKept(board: seq<Category>, category: string, keys: set<string>)
    requires category != "" && forall i :: 0 <= i < |board| ==> board[i].title != category
    ensures Kept(board, category, keys) == []
  {
    if board != [] {
      NothingKept(board[..|board| - 1], category, keys);
    }
  }

  /** White space around a text keeps it from being clean. */
  lemma {:induction false} CleanIsTrimmed(s: string)
    requires IsClean(s)
    ensures TrimSpace(s) == s
  {
    CleanFixes(s);
    TrimSpaceFixed(s);
  }

  /** A category no caption can be gets the empty answer from both. */
  lemma {:induction false} NeitherAnswers(board: seq<Category>, category: string, keys: string)
    requires IsBoard(board) && TrimSpace(category) != category && !IsClean(TrimSpace(category))
    ensures ServerAnswer(board, category, keys) == [] == CommandAnswer(board, category, keys)
  {
    var trimmed := TrimSpace(category);
    CaptionsAreClean(board);
    CleanFixes("");
    assert trimmed != "" && category != "";
    if IsClean(category) { CleanIsTrimmed(category); }
    NothingKept(board, trimmed, Members(KeyList(keys)));
    NothingKept(board, category, Members(KeyList(keys)));
  }

  // ----- a board that tells them apart -----

  lemma {:induction false} WordsAreNotBlank(parts: seq<string>)
    ensures forall w :: w in Words(parts) ==> w != ""
  {
    if parts != [] {
      WordsAreNotBlank(parts[..|parts| - 1]);
    }
  }

  /** A key among those asked for, if there are any. */
  function SomeKey(keys: string): string {
    if KeyList(keys) == [] then "k" else KeyList(keys)[0]
  }

  /** The table of a page with one row, under that caption and with that key. */
  function Page(caption: string, key: string): seq<Scrape.Table> {
    [Scrape.Table(caption, [Scrape.Row(key, "1", "", "", "", "", "", "", "")])]
  }

  lemma {:induction false} OneIsClean()
    ensures IsClean("1")
  {
    NumberLaws.AsciiIsPlain('1');
    VisibleIsNotSpace('1');
    CleanFixes("1");
  }

  lemma {:induction false} PageIsRead(caption: string, key: string)
    requires IsClean(caption) && key != ""
    ensures AllRead(Page(caption, key))
  {
    OneIsClean();
    SmallPage.OneRowIsRead(caption, "1", key, Scrape.HEADER_KEYWORDS);
    OneTableIsRead(SmallPage.OneRow(caption, "1", key), Page(caption, key)[0]);
  }

  lemma {:induction false} OneTableIsRead(node: Dom.Node, table: Scrape.Table)
    requires node.Node? && Scrape.TableOf(node, Scrape.HEADER_KEYWORDS) == table
    ensures IsRead(table)
  {
  }

  lemma {:induction false} ItemOf(m: Market, baseURL: string, title: string, row: Scrape.Row)
    ensures ConversionFor(m, baseURL)(title, row).key == row.slug
  {
  }

  /** The board of such a page has one category under the caption, with one item with the key. */
  lemma {:induction false} BoardOf(caption: string, key: string) returns (board: seq<Category>)
    requires IsClean(caption) && key != ""
    ensures IsBoard(board) && |board| == 1 && board[0].title == caption
    ensures |board[0].items| == 1 && board[0].items[0].key == key
  {
    var tables, convert := Page(caption, key), ConversionFor("gold", "");
    var row := tables[0].rows[0];
    board := [Category(caption, [convert(caption, row)])];
    ItemOf("gold", "", caption, row);
    PageIsRead(caption, key);
    OneTable(board, tables, convert);
    assert BuiltFrom(board, tables, "gold", "");
  }

  lemma {:induction false} OneTable(board: seq<Category>, tables: seq<Scrape.Table>, convert: Conversion)
    requires |tables| == 1 && |tables[0].rows| == 1
    requires board == [Category(tables[0].title, [convert(tables[0].title, tables[0].rows[0])])]
    ensures CategoriesOf(board, tables, convert)
  {
    assert tables[..0] == [];
    assert NonEmpty(tables) == [tables[0]];
  }

  lemma {:induction false} KeptOne(c: Category, category: string, keys: set<string>)
    ensures Kept([c], category, keys) == Sifted(c, category, keys)
  {
    assert [c][..0] == [];
  }

  lemma {:induction false} KeptItemsOne(item: Item, keys: set<string>)
    ensures KeptItems([item], keys) == if item.key in keys then [item] else []
  {
    assert [item][..0] == [];
  }

  lemma {:induction false} AnswersDiffer(board: seq<Category>, category: string, keys: string)
    requires TrimSpace(category) != category && |board| == 1 && board[0].title == TrimSpace(category)
    requires |board[0].items| == 1 && board[0].items[0].key == SomeKey(keys)
    ensures ServerAnswer(board, category, keys) != CommandAnswer(board, category, keys)
  {
    var c, wanted, trimmed := board[0], Members(KeyList(keys)), TrimSpace(category);
    assert board == [c] && c.items == [c.items[0]];
    assert KeyList(keys) != [] ==> KeyList(keys)[0] in wanted;
    KeptOne(c, category, wanted);
    KeptOne(c, trimmed, wanted);
    KeptItemsOne(c.items[0], wanted);
  }

  lemma {:induction false} SomeKeyIsNotBlank(keys: string)
    ensures SomeKey(keys) != ""
  {
    WordsAreNotBlank(Split(keys, ','));
    assert KeyList(keys) != [] ==> KeyList(keys)[0] in KeyList(keys);
  }

  /** Both filters give the same categories of every board the program can build. */
  ghost predicate Agree(category: string, keys: string) {
    forall board :: IsBoard(board) ==> ServerAnswer(board, category, keys) == CommandAnswer(board, category, keys)
  }

  lemma {:induction false} Disagree(category: string, keys: string)
    requires TrimSpace(category) != category && IsClean(TrimSpace(category))
    ensures !Agree(category, keys)
  {
    SomeKeyIsNotBlank(keys);
    var board := BoardOf(TrimSpace(category), SomeKey(keys));
    AnswersDiffer(board, category, keys);
  }

  /** They agree exactly when the category is given trimmed, or no caption can be what is left of it. */
  lemma {:induction false} AgreeIff(category: string, keys: string)
    ensures Agree(category, keys) <==>
      TrimSpace(category) == category || Clean(TrimSpace(category)) != TrimSpace(category)
  {
    if TrimSpace(category) != category {
      if Clean(TrimSpace(category)) == TrimSpace(category) {
        Disagree(category, keys);
      } else {
        forall board | IsBoard(board)
          ensures ServerAnswer(board, category, keys) == CommandAnswer(board, category, keys)
        {
          NeitherAnswers(board, category, keys);
        }
      }
    }
  }
}
