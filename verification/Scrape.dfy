/**
 Reading a market page into rows of text. The column layout is taken from the header captions,
 so that a page with its columns in another order still gives the same rows.
 */
module Scrape {
  import opened Wrappers
  import opened Strings
  import opened Numfmt
  import opened Dom

  datatype Row = Row(
    slug: string, title: string, price: string, change: string, status: string,
    low: string, high: string, time: string, profile: string)

  datatype Table = Table(title: string, rows: seq<Row>)

  datatype Layout = Layout(price: int, change: int, low: int, high: int, time: int)

  datatype Column = Price | Change_ | Low | High | Time

  const DEFAULT_LAYOUT := Layout(0, 1, 2, 3, 4)
  const NO_LAYOUT := Layout(-1, -1, -1, -1, -1)
  const MARKET_TABLE_CLASS := "market-table"

  /** Caption words, and the column each announces; the first match counts. */
  type Keywords = seq<(string, Column)>

  const HEADER_KEYWORDS: Keywords :=
    [("قیمت زنده", Price), ("نرخ زنده", Price), ("تغییر", Change_),
     ("کمترین", Low), ("بیشترین", High), ("زمان", Time)]

  function At(l: Layout, c: Column): int {
    match c
    case Price => l.price
    case Change_ => l.change
    case Low => l.low
    case High => l.high
    case Time => l.time
  }

  function Set(l: Layout, c: Column, i: int): Layout {
    match c
    case Price => l.(price := i)
    case Change_ => l.(change := i)
    case Low => l.(low := i)
    case High => l.(high := i)
    case Time => l.(time := i)
  }

  /** The column of the first keyword that the caption contains. */
  function ColumnOf(caption: string, keywords: Keywords): Option<Column> {
    if keywords == [] then None
    else if Contains(caption, keywords[0].0) then Some(keywords[0].1)
    else ColumnOf(caption, keywords[1..])
  }

  /** The layout after the data captions, the last caption of a column winning, and how many were recognised. */
  function Scan(captions: seq<string>, keywords: Keywords): (Layout, nat) {
    if captions == [] then (NO_LAYOUT, 0)
    else
      var n := |captions| - 1;
      var (cols, matched) := Scan(captions[..n], keywords);
      match ColumnOf(captions[n], keywords)
      case None => (cols, matched)
      case Some(c) => (Set(cols, c, n), matched + 1)
  }

  function Texts(cells: seq<Node>): (ts: seq<string>)
    ensures |ts| == |cells|
    ensures forall i :: 0 <= i < |cells| ==> ts[i] == Text(cells[i])
  {
    if cells == [] then [] else [Text(cells[0])] + Texts(cells[1..])
  }

  function HeadCells(table: Node): seq<Node>
    requires table.Node?
  {
    var head := Found(table, Tag("thead"));
    if head.Nil? then []
    else
      var tr := Found(head, Tag("tr"));
      if tr.Nil? then [] else Kids(tr, Tag("th"))
  }

  function Head(table: Node, keywords: Keywords): (string, Layout)
    requires table.Node?
  {
    var cells := HeadCells(table);
    if cells == [] then ("", DEFAULT_LAYOUT)
    else
      var (cols, matched) := Scan(Texts(cells[1..]), keywords);
      (Clean(Text(cells[0])), if matched < 3 then DEFAULT_LAYOUT else cols)
  }

  method Recognise(caption: string, keywords: Keywords, cols: Layout, matched: nat, i: int)
    returns (cols': Layout, matched': nat)
    ensures (cols', matched') ==
      match ColumnOf(caption, keywords)
      case None => (cols, matched)
      case Some(c) => (Set(cols, c, i), matched + 1)
  {
    cols', matched' := cols, matched;
    var k := 0;
    while k < |keywords|
      invariant k <= |keywords|
      invariant cols' == cols && matched' == matched
      invariant ColumnOf(caption, keywords) == ColumnOf(caption, keywords[k..])
    {
      if Contains(caption, keywords[k].0) {
        cols', matched' := Set(cols, keywords[k].1, i), matched + 1;
        return;
      }
      assert keywords[k..][1..] == keywords[k + 1..];
      k := k + 1;
    }
  }

  method FindHeadCells(table: Node) returns (cells: seq<Node>)
    requires table.Node?
    ensures cells == HeadCells(table)
  {
    var head := Find(table, Tag("thead"));
    if head == Nil { return []; }
    var tr := Find(head, Tag("tr"));
    if tr == Nil { return []; }
    cells := Children(tr, Tag("th"));
  }

  lemma {:induction false} ScanStep(captions: seq<string>, i: nat, keywords: Keywords)
    requires i < |captions|
    ensures var (cols, matched) := Scan(captions[..i], keywords);
      Scan(captions[..i + 1], keywords) ==
        match ColumnOf(captions[i], keywords)
        case None => (cols, matched)
        case Some(c) => (Set(cols, c, i), matched + 1)
  {
    assert captions[..i + 1][..i] == captions[..i];
  }

  method ScanHead(cells: seq<Node>, ghost captions: seq<string>, keywords: Keywords)
    returns (cols: Layout, matched: nat)
    requires captions == Texts(cells)
    ensures (cols, matched) == Scan(captions, keywords)
  {
    cols, matched := NO_LAYOUT, 0;
    for i := 0 to |cells|
      invariant (cols, matched) == Scan(captions[..i], keywords)
    {
      var text := ReadText(cells[i]);
      ScanStep(captions, i, keywords);
      cols, matched := Recognise(text, keywords, cols, matched, i);
    }
    assert captions[..|captions|] == captions;
  }

  method ParseHead(table: Node) returns (title: string, cols: Layout)
    requires table.Node?
    ensures (title, cols) == Head(table, HEADER_KEYWORDS)
  {
    var cells := FindHeadCells(table);
    if |cells| == 0 { return "", DEFAULT_LAYOUT; }
    title := ReadText(cells[0]);
    title := Clean(title);
    var matched;
    cols, matched := ScanHead(cells[1..], Texts(cells[1..]), HEADER_KEYWORDS);
    if matched < 3 { cols := DEFAULT_LAYOUT; }
  }

  // ----- rows -----

  function CellAt(cells: seq<Node>, i: int): Node {
    if 0 <= i < |cells| then cells[i] else Nil
  }

  function FirstStatus(classes: seq<string>): string {
    if classes == [] then ""
    else if classes[0] == "low" || classes[0] == "high" then classes[0]
    else FirstStatus(classes[1..])
  }

  function AllClasses(spans: seq<Node>): seq<string> {
    if spans == [] then [] else Classes(spans[0]) + AllClasses(spans[1..])
  }

  /** The first class token of the spans of a cell that names a direction. */
  function Status(cell: Node): string {
    if cell.Nil? then "" else FirstStatus(AllClasses(TopHits(cell.firstChild, Tag("span"))))
  }

  lemma {:induction false} FirstStatusConcat(a: seq<string>, b: seq<string>)
    ensures FirstStatus(a + b) == if FirstStatus(a) != "" then FirstStatus(a) else FirstStatus(b)
  {
    if a == [] {
      assert a + b == b;
    } else {
      assert (a + b)[1..] == a[1..] + b;
      FirstStatusConcat(a[1..], b);
    }
  }

  method Direction(classes: seq<string>) returns (status: string)
    ensures status == FirstStatus(classes)
  {
    var k := 0;
    while k < |classes|
      invariant k <= |classes|
      invariant FirstStatus(classes) == FirstStatus(classes[k..])
    {
      if classes[k] == "low" || classes[k] == "high" { return classes[k]; }
      assert classes[k..][1..] == classes[k + 1..];
      k := k + 1;
    }
    return "";
  }

  method StatusOf(cell: Node) returns (status: string)
    requires cell.Node?
    ensures status == Status(cell)
  {
    var spans := FindAll(cell, Tag("span"));
    var i := 0;
    while i < |spans|
      invariant i <= |spans|
      invariant Status(cell) == FirstStatus(AllClasses(spans[i..]))
    {
      var classes := Classes(spans[i]);
      assert spans[i..][0] == spans[i] && spans[i..][1..] == spans[i + 1..];
      FirstStatusConcat(classes, AllClasses(spans[i + 1..]));
      status := Direction(classes);
      if status != "" { return; }
      i := i + 1;
    }
    return "";
  }

  function SlugFromHref(href: string): string {
    BeforeAny(AfterLast(TrimSuffix(TrimSpace(href), '/'), '/'), "?#")
  }

  /** What a row is made from: the attributes of the line, its title cell, its data cells and its last cell. */
  datatype Line = Line(
    attrs: seq<(string, string)>, title: Node, price: Node, change: Node, low: Node, high: Node, time: Node, last: Node)

  function LineFrom(tr: Node, th: Node, cells: seq<Node>, cols: Layout): Line
    requires tr.Node?
  {
    Line(tr.attrs, Content(th), Content(CellAt(cells, cols.price)), Content(CellAt(cells, cols.change)),
         Content(CellAt(cells, cols.low)), Content(CellAt(cells, cols.high)), Content(CellAt(cells, cols.time)),
         Content(CellAt(cells, |cells| - 1)))
  }

  /** The link of the last cell. */
  function ProfileOf(last: Node): string {
    if last.Nil? then "" else Attr(Found(last, Tag("a")), "href")
  }

  /** The cleaned text of a cell; nothing for a column the row does not have. */
  function CellText(cell: Node): string {
    Clean(Text(cell))
  }

  /** Everything the cells of a body line say, before the slug is settled. */
  function Draft(line: Line): Row {
    Row(AttrIn(line.attrs, "data-market-nameslug"), CellText(line.title),
        if CellText(line.price) != "" then CellText(line.price) else Clean(AttrIn(line.attrs, "data-price")),
        CellText(line.change), Status(line.change),
        CellText(line.low), CellText(line.high), CellText(line.time), ProfileOf(line.last))
  }

  /** A row needs a title, and a slug of its own or one taken from its link. */
  function Finish(draft: Row): Option<Row> {
    var row := if draft.slug == "" then draft.(slug := SlugFromHref(draft.profile)) else draft;
    if row.slug == "" || row.title == "" then None else Some(row)
  }

  function RowFrom(tr: Node, th: Node, cells: seq<Node>, cols: Layout): Option<Row>
    requires tr.Node?
  {
    if th.Nil? && cells == [] then None else Finish(Draft(LineFrom(tr, th, cells, cols)))
  }

  function RowOf(tr: Node, cols: Layout): Option<Row> {
    if tr.Nil? then None else RowFrom(tr, Found(tr, Tag("th")), Kids(tr, Tag("td")), cols)
  }

  lemma {:induction false} HitsAreHits(s: seq<Node>, m: Matcher)
    ensures forall n :: n in Hits(s, m) ==> n in s && Hit(n, m)
  {
    if s != [] {
      HitsAreHits(s[..|s| - 1], m);
    }
  }

  lemma {:induction false} KidsAreNodes(n: Node, m: Matcher)
    ensures forall k :: k in Kids(n, m) ==> k.Node?
  {
    if n.Node? { HitsAreHits(Siblings(n.firstChild), m); }
  }

  method ReadCell(cell: Node) returns (text: string)
    ensures text == CellText(Content(cell))
  {
    text := ReadText(cell);
    text := Clean(text);
  }

  method ReadChange(cell: Node) returns (text: string, status: string)
    ensures text == CellText(Content(cell)) && status == Status(Content(cell))
  {
    text := ReadCell(cell);
    status := "";
    if cell != Nil { status := StatusOf(cell); }
  }

  method ReadProfile(cells: seq<Node>) returns (href: string)
    ensures href == ProfileOf(Content(CellAt(cells, |cells| - 1)))
  {
    href := "";
    if |cells| > 0 && cells[|cells| - 1] != Nil {
      var a := Find(cells[|cells| - 1], Tag("a"));
      if a != Nil { href := Attr(a, "href"); }
    }
  }

  method FillRow(tr: Node, th: Node, cells: seq<Node>, cols: Layout) returns (row: Row)
    requires tr.Node?
    ensures row == Draft(LineFrom(tr, th, cells, cols))
  {
    var title := ReadCell(th);
    var slug, price := Attr(tr, "data-market-nameslug"), Clean(Attr(tr, "data-price"));
    row := Row(slug, title, price, "", "", "", "", "", "");
    var text := ReadCell(CellAt(cells, cols.price));
    if text != "" { row := row.(price := text); }
    var change, status := ReadChange(CellAt(cells, cols.change));
    row := row.(change := change, status := status);
    var low := ReadCell(CellAt(cells, cols.low));
    var high := ReadCell(CellAt(cells, cols.high));
    var time := ReadCell(CellAt(cells, cols.time));
    row := row.(low := low, high := high, time := time);
    var profile := ReadProfile(cells);
    row := row.(profile := profile);
  }

  method ParseCells(tr: Node, th: Node, cells: seq<Node>, cols: Layout) returns (row: Row, ok: bool)
    requires tr.Node?
    ensures RowFrom(tr, th, cells, cols) == if ok then Some(row) else None
  {
    row, ok := Row("", "", "", "", "", "", "", "", ""), false;
    if th == Nil && |cells| == 0 { return; }
    row := FillRow(tr, th, cells, cols);
    if row.slug == "" { row := row.(slug := SlugFromHref(row.profile)); }
    ok := row.slug != "" && row.title != "";
  }

  /** The row reader for a given layout. */
  type Reader = Node -> Option<Row>

  ghost predicate Reads(read: Reader, cols: Layout) {
    forall tr {:trigger RowOf(tr, cols)} :: read(tr) == RowOf(tr, cols)
  }

  method ParseRow(tr: Node, cols: Layout, ghost read: Reader) returns (row: Row, ok: bool)
    requires tr.Node? && Reads(read, cols)
    ensures read(tr) == if ok then Some(row) else None
  {
    assert read(tr) == RowOf(tr, cols);
    var th := Find(tr, Tag("th"));
    var cells := Children(tr, Tag("td"));
    row, ok := ParseCells(tr, th, cells, cols);
  }

  // ----- tables -----

  /** The rows of the lines that are prices, in order. */
  function Rows(trs: seq<Node>, read: Reader): seq<Row> {
    if trs == [] then []
    else
      var n := |trs| - 1;
      Rows(trs[..n], read) + (match read(trs[n]) case Some(row) => [row] case None => [])
  }

  lemma {:induction false} RowsSnoc(trs: seq<Node>, tr: Node, read: Reader)
    ensures Rows(trs + [tr], read) == Rows(trs, read) + (match read(tr) case Some(row) => [row] case None => [])
  {
    assert (trs + [tr])[..|trs|] == trs;
  }

  lemma {:induction false} RowsConcat(a: seq<Node>, b: seq<Node>, read: Reader)
    ensures Rows(a + b, read) == Rows(a, read) + Rows(b, read)
  {
    if b == [] {
      assert a + b == a;
    } else {
      var init, last := b[..|b| - 1], b[|b| - 1];
      RowsConcat(a, init, read);
      assert a + b == (a + init) + [last] && b == init + [last];
      RowsSnoc(a + init, last, read);
      RowsSnoc(init, last, read);
    }
  }

  /** The lines of the given table bodies, in order. */
  function Lines(bodies: seq<Node>): seq<Node> {
    if bodies == [] then [] else Lines(bodies[..|bodies| - 1]) + Kids(bodies[|bodies| - 1], Tag("tr"))
  }

  function BodyLines(table: Node): seq<Node> {
    Lines(Kids(table, Tag("tbody")))
  }

  function ReaderFor(cols: Layout): Reader {
    tr => RowOf(tr, cols)
  }

  function TableOf(table: Node, keywords: Keywords): Table
    requires table.Node?
  {
    var (title, cols) := Head(table, keywords);
    Table(title, Rows(BodyLines(table), ReaderFor(cols)))
  }

  method ParseRows(trs: seq<Node>, cols: Layout, ghost read: Reader, rows: seq<Row>) returns (more: seq<Row>)
    requires Reads(read, cols) && forall tr :: tr in trs ==> tr.Node?
    ensures more == rows + Rows(trs, read)
  {
    more := rows;
    for k := 0 to |trs|
      invariant more == rows + Rows(trs[..k], read)
    {
      ghost var soFar := Rows(trs[..k], read);
      assert Rows(trs[..k + 1], read) == soFar + (match read(trs[k]) case Some(row) => [row] case None => []) by {
        RowsSnoc(trs[..k], trs[k], read);
        assert trs[..k + 1] == trs[..k] + [trs[k]];
      }
      var row, ok := ParseRow(trs[k], cols, read);
      assert ok ==> rows + soFar + [row] == rows + (soFar + [row]);
      if ok { more := more + [row]; }
    }
    assert trs[..|trs|] == trs;
  }

  method ParseBodies(bodies: seq<Node>, cols: Layout, ghost read: Reader) returns (rows: seq<Row>)
    requires Reads(read, cols)
    ensures rows == Rows(Lines(bodies), read)
  {
    rows := [];
    for i := 0 to |bodies|
      invariant rows == Rows(Lines(bodies[..i]), read)
    {
      assert bodies[..i + 1][..i] == bodies[..i];
      var trs := Children(bodies[i], Tag("tr"));
      KidsAreNodes(bodies[i], Tag("tr"));
      RowsConcat(Lines(bodies[..i]), trs, read);
      rows := ParseRows(trs, cols, read, rows);
    }
    assert bodies[..|bodies|] == bodies;
  }

  method ParseTable(table: Node) returns (t: Table)
    requires table.Node?
    ensures t == TableOf(table, HEADER_KEYWORDS)
  {
    var title, cols := ParseHead(table);
    var bodies := Children(table, Tag("tbody"));
    var rows := ParseBodies(bodies, cols, ReaderFor(cols));
    return Table(title, rows);
  }

  /** The table reader, as a value. */
  type TableReader = Node -> Table

  function TableParser(): TableReader {
    (node: Node) => if node.Node? then TableOf(node, HEADER_KEYWORDS) else Table("", [])
  }

  ghost predicate ReadsTables(parse: TableReader) {
    forall node: Node {:trigger TableOf(node, HEADER_KEYWORDS)} ::
      node.Node? ==> parse(node) == TableOf(node, HEADER_KEYWORDS)
  }

  method ReadTable(node: Node, ghost parse: TableReader) returns (t: Table)
    requires node.Node? && ReadsTables(parse)
    ensures t == parse(node)
  {
    t := ParseTable(node);
  }

  method ReadTables(nodes: seq<Node>, ghost parse: TableReader) returns (tables: seq<Table>)
    requires ReadsTables(parse) && forall n :: n in nodes ==> n.Node?
    ensures |tables| == |nodes| && forall i :: 0 <= i < |nodes| ==> tables[i] == parse(nodes[i])
  {
    tables := [];
    for i := 0 to |nodes|
      invariant |tables| == i
      invariant forall k :: 0 <= k < i ==> tables[k] == parse(nodes[k])
    {
      var table := ReadTable(nodes[i], parse);
      tables := tables + [table];
    }
  }

  /**
   Every market table of a page, in order and with its caption and rows, empty ones included; None when there
   is none.
   */
  method Tables(root: Node) returns (tables: Option<seq<Table>>)
    requires root.Node?
    ensures var nodes := TopHits(root.firstChild, TagClass("table", MARKET_TABLE_CLASS));
      && (tables == None <==> nodes == [])
      && (tables.Some? ==> |tables.value| == |nodes|)
      && (tables.Some? ==> forall i :: 0 <= i < |nodes| ==> tables.value[i] == TableParser()(nodes[i]))
  {
    var matcher := TagClass("table", MARKET_TABLE_CLASS);
    var nodes := FindAll(root, matcher);
    TopHitsAreNodes(root.firstChild, matcher);
    if |nodes| == 0 { return None; }
    var parsed := ReadTables(nodes, TableParser());
    return Some(parsed);
  }
}
