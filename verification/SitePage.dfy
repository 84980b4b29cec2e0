/**
 A market page as the site renders it, and that reading it gives back the board that was rendered, whatever its
 sections, its listings, its numbers and the script they are written in.
 */
module SitePage {
  import opened Wrappers
  import opened Strings
  import opened Numfmt
  import opened Dom
  import opened Scrape
  import opened Board
  import opened NumberLaws
  import opened Numerals
  import opened DomLaws
  import BoardLaws
  import Output
  import ScrapeLaws
  import SmallPage

  // ----- what is rendered -----

  predicate IsStatus(status: string) {
    status == "" || status == "low" || status == "high"
  }

  datatype Listing = Listing(
    slug: string, title: string, price: Decimal, percent: Decimal, amount: Decimal, status: string,
    low: Decimal, high: Decimal, time: string, link: string)
  {
    predicate Valid() {
      && slug != "" && title != "" && Clean(title) == title
      && price.Valid() && percent.Valid() && amount.Valid() && low.Valid() && high.Valid()
      && IsStatus(status) && Clean(time) == time
    }
  }

  /** A table of the site: its caption, the captions of its six columns, and its listings. */
  datatype Section = Section(caption: string, heads: seq<string>, listings: seq<Listing>) {
    predicate Valid() {
      && Clean(caption) == caption && SiteHeads(heads)
      && forall k :: 0 <= k < |listings| ==> listings[k].Valid()
    }
  }

  function Element(tag: string, attrs: seq<(string, string)>, children: seq<Node>): (n: Node)
    requires AllNodes(children)
    ensures n.Node?
  {
    Node(0, Kind.Element, tag, attrs, Chain(children), Nil)
  }

  function TextCell(tag: string, text: string): Node {
    SmallPage.Alone(0, tag, [], SmallPage.TextChild(text))
  }

  /** The direction of a change is the class of the span around it. */
  function MoveCell(text: string, status: string): Node {
    SmallPage.Alone(0, "td", [], SmallPage.Alone(0, "span", [("class", status)], SmallPage.TextChild(text)))
  }

  function LinkCell(link: string): Node {
    SmallPage.Alone(0, "td", [], SmallPage.Alone(0, "a", [("href", link)], Nil))
  }

  /** The data cells of a line with these texts. */
  function Cells(texts: Row): (cells: seq<Node>)
    ensures |cells| == 6 && AllNodes(cells)
  {
    [TextCell("td", texts.price), MoveCell(texts.change, texts.status), TextCell("td", texts.low),
     TextCell("td", texts.high), TextCell("td", texts.time), LinkCell(texts.profile)]
  }

  function LineOf(texts: Row): (n: Node)
    ensures n.Node?
  {
    Element("tr", [("data-market-nameslug", texts.slug)], [TextCell("th", texts.title)] + Cells(texts))
  }

  function LinesOf(lines: seq<Row>): (nodes: seq<Node>)
    ensures |nodes| == |lines| && AllNodes(nodes)
    ensures forall i :: 0 <= i < |lines| ==> nodes[i] == LineOf(lines[i])
  {
    if lines == [] then [] else [LineOf(lines[0])] + LinesOf(lines[1..])
  }

  function HeadsOf(heads: seq<string>): (cells: seq<Node>)
    ensures |cells| == |heads| && AllNodes(cells)
    ensures forall i :: 0 <= i < |cells| ==> cells[i] == TextCell("th", heads[i])
  {
    if heads == [] then [] else [TextCell("th", heads[0])] + HeadsOf(heads[1..])
  }

  function TableOfTexts(caption: string, heads: seq<string>, lines: seq<Row>): (n: Node)
    ensures n.Node?
  {
    var head := SmallPage.Alone(0, "tr", [], Chain(HeadsOf([caption] + heads)));
    var body := SmallPage.Alone(0, "tbody", [], Chain(LinesOf(lines)));
    SmallPage.Alone(0, "table", [("class", "data-table market-table")], Node(0, Kind.Element, "thead", [], head, body))
  }

  /** How the site groups a number. */
  function Shown(x: Decimal): string {
    Output.Group(x.Show())
  }

  function MoveText(l: Listing): string {
    Cell(l.percent.Show(), Shown(l.amount))
  }

  /** The texts of a listing, with its numbers in the script. */
  function TextsOf(l: Listing, script: Script): Row {
    Row(l.slug, l.title, In(script, Shown(l.price)), In(script, MoveText(l)), l.status,
        In(script, Shown(l.low)), In(script, Shown(l.high)), In(script, l.time), l.link)
  }

  function AllTexts(listings: seq<Listing>, script: Script): (lines: seq<Row>)
    ensures |lines| == |listings| && forall i :: 0 <= i < |lines| ==> lines[i] == TextsOf(listings[i], script)
  {
    if listings == [] then [] else [TextsOf(listings[0], script)] + AllTexts(listings[1..], script)
  }

  function TableFor(s: Section, script: Script): (n: Node)
    ensures n.Node?
  {
    TableOfTexts(s.caption, s.heads, AllTexts(s.listings, script))
  }

  /** The text as the reader of a page gets it. */
  function Words(text: string): string {
    Join(Fields(text), " ")
  }

  /** The captions announce the five columns in the site's order, and the last one, above the links, none. */
  predicate SiteHeads(heads: seq<string>) {
    && |heads| == 6
    && ColumnOf(Words(heads[0]), HEADER_KEYWORDS) == Some(Price)
    && ColumnOf(Words(heads[1]), HEADER_KEYWORDS) == Some(Change_)
    && ColumnOf(Words(heads[2]), HEADER_KEYWORDS) == Some(Low)
    && ColumnOf(Words(heads[3]), HEADER_KEYWORDS) == Some(High)
    && ColumnOf(Words(heads[4]), HEADER_KEYWORDS) == Some(Time)
    && ColumnOf(Words(heads[5]), HEADER_KEYWORDS) == None
  }

  // ----- what should be read -----

  function RowFor(l: Listing): Row {
    Row(l.slug, l.title, Shown(l.price), MoveText(l), l.status, Shown(l.low), Shown(l.high), l.time, l.link)
  }

  function Priced(x: Decimal): Amount
    requires x.Valid()
  {
    Amount(Shown(x), x.Real())
  }

  function ItemFor(l: Listing, m: Market, caption: string, baseURL: string): Item
    requires l.Valid()
  {
    Item(l.slug, l.title, m, caption, Priced(l.price), Priced(l.low), Priced(l.high),
         Move(if l.status == "low" then Fell else if l.status == "high" then Rose else Unknown,
              l.percent.Real(), Priced(l.amount)),
         l.time, AbsoluteURL(baseURL, l.link))
  }

  // ----- the text of a cell -----

  lemma {:induction false} DigitsOfSpace(c: char)
    requires IsSpace(c)
    ensures Digits([c]) == [c]
  {
    SpaceIsPlain(c);
    DigitsOfPlain([c]);
  }

  lemma {:induction false} SpaceIsPlain(c: char)
    requires IsSpace(c)
    ensures Plain(c)
  {
    SpaceIsElsewhere(c);
    PlainElsewhere(c);
  }

  lemma {:induction false} SpaceIsElsewhere(c: char)
    requires IsSpace(c)
    ensures c < '\U{0600}' || '\U{0700}' < c < '\U{200B}' || '\U{200F}' < c < '\U{FEFF}'
  {
    SpaceRunes(c);
  }

  /** Neither a digit of another script nor an invisible rune. */
  lemma {:induction false} PlainElsewhere(c: char)
    requires c < '\U{0600}' || '\U{0700}' < c < '\U{200B}' || '\U{200F}' < c < '\U{FEFF}'
    ensures Plain(c)
  {
  }

  lemma {:induction false} FieldsOfDigits(w: string, rest: string)
    requires rest == "" || IsSpace(rest[0])
    ensures Fields(Digits(w + rest)) == Fields(Digits(w)) + Fields(Digits(rest))
  {
    DigitsConcat(w, rest);
    if rest == "" {
      assert Digits(rest) == "";
    } else {
      StartsAlike(rest);
    }
    FieldsApart(Digits(w), Digits(rest));
  }

  lemma {:induction false} StartsAlike(rest: string)
    requires rest != "" && IsSpace(rest[0])
    ensures Digits(rest) != "" && Digits(rest)[0] == rest[0]
  {
    var first := [rest[0]];
    assert Digits(rest) == Digits(first) + Digits(rest[1..]) by {
      assert rest == first + rest[1..];
      DigitsConcat(first, rest[1..]);
    }
    DigitsOfSpace(rest[0]);
  }

  lemma {:induction false} FieldsOfSpaced(c: char, rest: string)
    requires IsSpace(c)
    ensures Fields(Digits([c] + rest)) == Fields(Digits(rest))
  {
    DigitsOfSpace(c);
    DigitsConcat([c], rest);
    assert ([c] + Digits(rest))[1..] == Digits(rest);
  }

  /** Collapsing the white space of a text first makes no difference to cleaning it. */
  lemma {:induction false} FieldsOfWords(t: string)
    ensures Fields(Digits(Words(t))) == Fields(Digits(t))
    decreases |t|
  {
    if t == "" {
    } else if IsSpace(t[0]) {
      assert Fields(Digits(t)) == Fields(Digits(t[1..])) by {
        assert t == [t[0]] + t[1..];
        FieldsOfSpaced(t[0], t[1..]);
      }
      FieldsOfWords(t[1..]);
    } else {
      var n := WordLength(t);
      var w, rest := t[..n], t[n..];
      assert Fields(Digits(t)) == Fields(Digits(w)) + Fields(Digits(rest)) by {
        assert t == w + rest;
        FieldsOfDigits(w, rest);
      }
      assert Fields(Digits(Words(t))) == Fields(Digits(w)) + Fields(Digits(Words(rest))) by {
        FieldsOfLine(w, Fields(rest));
      }
      FieldsOfWords(rest);
    }
  }

  lemma {:induction false} FieldsOfLine(w: string, ws: seq<string>)
    ensures Fields(Digits(Join([w] + ws, " "))) == Fields(Digits(w)) + Fields(Digits(Join(ws, " ")))
  {
    if ws == [] {
      assert [w] + ws == [w];
      assert Digits("") == "";
    } else {
      var line := Join(ws, " ");
      JoinCons(w, ws, " ");
      VisibleBlank();
      FieldsOfDigits(w, " " + line);
      FieldsOfSpaced(' ', line);
    }
  }

  lemma {:induction false} VisibleBlank()
    ensures IsSpace(' ')
  {
  }

  /** A cell with nothing but a text is cleaned like that text. */
  lemma {:induction false} CellIsText(cell: Node, text: string)
    requires cell.Node? && cell.kind == Kind.Element && cell.firstChild == SmallPage.TextChild(text)
    ensures Text(cell) == Words(text) && Clean(Text(cell)) == Clean(text)
  {
    RawOfChild(text);
    FieldsOfWords(text);
  }

  lemma {:induction false} RawOfChild(text: string)
    ensures RawTexts(SmallPage.TextChild(text)) == text
  {
    var child := SmallPage.TextChild(text);
    assert RawText(child) == text && RawTexts(child.nextSibling) == "";
    assert "" + text + "" + "" == text;
  }

  /** So is a cell with nothing but a span around a text. */
  lemma {:induction false} SpanIsText(cell: Node, text: string)
    requires cell.Node? && cell.kind == Kind.Element && cell.firstChild.Node? && cell.firstChild.kind == Kind.Element
    requires cell.firstChild.nextSibling == Nil && cell.firstChild.firstChild == SmallPage.TextChild(text)
    ensures Clean(Text(cell)) == Clean(text)
  {
    assert RawText(cell) == " " + text + " " by {
      RawOfChild(text);
      assert RawText(cell.firstChild) == text && RawTexts(cell.firstChild.nextSibling) == "";
      assert " " + text + " " + "" == " " + text + " ";
    }
    assert Fields(RawText(cell)) == Fields(text) by {
      assert " " + text + " " == (" " + text) + [' '] + "";
      VisibleBlank();
      FieldsAround(" " + text, ' ', "");
      FieldsSpace(text);
    }
    FieldsOfWords(text);
  }

  // ----- a line -----

  /** Of a chain whose first nodes do not match and whose others do, those others are the matching children. */
  lemma {:induction false} KidsOfChain(n: Node, nodes: seq<Node>, skip: nat, tag: string)
    requires n.Node? && AllNodes(nodes) && n.firstChild == Chain(nodes) && skip <= |nodes|
    requires forall i :: 0 <= i < skip ==> !Hit(nodes[i], Tag(tag))
    requires forall i :: skip <= i < |nodes| ==> Hit(nodes[i], Tag(tag))
    ensures var kids := Kids(n, Tag(tag));
      |kids| == |nodes| - skip && forall i :: 0 <= i < |kids| ==> Content(kids[i]) == Content(nodes[skip + i])
  {
    var s := Siblings(n.firstChild);
    SiblingsOfChain(nodes);
    forall i | 0 <= i < |s|
      ensures Hit(s[i], Tag(tag)) == Hit(nodes[i], Tag(tag))
    {
      assert Content(s[i]) == Content(nodes[i]) && nodes[i] in nodes;
      SiblingsFollow(n.firstChild);
      assert s[i] in s;
    }
    HitsAreSelected(s, Tag(tag));
    SelectSuffix(s, x => Hit(x, Tag(tag)), skip);
  }

  lemma {:induction false} SelectSuffix(s: seq<Node>, p: Node -> bool, skip: nat)
    requires skip <= |s| && (forall i :: 0 <= i < skip ==> !p(s[i])) && (forall i :: skip <= i < |s| ==> p(s[i]))
    ensures Select(s, p) == s[skip..]
  {
    if s == [] {
    } else if skip > 0 {
      SelectSuffix(s[1..], p, skip - 1);
    } else {
      SelectSuffix(s[1..], p, 0);
      assert s == [s[0]] + s[1..];
    }
  }

  lemma {:induction false} StatusOfSpan(cell: Node, status: string, child: Node)
    requires IsStatus(status) && cell.Node? && child.Node? && child.nextSibling == Nil
    requires cell.firstChild == SmallPage.Alone(0, "span", [("class", status)], child)
    ensures Status(cell) == status
  {
    var span := cell.firstChild;
    assert span.Node? && Hit(span, Tag("span")) && span.nextSibling == Nil;
    assert TopHits(span.nextSibling, Tag("span")) == [];
    assert TopHits(span, Tag("span")) == [span] + [];
    assert Attr(span, "class") == status;
    OneSpan(span, status);
  }

  lemma {:induction false} OneSpan(span: Node, status: string)
    requires IsStatus(status) && span.Node? && Attr(span, "class") == status
    ensures FirstStatus(AllClasses([span])) == status
  {
    FieldsOfStatus(status);
    assert [span][1..] == [] && AllClasses([]) == [];
    assert AllClasses([span]) == Classes(span) + [];
    if status != "" { assert FirstStatus([status]) == status; }
  }

  lemma {:induction false} FieldsOfStatus(status: string)
    requires IsStatus(status)
    ensures Fields(status) == if status == "" then [] else [status]
  {
    if status != "" {
      forall i | 0 <= i < |status|
        ensures !IsSpace(status[i])
      {
        VisibleIsNotSpace(status[i]);
      }
      FieldsOfJoin([status]);
    }
  }

  /** What the cells of a line say. */
  predicate Say(cells: seq<Node>, price: string, change: string, status: string, low: string, high: string,
                time: string, link: string)
  {
    && |cells| == 6
    && CellText(cells[0]) == price && CellText(cells[1]) == change && Status(cells[1]) == status
    && CellText(cells[2]) == low && CellText(cells[3]) == high && CellText(cells[4]) == time
    && ProfileOf(cells[5]) == link
  }

  /** The cells of a line, read one by one. */
  lemma {:induction false} CellsAreRead(texts: Row)
    requires IsStatus(texts.status)
    ensures Say(Cells(texts), Clean(texts.price), Clean(texts.change), texts.status,
                Clean(texts.low), Clean(texts.high), Clean(texts.time), texts.profile)
  {
    TextIsRead(texts.price);
    MoveIsRead(texts.change, texts.status);
    TextIsRead(texts.low);
    TextIsRead(texts.high);
    TextIsRead(texts.time);
    LinkIsRead(texts.profile);
    SixSay(Cells(texts), TextCell("td", texts.price), MoveCell(texts.change, texts.status), TextCell("td", texts.low),
           TextCell("td", texts.high), TextCell("td", texts.time), LinkCell(texts.profile));
  }

  lemma {:induction false} SixSay(cells: seq<Node>, a: Node, b: Node, c: Node, d: Node, e: Node, f: Node)
    requires cells == [a, b, c, d, e, f]
    ensures Say(cells, CellText(a), CellText(b), Status(b), CellText(c), CellText(d), CellText(e), ProfileOf(f))
  {
  }

  lemma {:induction false} TextIsRead(text: string)
    ensures CellText(TextCell("td", text)) == Clean(text)
  {
    CellIsText(TextCell("td", text), text);
  }

  lemma {:induction false} MoveIsRead(text: string, status: string)
    requires IsStatus(status)
    ensures CellText(MoveCell(text, status)) == Clean(text) && Status(MoveCell(text, status)) == status
  {
    SpanIsText(MoveCell(text, status), text);
    StatusOfSpan(MoveCell(text, status), status, SmallPage.TextChild(text));
  }

  lemma {:induction false} LinkIsRead(link: string)
    ensures ProfileOf(LinkCell(link)) == link
  {
    SmallPage.FoundFirst(LinkCell(link), "a");
  }

  /** What should be read of these texts. */
  function Cleaned(texts: Row): Row {
    Row(texts.slug, Clean(texts.title), Clean(texts.price), Clean(texts.change), texts.status,
        Clean(texts.low), Clean(texts.high), Clean(texts.time), texts.profile)
  }

  predicate IsPrice(texts: Row) {
    texts.slug != "" && Clean(texts.title) != "" && Clean(texts.price) != "" && IsStatus(texts.status)
  }

  /** A line of the site is read as its texts, cleaned. */
  lemma {:induction false} LineIsRead(tr: Node, texts: Row)
    requires IsPrice(texts) && tr.Node? && Content(tr) == Content(LineOf(texts))
    ensures RowOf(tr, Layout(0, 1, 2, 3, 4)) == Some(Cleaned(texts))
  {
    var title, cells := TextCell("th", texts.title), Cells(texts);
    var th, tds := Found(tr, Tag("th")), Kids(tr, Tag("td"));
    CellsOfLine(tr, title, cells);
    CellsAreRead(texts);
    CellIsText(title, texts.title);
    LineGivesRow(tr, th, tds, title, cells, texts);
  }

  lemma {:induction false} CellsOfLine(tr: Node, title: Node, cells: seq<Node>)
    requires tr.Node? && title.Node? && AllNodes(cells) && tr.firstChild == Chain([title] + cells)
    requires title.kind == Kind.Element && title.data == "th" && title.nextSibling == Nil
    requires forall c :: c in cells ==> c.kind == Kind.Element && c.data == "td" && c.nextSibling == Nil
    ensures Found(tr, Tag("th")).Node? && Content(Found(tr, Tag("th"))) == title
    ensures var tds := Kids(tr, Tag("td"));
      |tds| == |cells| && forall i :: 0 <= i < |tds| ==> Content(tds[i]) == cells[i]
  {
    SmallPage.FoundFirst(tr, "th");
    var nodes := [title] + cells;
    assert forall i :: 1 <= i < |nodes| ==> nodes[i] == cells[i - 1] && cells[i - 1] in cells;
    KidsOfChain(tr, nodes, 1, "td");
    assert forall i :: 0 <= i < |cells| ==> Content(nodes[1 + i]) == cells[i];
  }

  lemma {:induction false} LineGivesRow(
      tr: Node, th: Node, tds: seq<Node>, title: Node, cells: seq<Node>, texts: Row)
    requires IsPrice(texts) && tr.Node? && tr.attrs == [("data-market-nameslug", texts.slug)]
    requires th.Node? && Content(th) == title && CellText(title) == Clean(texts.title)
    requires |cells| == 6 && |tds| == 6 && forall i :: 0 <= i < 6 ==> Content(tds[i]) == cells[i]
    requires Say(cells, Clean(texts.price), Clean(texts.change), texts.status, Clean(texts.low), Clean(texts.high),
                 Clean(texts.time), texts.profile)
    ensures RowFrom(tr, th, tds, Layout(0, 1, 2, 3, 4)) == Some(Cleaned(texts))
  {
    var line := LineFrom(tr, th, tds, Layout(0, 1, 2, 3, 4));
    assert line == Line(tr.attrs, title, cells[0], cells[1], cells[2], cells[3], cells[4], cells[5]);
    assert AttrIn(line.attrs, "data-market-nameslug") == texts.slug;
    assert Draft(line) == Cleaned(texts);
  }

  // ----- a table -----

  lemma {:induction false} LayoutOfHeads(captions: seq<string>, heads: seq<string>)
    requires SiteHeads(heads) && |captions| == 6 && forall i :: 0 <= i < 6 ==> captions[i] == Words(heads[i])
    ensures Scan(captions, HEADER_KEYWORDS) == (Layout(0, 1, 2, 3, 4), 5)
  {
    ScrapeLaws.LayoutInOrder(captions, HEADER_KEYWORDS, [Price, Change_, Low, High, Time]);
    ScrapeLaws.InOrder(Scan(captions, HEADER_KEYWORDS).0, [Price, Change_, Low, High, Time]);
  }

  lemma {:induction false} HeadIsRead(table: Node, caption: string, heads: seq<string>)
    requires table.Node? && SiteHeads(heads) && table.firstChild.Node?
    requires table.firstChild.kind == Kind.Element && table.firstChild.data == "thead"
    requires table.firstChild.firstChild == SmallPage.Alone(0, "tr", [], Chain(HeadsOf([caption] + heads)))
    ensures Head(table, HEADER_KEYWORDS) == (Clean(caption), Layout(0, 1, 2, 3, 4))
  {
    var cells := HeadCells(table);
    HeadCellsAre(table, [caption] + heads);
    LayoutOfHeads(Texts(cells[1..]), heads);
    FieldsOfWords(caption);
  }

  lemma {:induction false} HeadCellsAre(table: Node, captions: seq<string>)
    requires table.Node? && table.firstChild.Node?
    requires table.firstChild.kind == Kind.Element && table.firstChild.data == "thead"
    requires table.firstChild.firstChild == SmallPage.Alone(0, "tr", [], Chain(HeadsOf(captions)))
    ensures |HeadCells(table)| == |captions|
    ensures forall i :: 0 <= i < |captions| ==> Text(HeadCells(table)[i]) == Words(captions[i])
  {
    var head, nodes := table.firstChild, HeadsOf(captions);
    SmallPage.FoundFirst(table, "thead");
    SmallPage.FoundFirst(head, "tr");
    KidsOfChain(head.firstChild, nodes, 0, "th");
    forall i | 0 <= i < |captions|
      ensures Text(HeadCells(table)[i]) == Words(captions[i])
    {
      assert Content(HeadCells(table)[i]) == nodes[i];
      CellIsText(nodes[i], captions[i]);
    }
  }

  lemma {:induction false} RowsOfLines(trs: seq<Node>, rows: seq<Row>, read: Reader)
    requires |trs| == |rows| && forall i :: 0 <= i < |trs| ==> read(trs[i]) == Some(rows[i])
    ensures Rows(trs, read) == rows
  {
    if trs != [] {
      var n := |trs| - 1;
      RowsOfLines(trs[..n], rows[..n], read);
      assert rows == rows[..n] + [rows[n]];
    }
  }

  function AllCleaned(lines: seq<Row>): (rows: seq<Row>)
    ensures |rows| == |lines| && forall i :: 0 <= i < |rows| ==> rows[i] == Cleaned(lines[i])
  {
    if lines == [] then [] else [Cleaned(lines[0])] + AllCleaned(lines[1..])
  }

  /** A table of the site is read as its caption and the texts of its lines, cleaned, line by line. */
  lemma {:induction false} TableIsRead(table: Node, caption: string, heads: seq<string>, lines: seq<Row>)
    requires SiteHeads(heads) && forall i :: 0 <= i < |lines| ==> IsPrice(lines[i])
    requires table.Node? && Content(table) == Content(TableOfTexts(caption, heads, lines))
    ensures TableOf(table, HEADER_KEYWORDS) == Table(Clean(caption), AllCleaned(lines))
  {
    TableHas(table, caption, heads, lines);
    HeadIsRead(table, caption, heads);
    LinesOfTable(table, table.firstChild.nextSibling, LinesOf(lines));
    LinesAreRead(BodyLines(table), lines);
    RowsOfLines(BodyLines(table), AllCleaned(lines), ReaderFor(Layout(0, 1, 2, 3, 4)));
  }

  lemma {:induction false} TableHas(table: Node, caption: string, heads: seq<string>, lines: seq<Row>)
    requires table.Node? && Content(table) == Content(TableOfTexts(caption, heads, lines))
    ensures table.firstChild.Node? && table.firstChild.kind == Kind.Element && table.firstChild.data == "thead"
    ensures table.firstChild.firstChild == SmallPage.Alone(0, "tr", [], Chain(HeadsOf([caption] + heads)))
    ensures table.firstChild.nextSibling == SmallPage.Alone(0, "tbody", [], Chain(LinesOf(lines)))
  {
  }

  lemma {:induction false} LinesOfTable(table: Node, body: Node, nodes: seq<Node>)
    requires table.Node? && table.firstChild.Node? && table.firstChild.data == "thead"
    requires table.firstChild.nextSibling == body && body.Node? && body.nextSibling == Nil
    requires body.kind == Kind.Element && body.data == "tbody" && AllNodes(nodes) && body.firstChild == Chain(nodes)
    requires forall n :: n in nodes ==> n.kind == Kind.Element && n.data == "tr"
    ensures |BodyLines(table)| == |nodes| && AllNodes(BodyLines(table))
    ensures forall i :: 0 <= i < |nodes| ==> Content(BodyLines(table)[i]) == Content(nodes[i])
  {
    LinesOfBody(table, body);
    LinesOfChain(body, nodes);
  }

  lemma {:induction false} LinesOfChain(body: Node, nodes: seq<Node>)
    requires body.Node? && AllNodes(nodes) && body.firstChild == Chain(nodes)
    requires forall n :: n in nodes ==> n.kind == Kind.Element && n.data == "tr"
    ensures |Kids(body, Tag("tr"))| == |nodes| && AllNodes(Kids(body, Tag("tr")))
    ensures forall i :: 0 <= i < |nodes| ==> Content(Kids(body, Tag("tr"))[i]) == Content(nodes[i])
  {
    KidsOfChain(body, nodes, 0, "tr");
    KidsAreNodes(body, Tag("tr"));
  }

  lemma {:induction false} LinesOfBody(table: Node, body: Node)
    requires table.Node? && table.firstChild.Node? && table.firstChild.data == "thead"
    requires table.firstChild.nextSibling == body && body.Node? && body.nextSibling == Nil
    requires body.kind == Kind.Element && body.data == "tbody"
    ensures BodyLines(table) == Kids(body, Tag("tr"))
  {
    SmallPage.SecondKid(table, Tag("tbody"));
    ScrapeLaws.LinesSnoc([], body);
    assert [] + [body] == [body];
  }

  lemma {:induction false} LinesAreRead(trs: seq<Node>, lines: seq<Row>)
    requires |trs| == |lines| && AllNodes(trs) && forall i :: 0 <= i < |lines| ==> IsPrice(lines[i])
    requires forall i :: 0 <= i < |trs| ==> Content(trs[i]) == Content(LineOf(lines[i]))
    ensures forall i :: 0 <= i < |trs| ==> ReaderFor(Layout(0, 1, 2, 3, 4))(trs[i]) == Some(Cleaned(lines[i]))
  {
    forall i | 0 <= i < |trs|
      ensures ReaderFor(Layout(0, 1, 2, 3, 4))(trs[i]) == Some(Cleaned(lines[i]))
    {
      assert trs[i] in trs;
      LineIsRead(trs[i], lines[i]);
    }
  }

  // ----- the whole page -----

  lemma {:induction false} ShownIsClean(script: Script, x: Decimal)
    requires x.Valid()
    ensures Clean(In(script, Shown(x))) == Shown(x) && Shown(x) != ""
  {
    GroupIsPrinted(x);
    PrintedIsPlain(Shown(x));
    SameInScript(script, Shown(x));
    WordIsNormal(Shown(x));
    CleanFixes(Shown(x));
  }

  lemma {:induction false} MoveIsClean(script: Script, l: Listing)
    requires l.Valid()
    ensures Clean(In(script, MoveText(l))) == MoveText(l)
  {
    ShowIsPrinted(l.percent);
    GroupIsPrinted(l.amount);
    CellIsPlain(l.percent.Show(), Shown(l.amount));
    SameInScript(script, MoveText(l));
    CellIsNormal(l.percent.Show(), Shown(l.amount));
  }

  lemma {:induction false} ListingIsRead(l: Listing, script: Script)
    requires l.Valid()
    ensures IsPrice(TextsOf(l, script)) && Cleaned(TextsOf(l, script)) == RowFor(l)
  {
    ShownIsClean(script, l.price);
    MoveIsClean(script, l);
    ShownIsClean(script, l.low);
    ShownIsClean(script, l.high);
    CleanIsNormal(l.time);
    SameInScript(script, l.time);
  }

  lemma {:induction false} ShownIsAmount(x: Decimal)
    requires x.Valid()
    ensures AmountOf(Shown(x)) == Priced(x)
  {
    PrintThenParse(x);
    GroupIsPrinted(x);
    PrintedIsPlain(Shown(x));
    TrimOneBlank(Shown(x));
  }

  lemma {:induction false} ItemIsRead(l: Listing, m: Market, caption: string, baseURL: string)
    requires l.Valid()
    ensures ConversionFor(m, baseURL)(caption, RowFor(l)) == ItemFor(l, m, caption, baseURL)
  {
    ShownIsAmount(l.price);
    ShownIsAmount(l.low);
    ShownIsAmount(l.high);
    ShownIsAmount(l.amount);
    MoveIsSplit(l);
    ItemOfTexts(RowFor(l), m, caption, baseURL, l.percent.Real(), Shown(l.amount), Priced(l.price), Priced(l.low),
                Priced(l.high), Priced(l.amount));
  }

  lemma {:induction false} MoveIsSplit(l: Listing)
    requires l.Valid()
    ensures Change(MoveText(l)) == (l.percent.Real(), Shown(l.amount))
  {
    ChangeRoundTrip(l.percent, l.amount);
  }

  lemma {:induction false} ItemOfTexts(
      row: Row, m: Market, caption: string, baseURL: string, percent: real, text: string, price: Amount, low: Amount,
      high: Amount, amount: Amount)
    requires Change(row.change) == (percent, text) && AmountOf(text) == amount && IsStatus(row.status)
    requires AmountOf(row.price) == price && AmountOf(row.low) == low && AmountOf(row.high) == high
    ensures ConversionFor(m, baseURL)(caption, row) ==
      Item(row.slug, row.title, m, caption, price, low, high,
           Move(if row.status == "low" then Fell else if row.status == "high" then Rose else Unknown, percent, amount),
           row.time, AbsoluteURL(baseURL, row.profile))
  {
  }

  function ItemsFor(s: Section, m: Market, baseURL: string): (items: seq<Item>)
    requires s.Valid()
    ensures |items| == |s.listings|
    ensures forall k :: 0 <= k < |items| ==> items[k] == ItemFor(s.listings[k], m, s.caption, baseURL)
  {
    seq(|s.listings|, k requires 0 <= k < |s.listings| => ItemFor(s.listings[k], m, s.caption, baseURL))
  }

  function TablesFor(sections: seq<Section>, script: Script): (nodes: seq<Node>)
    ensures |nodes| == |sections| && AllNodes(nodes)
    ensures forall i :: 0 <= i < |nodes| ==> nodes[i] == TableFor(sections[i], script)
  {
    if sections == [] then [] else [TableFor(sections[0], script)] + TablesFor(sections[1..], script)
  }

  /** The page with these sections, one below the other. */
  function PageFor(sections: seq<Section>, script: Script): (n: Node)
    ensures n.Node?
  {
    SmallPage.Alone(0, "body", [], Chain(TablesFor(sections, script)))
  }

  lemma {:induction false} SitesOwnClass()
    ensures Fields("data-table market-table") == ["data-table", "market-table"]
  {
    var words := ["data-table", "market-table"];
    forall w | w in words
      ensures IsWord(w)
    {
      forall i | 0 <= i < |w|
        ensures !IsSpace(w[i])
      {
        VisibleIsNotSpace(w[i]);
      }
    }
    FieldsOfJoin(words);
    assert Join(words, " ") == "data-table market-table" by { assert words[1..] == ["market-table"]; }
  }

  lemma {:induction false} TopOfChain(nodes: seq<Node>, m: Matcher)
    requires AllNodes(nodes) && forall n, next :: n in nodes ==> Hit(n.(nextSibling := next), m)
    ensures TopHits(Chain(nodes), m) == Siblings(Chain(nodes))
  {
    if nodes != [] {
      assert nodes[0] in nodes && forall n :: n in nodes[1..] ==> n in nodes;
      TopOfChain(nodes[1..], m);
    }
  }

  /** The market tables of the page are those of its sections. */
  lemma {:induction false} TablesAreFound(sections: seq<Section>, script: Script)
    ensures var nodes := TopHits(PageFor(sections, script).firstChild, TagClass("table", MARKET_TABLE_CLASS));
      && |nodes| == |sections| && AllNodes(nodes)
      && forall i :: 0 <= i < |nodes| ==> Content(nodes[i]) == Content(TableFor(sections[i], script))
  {
    var tables, m := TablesFor(sections, script), TagClass("table", MARKET_TABLE_CLASS);
    forall n, next: Node | n in tables
      ensures n.Node? && Hit(n.(nextSibling := next), m)
    {
      var i :| 0 <= i < |tables| && tables[i] == n;
      IsTable(n.(nextSibling := next));
    }
    TopOfChain(tables, m);
    SiblingsOfChain(tables);
    SiblingsFollow(Chain(tables));
  }

  lemma {:induction false} IsTable(n: Node)
    requires n.Node? && n.kind == Kind.Element && n.data == "table" && n.attrs == [("class", "data-table market-table")]
    ensures Hit(n, TagClass("table", MARKET_TABLE_CLASS))
  {
    SitesOwnClass();
    ScrapeLaws.MarketTables(n);
  }

  lemma {:induction false} SectionIsRead(node: Node, s: Section, script: Script)
    requires s.Valid() && node.Node? && Content(node) == Content(TableFor(s, script))
    ensures var t := TableParser()(node);
      && t.title == s.caption && |t.rows| == |s.listings|
      && forall k :: 0 <= k < |t.rows| ==> t.rows[k] == RowFor(s.listings[k])
  {
    var lines := AllTexts(s.listings, script);
    forall k | 0 <= k < |lines|
      ensures IsPrice(lines[k]) && Cleaned(lines[k]) == RowFor(s.listings[k])
    {
      ListingIsRead(s.listings[k], script);
    }
    TableIsRead(node, s.caption, s.heads, lines);
    ParsesTable(node);
  }

  lemma {:induction false} ParsesTable(node: Node)
    requires node.Node?
    ensures TableParser()(node) == TableOf(node, HEADER_KEYWORDS)
  {
  }

  /**
   The board of a page is the one that was rendered: to each section with listings there is the category under its
   caption, and to each listing its item, with every number and every text in its place.
   */
  lemma {:induction false} BoardComesBack(
      sections: seq<Section>, script: Script, m: Market, baseURL: string,
      tables: seq<Table>, categories: seq<Category>, i: nat)
    requires forall k :: 0 <= k < |sections| ==> sections[k].Valid()
    requires var nodes := TopHits(PageFor(sections, script).firstChild, TagClass("table", MARKET_TABLE_CLASS));
      |tables| == |nodes| && forall k :: 0 <= k < |tables| ==> tables[k] == TableParser()(nodes[k])
    requires CategoriesOf(categories, tables, ConversionFor(m, baseURL))
    requires i < |sections| && sections[i].listings != []
    ensures |tables| == |sections| && |categories| == BoardLaws.Filled(tables)
    ensures var place := BoardLaws.Filled(tables[..i]);
      place < |categories| && categories[place] == Category(sections[i].caption, ItemsFor(sections[i], m, baseURL))
  {
    var nodes := TopHits(PageFor(sections, script).firstChild, TagClass("table", MARKET_TABLE_CLASS));
    TablesAreFound(sections, script);
    assert nodes[i] in nodes;
    SectionIsRead(nodes[i], sections[i], script);
    BoardLaws.NoRowIsLost(categories, tables, m, baseURL, i);
    CategoryComesBack(categories[BoardLaws.Filled(tables[..i])], tables[i], sections[i], m, baseURL);
  }

  lemma {:induction false} CategoryComesBack(c: Category, t: Table, s: Section, m: Market, baseURL: string)
    requires s.Valid() && t.title == s.caption && |t.rows| == |s.listings|
    requires forall k :: 0 <= k < |t.rows| ==> t.rows[k] == RowFor(s.listings[k])
    requires CategoryOf(c, t, ConversionFor(m, baseURL))
    ensures c == Category(s.caption, ItemsFor(s, m, baseURL))
  {
    forall k | 0 <= k < |c.items|
      ensures c.items[k] == ItemsFor(s, m, baseURL)[k]
    {
      ItemIsRead(s.listings[k], m, s.caption, baseURL);
    }
    assert c.items == ItemsFor(s, m, baseURL);
  }

  // ----- the site's own captions -----

  lemma {:induction false} PersianIsOneWord(s: string)
    requires s != "" && forall c :: c in s ==> '\U{0600}' <= c <= '\U{06FF}'
    ensures IsWord(s) && Words(s) == s
  {
    forall i | 0 <= i < |s|
      ensures !IsSpace(s[i])
    {
      assert s[i] in s;
      VisibleIsNotSpace(s[i]);
    }
    FieldsOfJoin([s]);
  }

  lemma {:induction false} TwoWords(a: string, b: string)
    requires IsWord(a) && IsWord(b)
    ensures Words(a + " " + b) == a + " " + b
  {
    FieldsOfJoin([a, b]);
    assert [a, b][1..] == [b];
    assert Join([a, b], " ") == a + " " + b;
  }

  lemma {:induction false} PriceIsTwoWords()
    ensures Words(ScrapeLaws.PRICE) == ScrapeLaws.PRICE
  {
    PersianIsOneWord("قیمت");
    PersianIsOneWord("زنده");
    TwoWords("قیمت", "زنده");
    assert ScrapeLaws.PRICE == "قیمت" + " " + "زنده";
  }

  lemma {:induction false} OthersAreOneWord(word: string)
    requires word in [ScrapeLaws.CHANGE, ScrapeLaws.LOWEST, ScrapeLaws.HIGHEST, ScrapeLaws.TIME]
    ensures Words(word) == word
  {
    PersianIsOneWord(word);
  }

  lemma {:induction false} AnnouncesInOrder(a: string, b: string, c: string, d: string, e: string)
    requires Words(a) == a && Words(b) == b && Words(c) == c && Words(d) == d && Words(e) == e
    requires ColumnOf(a, HEADER_KEYWORDS) == Some(Price) && ColumnOf(b, HEADER_KEYWORDS) == Some(Change_)
    requires ColumnOf(c, HEADER_KEYWORDS) == Some(Low) && ColumnOf(d, HEADER_KEYWORDS) == Some(High)
    requires ColumnOf(e, HEADER_KEYWORDS) == Some(Time) && ColumnOf("", HEADER_KEYWORDS) == None
    ensures SiteHeads([a, b, c, d, e, ""])
  {
  }

  /** The captions the site uses are such captions. */
  lemma {:induction false} OwnHeads()
    ensures SiteHeads([ScrapeLaws.PRICE, ScrapeLaws.CHANGE, ScrapeLaws.LOWEST, ScrapeLaws.HIGHEST, ScrapeLaws.TIME, ""])
  {
    ScrapeLaws.WordsAnnounce();
    PriceIsTwoWords();
    OthersAreOneWord(ScrapeLaws.CHANGE);
    OthersAreOneWord(ScrapeLaws.LOWEST);
    OthersAreOneWord(ScrapeLaws.HIGHEST);
    OthersAreOneWord(ScrapeLaws.TIME);
    AnnouncesInOrder(ScrapeLaws.PRICE, ScrapeLaws.CHANGE, ScrapeLaws.LOWEST, ScrapeLaws.HIGHEST, ScrapeLaws.TIME);
  }
}
