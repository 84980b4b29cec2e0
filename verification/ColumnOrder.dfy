/**
 Moving the data columns of a table, alike in its header and in its rows, changes no parsed row:
 the columns are found by their captions.
 */
module ColumnOrder {
  import opened Wrappers
  import opened Numfmt
  import opened Dom
  import opened Scrape

  /** A rearrangement of columns: where each goes, and where each comes from. */
  datatype Rearrangement = Rearrangement(to: int -> int, from: int -> int) {
    ghost predicate Valid() {
      && (forall i :: 0 <= i ==> 0 <= to(i) && from(to(i)) == i)
      && (forall i :: 0 <= i ==> 0 <= from(i) && to(from(i)) == i)
    }

    /** The first n columns stay the first n. */
    ghost predicate Keeps(n: int) {
      forall i :: 0 <= i ==> 0 <= to(i) && (i < n <==> to(i) < n)
    }

    /** The new place of column i; a column that was not found stays not found. */
    function Place(i: int): int {
      if i < 0 then i else to(i)
    }
  }

  ghost predicate Moved(cells: seq<Node>, cells': seq<Node>, p: Rearrangement) {
    && |cells'| == |cells|
    && p.Keeps(|cells|)
    && (forall i :: 0 <= i < |cells| ==> Content(cells'[p.to(i)]) == Content(cells[i]))
  }

  ghost predicate MovedHead(table: Node, table': Node, p: Rearrangement)
    requires table.Node? && table'.Node?
  {
    var cells, cells' := HeadCells(table), HeadCells(table');
    && cells != [] && cells' != []
    && Content(cells'[0]) == Content(cells[0])
    && Moved(cells[1..], cells'[1..], p)
  }

  /** The same line with its data cells rearranged, the last one, which holds the link, left in place. */
  ghost predicate MovedLine(tr: Node, tr': Node, p: Rearrangement) {
    && tr.Node? && tr'.Node?
    && tr'.attrs == tr.attrs
    && Content(Found(tr', Tag("th"))) == Content(Found(tr, Tag("th")))
    && var cells, cells' := Kids(tr, Tag("td")), Kids(tr', Tag("td"));
    && Moved(cells, cells', p)
    && (cells != [] ==> p.to(|cells| - 1) == |cells| - 1)
  }

  /** No column is announced by two captions. */
  ghost predicate Unambiguous(captions: seq<string>, keywords: Keywords) {
    forall i, j :: 0 <= i < j < |captions| ==>
      ColumnOf(captions[i], keywords) == None || ColumnOf(captions[i], keywords) != ColumnOf(captions[j], keywords)
  }

  // ----- the layout -----

  function One(i: int): nat {
    if i >= 0 then 1 else 0
  }

  /** How many columns the layout knows. */
  function Known(l: Layout): nat {
    One(l.price) + One(l.change) + One(l.low) + One(l.high) + One(l.time)
  }

  /** Column c stands where its caption is, and nowhere if it has none. */
  ghost predicate Placed(captions: seq<string>, keywords: Keywords, l: Layout, c: Column) {
    if At(l, c) < 0 then
      At(l, c) == -1 && forall i :: 0 <= i < |captions| ==> ColumnOf(captions[i], keywords) != Some(c)
    else At(l, c) < |captions| && ColumnOf(captions[At(l, c)], keywords) == Some(c)
  }

  lemma {:induction false} SetAt(l: Layout, c: Column, i: int, d: Column)
    ensures At(Set(l, c, i), d) == if d == c then i else At(l, d)
  {
  }

  lemma {:induction false} KnownSet(l: Layout, c: Column, i: nat)
    requires At(l, c) < 0
    ensures Known(Set(l, c, i)) == Known(l) + 1
  {
  }

  lemma {:induction false} ScanPlaces(captions: seq<string>, keywords: Keywords)
    requires Unambiguous(captions, keywords)
    ensures var (l, matched) := Scan(captions, keywords);
      matched == Known(l) && forall c :: Placed(captions, keywords, l, c)
  {
    if captions != [] {
      var n := |captions| - 1;
      var init := captions[..n];
      assert forall i :: 0 <= i < n ==> init[i] == captions[i];
      ScanPlaces(init, keywords);
      var (l, matched) := Scan(init, keywords);
      var found := ColumnOf(captions[n], keywords);
      if found.Some? {
        var c := found.value;
        assert Placed(init, keywords, l, c);
        assert At(l, c) < 0;
        KnownSet(l, c, n);
        forall d
          ensures Placed(captions, keywords, Set(l, c, n), d)
        {
          assert Placed(init, keywords, l, d);
          SetAt(l, c, n, d);
        }
      } else {
        forall d
          ensures Placed(captions, keywords, l, d)
        {
          assert Placed(init, keywords, l, d);
        }
      }
    }
  }

  ghost predicate MovedLayout(l: Layout, l': Layout, p: Rearrangement) {
    forall c :: At(l', c) == p.Place(At(l, c))
  }

  ghost predicate MovedCaptions(captions: seq<string>, captions': seq<string>, p: Rearrangement) {
    && |captions'| == |captions|
    && p.Keeps(|captions|)
    && forall i :: 0 <= i < |captions| ==> captions'[p.to(i)] == captions[i]
  }

  lemma {:induction false} UnambiguousMoved(
      captions: seq<string>, captions': seq<string>, p: Rearrangement, keywords: Keywords)
    requires p.Valid() && MovedCaptions(captions, captions', p) && Unambiguous(captions, keywords)
    ensures Unambiguous(captions', keywords)
  {
    forall i, j | 0 <= i < j < |captions'|
      ensures ColumnOf(captions'[i], keywords) == None
        || ColumnOf(captions'[i], keywords) != ColumnOf(captions'[j], keywords)
    {
      var a, b := p.from(i), p.from(j);
      assert p.to(a) == i && p.to(b) == j;
      assert captions'[i] == captions[a] && captions'[j] == captions[b];
      assert a != b;
    }
  }

  lemma {:induction false} ColumnMoved(
      captions: seq<string>, captions': seq<string>, p: Rearrangement, keywords: Keywords,
      l: Layout, l': Layout, c: Column)
    requires p.Valid() && MovedCaptions(captions, captions', p) && Unambiguous(captions, keywords)
    requires Placed(captions, keywords, l, c) && Placed(captions', keywords, l', c)
    ensures At(l', c) == p.Place(At(l, c))
  {
    var i, j := At(l, c), At(l', c);
    if i >= 0 {
      assert captions'[p.to(i)] == captions[i];
    }
    if j >= 0 {
      var k := p.from(j);
      assert p.to(k) == j;
      assert captions'[j] == captions[k];
    }
  }

  lemma {:induction false} ScanMoved(
      captions: seq<string>, captions': seq<string>, p: Rearrangement, keywords: Keywords)
    requires p.Valid() && MovedCaptions(captions, captions', p) && Unambiguous(captions, keywords)
    ensures MovedLayout(Scan(captions, keywords).0, Scan(captions', keywords).0, p)
    ensures Scan(captions', keywords).1 == Scan(captions, keywords).1
  {
    var l, l' := Scan(captions, keywords).0, Scan(captions', keywords).0;
    UnambiguousMoved(captions, captions', p, keywords);
    ScanPlaces(captions, keywords);
    ScanPlaces(captions', keywords);
    forall c
      ensures At(l', c) == p.Place(At(l, c))
    {
      ColumnMoved(captions, captions', p, keywords, l, l', c);
    }
    assert l'.price == At(l', Price) && l'.change == At(l', Change_) && l'.low == At(l', Low);
    assert l'.high == At(l', High) && l'.time == At(l', Time);
  }

  // ----- the rows -----

  lemma {:induction false} SameContent(a: Node, b: Node)
    requires Content(a) == Content(b)
    ensures Text(a) == Text(b)
  {
  }

  lemma {:induction false} CellMoved(cells: seq<Node>, cells': seq<Node>, p: Rearrangement, i: int)
    requires p.Valid() && Moved(cells, cells', p)
    ensures Content(CellAt(cells', p.Place(i))) == Content(CellAt(cells, i))
  {
  }

  /** A line whose cells have moved, read with the layout that has moved alike, is the same row. */
  lemma {:induction false} RowMoved(tr: Node, tr': Node, p: Rearrangement, l: Layout, l': Layout)
    requires p.Valid() && MovedLine(tr, tr', p) && MovedLayout(l, l', p)
    ensures RowOf(tr', l') == RowOf(tr, l)
  {
    var cells, cells' := Kids(tr, Tag("td")), Kids(tr', Tag("td"));
    forall c
      ensures Content(CellAt(cells', At(l', c))) == Content(CellAt(cells, At(l, c)))
    {
      CellMoved(cells, cells', p, At(l, c));
    }
    var th, th' := Found(tr, Tag("th")), Found(tr', Tag("th"));
    LineMoved(tr, tr', th, th', cells, cells', l, l');
  }

  lemma {:induction false} LineMoved(
      tr: Node, tr': Node, th: Node, th': Node, cells: seq<Node>, cells': seq<Node>, l: Layout, l': Layout)
    requires tr.Node? && tr'.Node? && tr'.attrs == tr.attrs && Content(th') == Content(th) && |cells'| == |cells|
    requires cells != [] ==> Content(cells'[|cells| - 1]) == Content(cells[|cells| - 1])
    requires forall c :: Content(CellAt(cells', At(l', c))) == Content(CellAt(cells, At(l, c)))
    ensures LineFrom(tr', th', cells', l') == LineFrom(tr, th, cells, l)
  {
    var line, line' := LineFrom(tr, th, cells, l), LineFrom(tr', th', cells', l');
    assert line'.price == line.price by { assert At(l, Price) == l.price && At(l', Price) == l'.price; }
    assert line'.change == line.change by { assert At(l, Change_) == l.change && At(l', Change_) == l'.change; }
    assert line'.low == line.low by { assert At(l, Low) == l.low && At(l', Low) == l'.low; }
    assert line'.high == line.high by { assert At(l, High) == l.high && At(l', High) == l'.high; }
    assert line'.time == line.time by { assert At(l, Time) == l.time && At(l', Time) == l'.time; }
  }

  lemma {:induction false} RowsMoved(trs: seq<Node>, trs': seq<Node>, read: Reader, read': Reader)
    requires |trs| == |trs'| && forall i :: 0 <= i < |trs| ==> read'(trs'[i]) == read(trs[i])
    ensures Rows(trs', read') == Rows(trs, read)
  {
    if trs != [] {
      var n := |trs| - 1;
      RowsMoved(trs[..n], trs'[..n], read, read');
    }
  }

  /** The line gives no row: it has no title, or no slug of its own or in its link. */
  predicate Rowless(tr: Node) {
    RowOf(tr, NO_LAYOUT) == None
  }

  lemma {:induction false} RowlessDraft(a: Row, b: Row)
    requires a.slug == b.slug && a.title == b.title && a.profile == b.profile
    ensures Finish(a) == None <==> Finish(b) == None
  {
  }

  /** Whether a line gives a row does not depend on the layout. */
  lemma {:induction false} RowlessAlways(tr: Node, l: Layout, k: Layout)
    ensures RowOf(tr, l) == None <==> RowOf(tr, k) == None
  {
    if tr.Node? {
      var th, cells := Found(tr, Tag("th")), Kids(tr, Tag("td"));
      RowlessDraft(Draft(LineFrom(tr, th, cells, l)), Draft(LineFrom(tr, th, cells, k)));
    }
  }

  /** The tables are the same but for the order of their data columns, and for lines that give no row. */
  ghost predicate MovedTable(table: Node, table': Node, p: Rearrangement)
    requires table.Node? && table'.Node?
  {
    var trs, trs' := BodyLines(table), BodyLines(table');
    && MovedHead(table, table', p)
    && |trs'| == |trs|
    && (forall i :: 0 <= i < |trs| ==> MovedLine(trs[i], trs'[i], p) || (Rowless(trs[i]) && Rowless(trs'[i])))
  }

  /** The header names at least three columns, and none of them twice. */
  ghost predicate Readable(table: Node, keywords: Keywords)
    requires table.Node?
  {
    var cells := HeadCells(table);
    && cells != []
    && Unambiguous(Texts(cells[1..]), keywords)
    && Scan(Texts(cells[1..]), keywords).1 >= 3
  }

  lemma {:induction false} HeadMoved(table: Node, table': Node, p: Rearrangement, keywords: Keywords)
    requires table.Node? && table'.Node? && p.Valid() && MovedHead(table, table', p) && Readable(table, keywords)
    ensures Head(table', keywords).0 == Head(table, keywords).0
    ensures MovedLayout(Head(table, keywords).1, Head(table', keywords).1, p)
  {
    var cells, cells' := HeadCells(table), HeadCells(table');
    var captions, captions' := Texts(cells[1..]), Texts(cells'[1..]);
    SameContent(cells[0], cells'[0]);
    forall i | 0 <= i < |captions|
      ensures captions'[p.to(i)] == captions[i]
    {
      SameContent(cells[1..][i], cells'[1..][p.to(i)]);
    }
    ScanMoved(captions, captions', p, keywords);
  }

  /** The column order of a readable table does not matter. */
  lemma {:induction false} ColumnOrderIsIrrelevant(table: Node, table': Node, p: Rearrangement, keywords: Keywords)
    requires table.Node? && table'.Node? && p.Valid() && MovedTable(table, table', p) && Readable(table, keywords)
    ensures TableOf(table', keywords) == TableOf(table, keywords)
  {
    var l, l' := Head(table, keywords).1, Head(table', keywords).1;
    var trs, trs' := BodyLines(table), BodyLines(table');
    HeadMoved(table, table', p, keywords);
    forall i | 0 <= i < |trs|
      ensures ReaderFor(l')(trs'[i]) == ReaderFor(l)(trs[i])
    {
      if MovedLine(trs[i], trs'[i], p) {
        RowMoved(trs[i], trs'[i], p, l, l');
      } else {
        RowlessAlways(trs[i], NO_LAYOUT, l);
        RowlessAlways(trs'[i], NO_LAYOUT, l');
      }
    }
    RowsMoved(trs, trs', ReaderFor(l), ReaderFor(l'));
  }

  // ----- the fields -----

  function FieldOf(row: Row, c: Column): string {
    match c
    case Price => row.price
    case Change_ => row.change
    case Low => row.low
    case High => row.high
    case Time => row.time
  }

  lemma {:induction false} ColumnFound(captions: seq<string>, keywords: Keywords, c: Column, i: nat)
    requires Unambiguous(captions, keywords) && i < |captions| && ColumnOf(captions[i], keywords) == Some(c)
    ensures At(Scan(captions, keywords).0, c) == i
  {
    ScanPlaces(captions, keywords);
    assert Placed(captions, keywords, Scan(captions, keywords).0, c);
  }

  lemma {:induction false} FieldOfDraft(draft: Row, row: Row, c: Column)
    requires Finish(draft) == Some(row)
    ensures FieldOf(row, c) == FieldOf(draft, c) && row.status == draft.status
  {
  }

  /**
   The field of a column is the cleaned text of the cell below the caption that announces it, or nothing
   if the line is too short; an empty price is taken from the line's own attribute, and the direction of
   the change from the same cell as the change.
   */
  lemma {:induction false} FieldsComeFromTheirColumns(table: Node, tr: Node, keywords: Keywords, c: Column, i: nat)
    requires table.Node? && Readable(table, keywords) && tr.Node?
    requires var captions := Texts(HeadCells(table)[1..]);
      i < |captions| && ColumnOf(captions[i], keywords) == Some(c)
    ensures var parsed, cell := RowOf(tr, Head(table, keywords).1), CellAt(Kids(tr, Tag("td")), i);
      parsed.Some? ==>
        && FieldOf(parsed.value, c) ==
          (if c == Price && Clean(Text(cell)) == "" then Clean(Attr(tr, "data-price")) else Clean(Text(cell)))
        && (c == Change_ ==> parsed.value.status == Status(cell))
  {
    var captions, l := Texts(HeadCells(table)[1..]), Head(table, keywords).1;
    var th, cells := Found(tr, Tag("th")), Kids(tr, Tag("td"));
    assert At(l, c) == i by { ColumnFound(captions, keywords, c, i); }
    var line, parsed := LineFrom(tr, th, cells, l), RowOf(tr, l);
    if parsed.Some? {
      FieldOfDraft(Draft(line), parsed.value, c);
      FieldOfCell(tr, th, cells, l, c, i);
    }
  }

  lemma {:induction false} FieldOfCell(tr: Node, th: Node, cells: seq<Node>, l: Layout, c: Column, i: nat)
    requires tr.Node? && At(l, c) == i
    ensures var draft, cell := Draft(LineFrom(tr, th, cells, l)), CellAt(cells, i);
      && FieldOf(draft, c) ==
        (if c == Price && Clean(Text(cell)) == "" then Clean(Attr(tr, "data-price")) else Clean(Text(cell)))
      && (c == Change_ ==> draft.status == Status(cell))
  {
    var cell := CellAt(cells, i);
    SameContent(Content(cell), cell);
  }
}
