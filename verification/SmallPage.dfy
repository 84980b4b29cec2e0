/** A page with one table of one row, and what the table reader makes of it. */
module SmallPage {
  import opened Wrappers
  import opened Strings
  import opened Numfmt
  import opened Dom
  import opened Scrape

  function TextChild(text: string): Node {
    Node(0, TextNode, text, [], Nil, Nil)
  }

  /** An element with these children and no sibling. */
  function Alone(id: nat, tag: string, attrs: seq<(string, string)>, children: Node): Node {
    Node(id, Element, tag, attrs, children, Nil)
  }

  /** A header with the caption only, and a body with one line that has a title and a slug only. */
  function OneRow(caption: string, title: string, slug: string): Node {
    var head := Alone(3, "tr", [], Alone(4, "th", [], TextChild(caption)));
    var line := Alone(6, "tr", [("data-market-nameslug", slug)], Alone(7, "th", [], TextChild(title)));
    var body := Alone(5, "tbody", [], line);
    Alone(1, "table", [], Node(2, Element, "thead", [], head, body))
  }

  lemma {:induction false} FoundFirst(n: Node, tag: string)
    requires n.Node? && n.firstChild.Node? && n.firstChild.kind == Element && n.firstChild.data == tag
    ensures Found(n, Tag(tag)) == n.firstChild
  {
  }

  /** The only child is the only one that matches, or none is. */
  lemma {:induction false} OnlyKid(n: Node, m: Matcher)
    requires n.Node? && n.firstChild.Node? && n.firstChild.nextSibling == Nil
    ensures Kids(n, m) == if Hit(n.firstChild, m) then [n.firstChild] else []
  {
    var c := n.firstChild;
    assert Siblings(c) == [c] by { assert Siblings(c.nextSibling) == []; }
    HitsSnoc([], c, m);
    assert [] + [c] == [c];
  }

  lemma {:induction false} SecondKid(n: Node, m: Matcher)
    requires n.Node? && n.firstChild.Node? && n.firstChild.nextSibling.Node?
    requires n.firstChild.nextSibling.nextSibling == Nil
    requires !Hit(n.firstChild, m) && Hit(n.firstChild.nextSibling, m)
    ensures Kids(n, m) == [n.firstChild.nextSibling]
  {
    var c, d := n.firstChild, n.firstChild.nextSibling;
    assert Siblings(c) == [c] + [d] by {
      assert Siblings(d.nextSibling) == [];
      assert Siblings(d) == [d];
    }
    HitsSnoc([], c, m);
    HitsSnoc([c], d, m);
    assert [] + [c] == [c];
  }

  /** The text of a cell that holds a clean text is that text. */
  lemma {:induction false} TextOfCell(cell: Node, text: string)
    requires cell.Node? && cell.kind == Element && cell.firstChild == TextChild(text) && Clean(text) == text
    ensures Clean(Text(cell)) == text
  {
    assert RawText(cell) == text by {
      var child := TextChild(text);
      assert RawText(child) == text && RawTexts(child.nextSibling) == "";
      assert RawTexts(child) == "" + text + "" + "";
    }
    CleanFixes(text);
    DigitsOfPlain(text);
    assert Text(cell) == Join(Fields(text), " ") == text;
  }

  lemma {:induction false} HeadOf(table: Node, head: Node, tr: Node, cell: Node, caption: string, keywords: Keywords)
    requires table.Node? && Found(table, Tag("thead")) == head && head.Node? && Found(head, Tag("tr")) == tr
    requires tr.Node? && Kids(tr, Tag("th")) == [cell] && Clean(Text(cell)) == caption
    ensures Head(table, keywords) == (caption, DEFAULT_LAYOUT)
  {
    assert HeadCells(table) == [cell];
    assert [cell][1..] == [] && Texts([]) == [];
  }

  lemma {:induction false} LineOf(tr: Node, th: Node, title: string, slug: string, cols: Layout)
    requires tr.Node? && tr.attrs == [("data-market-nameslug", slug)] && slug != "" && title != ""
    requires Found(tr, Tag("th")) == th && th.Node? && Kids(tr, Tag("td")) == [] && Clean(Text(th)) == title
    ensures RowOf(tr, cols) == Some(Row(slug, title, "", "", "", "", "", "", ""))
  {
    CleanFixes("");
    assert AttrIn(tr.attrs, "data-price") == "" by { assert tr.attrs[1..] == []; }
    assert Text(Content(th)) == Text(th);
    assert Draft(LineFrom(tr, th, [], cols)) == Row(slug, title, "", "", "", "", "", "", "");
  }

  lemma {:induction false} OneLine(table: Node, body: Node, tr: Node, read: Reader, row: Row)
    requires table.Node? && Kids(table, Tag("tbody")) == [body] && Kids(body, Tag("tr")) == [tr]
    requires read(tr) == Some(row)
    ensures BodyLines(table) == [tr] && Rows([tr], read) == [row]
  {
    assert [body][..0] == [] && [tr][..0] == [];
    assert Lines([]) == [] && Rows([], read) == [];
  }

  /** Any clean caption, clean title and slug come out of the table reader as they are. */
  lemma {:induction false} OneRowIsRead(caption: string, title: string, slug: string, keywords: Keywords)
    requires Clean(caption) == caption && Clean(title) == title && title != "" && slug != ""
    ensures TableOf(OneRow(caption, title, slug), keywords)
      == Table(caption, [Row(slug, title, "", "", "", "", "", "", "")])
  {
    var table := OneRow(caption, title, slug);
    var head, body := table.firstChild, table.firstChild.nextSibling;
    var top, line := head.firstChild, body.firstChild;
    assert Head(table, keywords) == (caption, DEFAULT_LAYOUT) by {
      FoundFirst(table, "thead");
      FoundFirst(head, "tr");
      OnlyKid(top, Tag("th"));
      TextOfCell(top.firstChild, caption);
      HeadOf(table, head, top, top.firstChild, caption, keywords);
    }
    var row := Row(slug, title, "", "", "", "", "", "", "");
    assert RowOf(line, DEFAULT_LAYOUT) == Some(row) by {
      FoundFirst(line, "th");
      OnlyKid(line, Tag("td"));
      TextOfCell(line.firstChild, title);
      LineOf(line, line.firstChild, title, slug, DEFAULT_LAYOUT);
    }
    SecondKid(table, Tag("tbody"));
    OnlyKid(body, Tag("tr"));
    OneLine(table, body, line, ReaderFor(DEFAULT_LAYOUT), row);
  }
}
