/**
 What the queries over a document find, told without the walks that find it: the children and attributes of a
 node, and the words of its text.
 */
module DomLaws {
  import opened Strings
  import opened Dom
  import NumberLaws

  // ----- siblings and children -----

  predicate AllNodes(nodes: seq<Node>) {
    forall n :: n in nodes ==> n.Node?
  }

  /** The nodes linked as siblings, in order. */
  function Chain(nodes: seq<Node>): Node
    requires AllNodes(nodes)
  {
    if nodes == [] then Nil
    else
      assert nodes[0] in nodes && forall n :: n in nodes[1..] ==> n in nodes;
      nodes[0].(nextSibling := Chain(nodes[1..]))
  }

  /** The siblings of a chain follow each other's links from its first node to its last. */
  lemma {:induction false} SiblingsFollow(link: Node)
    ensures var s := Siblings(link);
      && AllNodes(s)
      && (s == [] <==> link.Nil?)
      && (s != [] ==> s[0] == link && s[|s| - 1].nextSibling.Nil?)
      && (forall k :: 0 <= k < |s| - 1 ==> s[k].nextSibling == s[k + 1])
  {
    if link.Node? {
      SiblingsFollow(link.nextSibling);
      assert Siblings(link) == [link] + Siblings(link.nextSibling);
    }
  }

  lemma {:induction false} ChainOfSiblings(link: Node)
    ensures AllNodes(Siblings(link)) && Chain(Siblings(link)) == link
  {
    SiblingsFollow(link);
    if link.Node? {
      ChainOfSiblings(link.nextSibling);
      assert Siblings(link)[1..] == Siblings(link.nextSibling);
    }
  }

  lemma {:induction false} SiblingsOfChain(nodes: seq<Node>)
    requires AllNodes(nodes)
    ensures var s := Siblings(Chain(nodes));
      |s| == |nodes| && forall i :: 0 <= i < |s| ==> Content(s[i]) == Content(nodes[i])
  {
    if nodes != [] {
      assert nodes[0] in nodes && forall n :: n in nodes[1..] ==> n in nodes;
      SiblingsOfChain(nodes[1..]);
      assert Siblings(Chain(nodes)) == [Chain(nodes)] + Siblings(Chain(nodes[1..]));
    }
  }

  lemma {:induction false} HitsAreSelected(s: seq<Node>, m: Matcher)
    ensures Hits(s, m) == Select(s, x => Hit(x, m))
  {
    if s != [] {
      var init, last := s[..|s| - 1], s[|s| - 1];
      var p: Node -> bool := x => Hit(x, m);
      HitsAreSelected(init, m);
      SelectConcat(init, [last], p);
      assert s == init + [last] && [last][1..] == [];
      assert Select([last], p) == if Hit(last, m) then [last] else [];
    }
  }

  /** The children that match are the siblings from the first child on, restricted to matching elements. */
  lemma {:induction false} KidsAreSelected(n: Node, m: Matcher)
    requires n.Node?
    ensures Kids(n, m) == Select(Siblings(n.firstChild), (x: Node) => x.Node? && x.kind == Element && m(x))
  {
    HitsAreSelected(Siblings(n.firstChild), m);
    SelectAgrees(Siblings(n.firstChild), x => Hit(x, m), (x: Node) => x.Node? && x.kind == Element && m(x));
  }

  /** An attribute is the first of its name. */
  lemma {:induction false} AttrIsFirst(n: Node, name: string, i: nat)
    requires n.Node? && i < |n.attrs| && n.attrs[i].0 == name && forall j :: 0 <= j < i ==> n.attrs[j].0 != name
    ensures Attr(n, name) == n.attrs[i].1
  {
    FirstOfName(n.attrs, name, i);
  }

  lemma {:induction false} FirstOfName(attrs: seq<(string, string)>, name: string, i: nat)
    requires i < |attrs| && attrs[i].0 == name && forall j :: 0 <= j < i ==> attrs[j].0 != name
    ensures AttrIn(attrs, name) == attrs[i].1
  {
    if i > 0 { FirstOfName(attrs[1..], name, i - 1); }
  }

  lemma {:induction false} NoneOfName(attrs: seq<(string, string)>, name: string)
    requires forall j :: 0 <= j < |attrs| ==> attrs[j].0 != name
    ensures AttrIn(attrs, name) == ""
  {
    if attrs != [] { NoneOfName(attrs[1..], name); }
  }

  // ----- the words of a text -----

  /** The data of the text nodes, one after the other. */
  function DataOf(s: seq<Node>): string {
    if s == [] then "" else (if s[0].Node? && s[0].kind == TextNode then s[0].data else "") + DataOf(s[1..])
  }

  lemma {:induction false} DataConcat(a: seq<Node>, b: seq<Node>)
    ensures DataOf(a + b) == DataOf(a) + DataOf(b)
  {
    if a == [] {
      assert a + b == b;
    } else {
      var data := if a[0].Node? && a[0].kind == TextNode then a[0].data else "";
      DataConcat(a[1..], b);
      assert (a + b)[0] == a[0] && (a + b)[1..] == a[1..] + b;
      Regroup(data, DataOf(a[1..]), DataOf(b));
    }
  }

  /** The document without what is below a text node; the parser puts nothing there. */
  function Pruned(link: Node): Node {
    if link.Nil? then Nil
    else
      link.(firstChild := if link.kind == TextNode then Nil else Pruned(link.firstChild),
            nextSibling := Pruned(link.nextSibling))
  }

  lemma {:induction false} WordsOf(n: Node)
    requires n.Node?
    ensures Fields(Text(n)) == Fields(RawText(n))
  {
    FieldsAreWords(RawText(n));
    FieldsOfJoin(Fields(RawText(n)));
  }

  lemma {:induction false} RawTextsAreData(link: Node)
    ensures NumberLaws.Strip(RawTexts(link)) == NumberLaws.Strip(DataOf(Preorder(Pruned(link))))
  {
    if link.Node? {
      var edge := if link.kind == Element then " " else "";
      var p := Pruned(link);
      var below, after := Preorder(p.firstChild), Preorder(p.nextSibling);
      RawTextsAreData(link.nextSibling);
      if link.kind != TextNode { RawTextsAreData(link.firstChild); }
      DataOfParts(p, below, after);
      StripEdges(edge, RawText(link), RawTexts(link.nextSibling));
      var own := if link.kind == TextNode then link.data else DataOf(below);
      assert DataOf(Preorder(p)) == own + DataOf(after);
      NumberLaws.StripConcat(own, DataOf(after));
    }
  }

  lemma {:induction false} DataOfParts(p: Node, below: seq<Node>, after: seq<Node>)
    requires p.Node? && (p.kind == TextNode ==> below == [])
    ensures DataOf([p] + below + after) == (if p.kind == TextNode then p.data else DataOf(below)) + DataOf(after)
  {
    DataConcat([p] + below, after);
    DataConcat([p], below);
    assert [p][1..] == [];
    assert DataOf([p]) == (if p.kind == TextNode then p.data else "") + "";
  }

  lemma {:induction false} StripEdges(edge: string, inner: string, rest: string)
    requires edge == "" || edge == " "
    ensures NumberLaws.Strip(edge + inner + edge + rest) == NumberLaws.Strip(inner) + NumberLaws.Strip(rest)
  {
    NumberLaws.StripConcat(edge + inner + edge, rest);
    NumberLaws.StripConcat(edge + inner, edge);
    NumberLaws.StripConcat(edge, inner);
    NumberLaws.StripCons(' ', "");
    assert [' '] + "" == " ";
  }

  /** Blanks aside, the text of a node is the data of all text nodes below it, in document order. */
  lemma {:induction false} TextIsItsData(n: Node)
    requires n.Node?
    ensures NumberLaws.Strip(Text(n)) ==
      NumberLaws.Strip(if n.kind == TextNode then n.data else DataOf(Preorder(Pruned(n.firstChild))))
  {
    NumberLaws.StripOfFields(RawText(n));
    RawTextsAreData(n.firstChild);
  }

  lemma {:induction false} RawTextsConcat(a: seq<Node>, b: seq<Node>)
    requires AllNodes(a) && AllNodes(b)
    ensures AllNodes(a + b) && RawTexts(Chain(a + b)) == RawTexts(Chain(a)) + RawTexts(Chain(b))
  {
    if a == [] {
      assert a + b == b;
    } else {
      var n, rest := a[0], a[1..];
      assert n in a && forall x :: x in rest ==> x in a;
      RawTextsConcat(rest, b);
      RawTextsCons(n, rest);
      RawTextsCons(n, rest + b);
      assert [n] + rest == a && [n] + (rest + b) == a + b;
      Regroup(Contribution(n), RawTexts(Chain(rest)), RawTexts(Chain(b)));
    }
  }

  lemma {:induction false} Regroup(a: string, b: string, c: string)
    ensures (a + b) + c == a + (b + c)
  {
  }

  /** What a node contributes where it stands. */
  function Contribution(n: Node): string
    requires n.Node?
  {
    if n.kind == Element then " " + RawText(n) + " " else RawText(n)
  }

  lemma {:induction false} RawTextsCons(n: Node, rest: seq<Node>)
    requires n.Node? && AllNodes(rest)
    ensures AllNodes([n] + rest) && RawTexts(Chain([n] + rest)) == Contribution(n) + RawTexts(Chain(rest))
  {
    assert ([n] + rest)[1..] == rest;
    var link := Chain([n] + rest);
    assert link == n.(nextSibling := Chain(rest)) && RawText(link) == RawText(n);
    if n.kind != Element { assert "" + RawText(n) + "" == RawText(n); }
  }

  /** An element among the children keeps its words apart from those before it and after it. */
  lemma {:induction false} ElementsKeepApart(n: Node, a: seq<Node>, e: Node, b: seq<Node>)
    requires n.Node? && n.kind != TextNode && AllNodes(a) && AllNodes(b) && e.Node? && e.kind == Element
    requires AllNodes(a + [e] + b) && n.firstChild == Chain(a + [e] + b)
    ensures Fields(Text(n)) ==
      Fields(Text(n.(firstChild := Chain(a)))) + Fields(Text(e)) + Fields(Text(n.(firstChild := Chain(b))))
  {
    var before, inner, after := RawTexts(Chain(a)), RawText(e), RawTexts(Chain(b));
    assert RawText(n) == before + (" " + inner + " " + after) by {
      RawTextsConcat(a, [e] + b);
      assert a + [e] + b == a + ([e] + b);
      RawTextsCons(e, b);
    }
    WordsOf(n);
    WordsOf(e);
    WordsOf(n.(firstChild := Chain(a)));
    WordsOf(n.(firstChild := Chain(b)));
    WordsApart(before, inner, after);
  }

  lemma {:induction false} WordsApart(before: string, inner: string, after: string)
    ensures Fields(before + (" " + inner + " " + after)) == Fields(before) + Fields(inner) + Fields(after)
  {
    FieldsApart(before, " " + inner + " " + after);
    FieldsAround(" " + inner, ' ', after);
    assert " " + inner + " " + after == (" " + inner) + [' '] + after;
    FieldsSpace(inner);
  }

  /** Text nodes that meet run together. */
  lemma {:induction false} TextsRunTogether(n: Node, texts: seq<Node>)
    requires n.Node? && n.kind != TextNode && AllNodes(texts) && n.firstChild == Chain(texts)
    requires forall t :: t in texts ==> t.kind == TextNode
    ensures Fields(Text(n)) == Fields(DataOf(texts))
  {
    WordsOf(n);
    RawTextsOfTexts(texts);
  }

  lemma {:induction false} RawTextsOfTexts(texts: seq<Node>)
    requires AllNodes(texts) && forall t :: t in texts ==> t.kind == TextNode
    ensures RawTexts(Chain(texts)) == DataOf(texts)
  {
    if texts != [] {
      assert texts[0] in texts && forall t :: t in texts[1..] ==> t in texts;
      RawTextsOfTexts(texts[1..]);
      RawTextsCons(texts[0], texts[1..]);
      assert [texts[0]] + texts[1..] == texts;
    }
  }

  /** A node that is neither element nor text and has nothing below it, such as a comment, does not show. */
  lemma {:induction false} CommentsDoNotShow(n: Node, a: seq<Node>, c: Node, b: seq<Node>)
    requires n.Node? && n.kind != TextNode && AllNodes(a) && AllNodes(b)
    requires c.Node? && c.kind == OtherNode && c.firstChild.Nil?
    requires AllNodes(a + [c] + b) && AllNodes(a + b) && n.firstChild == Chain(a + [c] + b)
    ensures Text(n) == Text(n.(firstChild := Chain(a + b)))
  {
    RawTextsConcat(a, [c] + b);
    RawTextsConcat(a, b);
    assert a + [c] + b == a + ([c] + b);
    RawTextsCons(c, b);
    assert RawTexts(c.firstChild) == "" && Contribution(c) == "";
    assert "" + RawTexts(Chain(b)) == RawTexts(Chain(b));
  }
}
