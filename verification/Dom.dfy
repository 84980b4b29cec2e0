/**
 Queries over a parsed document. A node links to its first child and to its next sibling, as the
 parser builds it, and is never changed; its id stands for the identity of the node.
 */
module Dom {
  import opened Strings

  datatype Kind = Element | TextNode | OtherNode

  datatype Node =
    | Nil
    | Node(id: nat, kind: Kind, data: string, attrs: seq<(string, string)>, firstChild: Node, nextSibling: Node)

  type Matcher = Node -> bool

  predicate Hit(n: Node, m: Matcher) {
    n.Node? && n.kind == Element && m(n)
  }

  function Tag(name: string): Matcher {
    (n: Node) => n.Node? && n.data == name
  }

  function TagClass(name: string, class_: string): Matcher {
    (n: Node) => n.Node? && (name == "" || n.data == name) && class_ in Classes(n)
  }

  /** The nodes of a sibling chain and all below them, in document order. */
  function Preorder(link: Node): seq<Node> {
    if link.Nil? then [] else [link] + Preorder(link.firstChild) + Preorder(link.nextSibling)
  }

  function Siblings(link: Node): seq<Node> {
    if link.Nil? then [] else [link] + Siblings(link.nextSibling)
  }

  ghost function Select(s: seq<Node>, p: Node -> bool): seq<Node> {
    if s == [] then [] else (if p(s[0]) then [s[0]] else []) + Select(s[1..], p)
  }

  /** No node of the chain is met twice. */
  ghost predicate Distinct(s: seq<Node>) {
    forall i, j :: 0 <= i < j < |s| ==> s[i] != s[j]
  }

  // ----- what the loops compute -----

  /** The hits with no hit above them, as the recursive walk meets them. */
  function TopHits(link: Node, m: Matcher): seq<Node> {
    if link.Nil? then []
    else (if Hit(link, m) then [link] else TopHits(link.firstChild, m)) + TopHits(link.nextSibling, m)
  }

  function FirstHit(link: Node, m: Matcher): Node {
    if link.Nil? then Nil
    else if Hit(link, m) then link
    else
      var below := FirstHit(link.firstChild, m);
      if below.Node? then below else FirstHit(link.nextSibling, m)
  }

  function Hits(s: seq<Node>, m: Matcher): seq<Node> {
    if s == [] then [] else Hits(s[..|s| - 1], m) + (if Hit(s[|s| - 1], m) then [s[|s| - 1]] else [])
  }

  /** The children of n that match; none when n is nil. */
  function Kids(n: Node, m: Matcher): seq<Node> {
    if n.Nil? then [] else Hits(Siblings(n.firstChild), m)
  }

  function Found(n: Node, m: Matcher): Node
    requires n.Node?
  {
    FirstHit(n.firstChild, m)
  }

  method Find(n: Node, m: Matcher) returns (found: Node)
    requires n.Node?
    ensures found == Found(n, m)
  {
    var goOn;
    goOn, found := Walk(n, m);
  }

  /** The walk with the visitor of Find: stop at the first hit. */
  method Walk(n: Node, m: Matcher) returns (goOn: bool, found: Node)
    requires n.Node?
    ensures found == FirstHit(n.firstChild, m)
    ensures goOn == found.Nil?
    decreases n
  {
    var c := n.firstChild;
    while c != Nil
      invariant c < n
      invariant FirstHit(n.firstChild, m) == FirstHit(c, m)
      decreases c
    {
      if c.kind == Element && m(c) { return false, c; }
      goOn, found := Walk(c, m);
      if !goOn { return; }
      c := c.nextSibling;
    }
    return true, Nil;
  }

  method FindAll(n: Node, m: Matcher) returns (out: seq<Node>)
    requires n.Node?
    ensures out == TopHits(n.firstChild, m)
  {
    out := Visit(n, m, []);
  }

  method Visit(cur: Node, m: Matcher, before: seq<Node>) returns (out: seq<Node>)
    requires cur.Node?
    ensures out == before + TopHits(cur.firstChild, m)
    decreases cur
  {
    out := before;
    var c := cur.firstChild;
    while c != Nil
      invariant c < cur
      invariant out + TopHits(c, m) == before + TopHits(cur.firstChild, m)
      decreases c
    {
      ghost var soFar := out;
      if c.kind == Element && m(c) {
        out := out + [c];
      } else {
        out := Visit(c, m, out);
      }
      assert out + TopHits(c.nextSibling, m) == soFar + TopHits(c, m);
      c := c.nextSibling;
    }
  }

  lemma {:induction false} HitsSnoc(s: seq<Node>, c: Node, m: Matcher)
    ensures Hits(s + [c], m) == Hits(s, m) + (if Hit(c, m) then [c] else [])
  {
    assert (s + [c])[..|s|] == s;
  }

  lemma {:induction false} SiblingsSplit(s: seq<Node>, c: Node)
    requires c.Node?
    ensures s + [c] + Siblings(c.nextSibling) == s + Siblings(c)
  {
  }

  method Children(n: Node, m: Matcher) returns (out: seq<Node>)
    ensures out == Kids(n, m)
  {
    if n == Nil { return []; }
    out := [];
    var c := n.firstChild;
    ghost var passed: seq<Node> := [];
    while c != Nil
      invariant passed + Siblings(c) == Siblings(n.firstChild)
      invariant out == Hits(passed, m)
      decreases c
    {
      HitsSnoc(passed, c, m);
      SiblingsSplit(passed, c);
      passed := passed + [c];
      if c.kind == Element && m(c) { out := out + [c]; }
      c := c.nextSibling;
    }
    assert passed + [] == passed;
  }

  function Attr(n: Node, name: string): string {
    if n.Nil? then "" else AttrIn(n.attrs, name)
  }

  /** The value of the first attribute of that name, or the empty text. */
  function AttrIn(attrs: seq<(string, string)>, name: string): string {
    if attrs == [] then "" else if attrs[0].0 == name then attrs[0].1 else AttrIn(attrs[1..], name)
  }

  function Classes(n: Node): seq<string> {
    Fields(Attr(n, "class"))
  }

  /** Everything the builder of Text receives for n, an element boundary counting as a blank. */
  function RawText(n: Node): string
    requires n.Node?
    decreases n, 0
  {
    if n.kind == TextNode then n.data else RawTexts(n.firstChild)
  }

  function RawTexts(link: Node): string
    decreases link, 1
  {
    if link.Nil? then ""
    else
      var edge := if link.kind == Element then " " else "";
      edge + RawText(link) + edge + RawTexts(link.nextSibling)
  }

  function Text(n: Node): string {
    if n.Nil? then "" else Join(Fields(RawText(n)), " ")
  }

  method ReadText(n: Node) returns (text: string)
    ensures text == Text(n)
  {
    if n == Nil { return ""; }
    var b := WriteText(n, "");
    assert "" + RawText(n) == RawText(n);
    text := Join(Fields(b), " ");
  }

  method WriteText(cur: Node, before: string) returns (b: string)
    requires cur.Node?
    ensures b == before + RawText(cur)
    decreases cur
  {
    if cur.kind == TextNode { return before + cur.data; }
    b := before;
    var c := cur.firstChild;
    while c != Nil
      invariant c < cur
      invariant b + RawTexts(c) == before + RawTexts(cur.firstChild)
      decreases c
    {
      ghost var soFar := b;
      if c.kind == Element { b := b + " "; }
      b := WriteText(c, b);
      if c.kind == Element { b := b + " "; }
      assert b + RawTexts(c.nextSibling) == soFar + RawTexts(c);
      c := c.nextSibling;
    }
  }

  /** A node apart from its place among its siblings: all that its text, attributes and descendants depend on. */
  function Content(n: Node): Node {
    if n.Nil? then Nil else n.(nextSibling := Nil)
  }

  // ----- what FindAll and Find mean -----

  /** x lies below a. */
  ghost predicate Below(x: Node, a: Node) {
    a.Node? && x in Preorder(a.firstChild)
  }

  /** A hit with no hit above it, among the nodes of s. */
  ghost predicate TopHit(x: Node, s: seq<Node>, m: Matcher) {
    Hit(x, m) && forall a :: a in s && Hit(a, m) ==> !Below(x, a)
  }

  lemma {:induction false} PreorderTransitive(link: Node, a: Node)
    requires a in Preorder(link)
    ensures a.Node?
    ensures forall x :: x in Preorder(a.firstChild) ==> x in Preorder(link)
  {
    if a == link {
    } else if a in Preorder(link.firstChild) {
      PreorderTransitive(link.firstChild, a);
    } else {
      PreorderTransitive(link.nextSibling, a);
    }
  }

  lemma {:induction false} SelectAgrees(s: seq<Node>, p: Node -> bool, q: Node -> bool)
    requires forall x :: x in s ==> p(x) == q(x)
    ensures Select(s, p) == Select(s, q)
  {
    if s != [] {
      assert s[0] in s && forall x :: x in s[1..] ==> x in s;
      SelectAgrees(s[1..], p, q);
    }
  }

  lemma {:induction false} SelectNone(s: seq<Node>, p: Node -> bool)
    requires forall x :: x in s ==> !p(x)
    ensures Select(s, p) == []
  {
    if s != [] {
      assert s[0] in s && forall x :: x in s[1..] ==> x in s;
      SelectNone(s[1..], p);
    }
  }

  lemma {:induction false} SelectConcat(a: seq<Node>, b: seq<Node>, p: Node -> bool)
    ensures Select(a + b, p) == Select(a, p) + Select(b, p)
  {
    if a == [] {
      assert a + b == b;
    } else {
      var s, head := a + b, if p(a[0]) then [a[0]] else [];
      assert s[0] == a[0] && s[1..] == a[1..] + b;
      SelectConcat(a[1..], b, p);
      assert head + (Select(a[1..], p) + Select(b, p)) == (head + Select(a[1..], p)) + Select(b, p);
    }
  }

  lemma {:induction false} SelectIsDistinct(s: seq<Node>, p: Node -> bool)
    requires Distinct(s)
    ensures Distinct(Select(s, p))
    ensures forall x :: x in Select(s, p) <==> x in s && p(x)
  {
    if s != [] {
      SelectIsDistinct(s[1..], p);
      assert s == [s[0]] + s[1..];
      assert s[0] !in s[1..];
    }
  }

  lemma {:induction false} DistinctParts(n: Node, k: seq<Node>, r: seq<Node>)
    requires Distinct([n] + k + r)
    ensures Distinct(k) && Distinct(r)
    ensures n !in k && n !in r
    ensures forall x :: x in k ==> x !in r
  {
    var s := [n] + k + r;
    assert s[0] == n;
    assert forall i :: 0 <= i < |k| ==> s[1 + i] == k[i];
    assert forall i :: 0 <= i < |r| ==> s[1 + |k| + i] == r[i];
    forall x | x in k
      ensures x !in r
    {
      var i :| 0 <= i < |k| && k[i] == x;
      assert s[1 + i] == x;
    }
  }

  /** The three parts of a document: the first node, what is below it, and what follows. */
  lemma {:induction false} PreorderParts(link: Node)
    requires link.Node? && Distinct(Preorder(link))
    ensures Distinct(Preorder(link.firstChild)) && Distinct(Preorder(link.nextSibling))
    ensures link !in Preorder(link.firstChild) && link !in Preorder(link.nextSibling)
    ensures forall x :: x in Preorder(link.firstChild) ==> x !in Preorder(link.nextSibling)
  {
    DistinctParts(link, Preorder(link.firstChild), Preorder(link.nextSibling));
  }

  /** Whether a node is a top hit of the whole is settled in the part that holds it. */
  lemma {:induction false} TopHitInPart(link: Node, m: Matcher, x: Node)
    requires link.Node? && Distinct(Preorder(link)) && x in Preorder(link)
    ensures var s := Preorder(link);
      TopHit(x, s, m) ==
        if x == link then Hit(x, m)
        else if x in Preorder(link.firstChild) then !Hit(link, m) && TopHit(x, Preorder(link.firstChild), m)
        else TopHit(x, Preorder(link.nextSibling), m)
  {
    var s, k, r := Preorder(link), Preorder(link.firstChild), Preorder(link.nextSibling);
    PreorderParts(link);
    forall a | a in s
      ensures a in k ==> (Below(x, a) ==> x in k)
      ensures a in r ==> (Below(x, a) ==> x in r)
    {
      if a in k { PreorderTransitive(link.firstChild, a); }
      if a in r { PreorderTransitive(link.nextSibling, a); }
    }
    assert forall a :: a in s <==> a == link || a in k || a in r;
  }

  /**
   FindAll meets, in document order and once each, exactly the hits below the start node that have
   no hit above them there.
   */
  lemma {:induction false} FindAllIsTopHits(link: Node, m: Matcher)
    requires Distinct(Preorder(link))
    ensures TopHits(link, m) == Select(Preorder(link), x => TopHit(x, Preorder(link), m))
  {
    if link.Node? {
      var s, k, r := Preorder(link), Preorder(link.firstChild), Preorder(link.nextSibling);
      var p: Node -> bool := x => TopHit(x, s, m);
      PreorderParts(link);
      FindAllIsTopHits(link.firstChild, m);
      FindAllIsTopHits(link.nextSibling, m);
      forall x | x in s
        ensures p(x) ==
          if x == link then Hit(x, m)
          else if x in k then !Hit(link, m) && TopHit(x, k, m)
          else TopHit(x, r, m)
      {
        TopHitInPart(link, m, x);
      }
      SelectConcat([link] + k, r, p);
      SelectConcat([link], k, p);
      SelectAgrees(r, p, x => TopHit(x, r, m));
      if Hit(link, m) {
        SelectNone(k, p);
      } else {
        SelectAgrees(k, p, x => TopHit(x, k, m));
      }
      assert [link][1..] == [];
      assert Select([link], p) == if Hit(link, m) then [link] else [];
    }
  }

  lemma {:induction false} FindAllHasNoRepeats(link: Node, m: Matcher)
    requires Distinct(Preorder(link))
    ensures Distinct(TopHits(link, m))
    ensures forall x :: x in TopHits(link, m) <==> x in Preorder(link) && TopHit(x, Preorder(link), m)
  {
    FindAllIsTopHits(link, m);
    SelectIsDistinct(Preorder(link), x => TopHit(x, Preorder(link), m));
  }

  /** Find is the first hit in document order, which is also the first of FindAll; nil when there is none. */
  lemma {:induction false} FindIsFirst(link: Node, m: Matcher)
    ensures var all := Select(Preorder(link), x => Hit(x, m));
      && FirstHit(link, m) == (if all == [] then Nil else all[0])
      && FirstHit(link, m) == (if TopHits(link, m) == [] then Nil else TopHits(link, m)[0])
  {
    if link.Node? {
      var p: Node -> bool := x => Hit(x, m);
      FindIsFirst(link.firstChild, m);
      FindIsFirst(link.nextSibling, m);
      SelectConcat([link] + Preorder(link.firstChild), Preorder(link.nextSibling), p);
      SelectConcat([link], Preorder(link.firstChild), p);
      FirstHitIsHit(link.firstChild, m);
      assert [link][1..] == [];
      assert Select([link], p) == if Hit(link, m) then [link] else [];
    }
  }

  lemma {:induction false} TopHitsAreNodes(link: Node, m: Matcher)
    ensures forall x :: x in TopHits(link, m) ==> x.Node?
  {
    if link.Node? {
      TopHitsAreNodes(link.firstChild, m);
      TopHitsAreNodes(link.nextSibling, m);
    }
  }

  lemma {:induction false} FirstHitIsHit(link: Node, m: Matcher)
    ensures FirstHit(link, m).Node? ==> Hit(FirstHit(link, m), m)
    ensures TopHits(link, m) != [] ==> Hit(TopHits(link, m)[0], m)
    ensures var all := Select(Preorder(link), x => Hit(x, m)); all != [] ==> Hit(all[0], m)
  {
    if link.Node? {
      FirstHitIsHit(link.firstChild, m);
      FirstHitIsHit(link.nextSibling, m);
      var p: Node -> bool := x => Hit(x, m);
      SelectConcat([link] + Preorder(link.firstChild), Preorder(link.nextSibling), p);
      SelectConcat([link], Preorder(link.firstChild), p);
      assert [link][1..] == [];
      assert Select([link], p) == if Hit(link, m) then [link] else [];
    }
  }
}
