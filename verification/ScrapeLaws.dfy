/** What the table reader takes from a page of the site: its captions, its directions, its links and its lines. */
module ScrapeLaws {
  import opened Wrappers
  import opened Strings
  import opened Numfmt
  import opened Dom
  import opened Scrape
  import opened ColumnOrder
  import opened DomLaws

  // ----- captions -----

  const PRICE := "قیمت زنده"
  const RATE := "نرخ زنده"
  const CHANGE := "تغییر"
  const LOWEST := "کمترین"
  const HIGHEST := "بیشترین"
  const TIME := "زمان"

  /** What a caption announces: the first of these words that it contains decides. */
  lemma {:induction false} CaptionAnnounces(caption: string)
    ensures ColumnOf(caption, HEADER_KEYWORDS) ==
      if Contains(caption, PRICE) || Contains(caption, RATE) then Some(Price)
      else if Contains(caption, CHANGE) then Some(Change_)
      else if Contains(caption, LOWEST) then Some(Low)
      else if Contains(caption, HIGHEST) then Some(High)
      else if Contains(caption, TIME) then Some(Time)
      else None
  {
    var k := HEADER_KEYWORDS;
    assert k[0..] == k;
    ColumnFrom(caption, k, 0);
    ColumnFrom(caption, k, 1);
    ColumnFrom(caption, k, 2);
    ColumnFrom(caption, k, 3);
    ColumnFrom(caption, k, 4);
    ColumnFrom(caption, k, 5);
  }

  lemma {:induction false} ColumnFrom(caption: string, keywords: Keywords, i: nat)
    requires i < |keywords|
    ensures ColumnOf(caption, keywords[i..]) ==
      if Contains(caption, keywords[i].0) then Some(keywords[i].1) else ColumnOf(caption, keywords[i + 1..])
  {
    assert keywords[i..][1..] == keywords[i + 1..];
  }

  lemma {:induction false} ContainsItself(s: string)
    ensures Contains(s, s)
  {
    assert MatchesAt(s, s, 0);
  }

  lemma {:induction false} ContainsNot(s: string, sub: string, i: nat)
    requires i < |sub| && sub[i] !in s
    ensures !Contains(s, sub)
  {
    forall k | 0 <= k <= |s|
      ensures !MatchesAt(s, sub, k)
    {
      assert k + |sub| <= |s| ==> s[k..k + |sub|][i] == s[k + i];
    }
  }

  /** Each caption word announces its own column. */
  lemma {:induction false} WordsAnnounce()
    ensures ColumnOf(PRICE, HEADER_KEYWORDS) == Some(Price) && ColumnOf(RATE, HEADER_KEYWORDS) == Some(Price)
    ensures ColumnOf(CHANGE, HEADER_KEYWORDS) == Some(Change_)
    ensures ColumnOf(LOWEST, HEADER_KEYWORDS) == Some(Low) && ColumnOf(HIGHEST, HEADER_KEYWORDS) == Some(High)
    ensures ColumnOf(TIME, HEADER_KEYWORDS) == Some(Time) && ColumnOf("", HEADER_KEYWORDS) == None
  {
    CaptionAnnounces(PRICE);
    CaptionAnnounces(RATE);
    ContainsItself(PRICE);
    ContainsItself(RATE);
    ChangeAnnounces();
    LowestAnnounces();
    HighestAnnounces();
    TimeAnnounces();
    CaptionAnnounces("");
    forall word | word in [PRICE, RATE, CHANGE, LOWEST, HIGHEST, TIME]
      ensures !Contains("", word)
    {
      ContainsNot("", word, 0);
    }
  }

  lemma {:induction false} ChangeAnnounces()
    ensures ColumnOf(CHANGE, HEADER_KEYWORDS) == Some(Change_)
  {
    CaptionAnnounces(CHANGE);
    ContainsItself(CHANGE);
    ContainsNot(CHANGE, PRICE, 0);
    ContainsNot(CHANGE, RATE, 0);
  }

  lemma {:induction false} LowestAnnounces()
    ensures ColumnOf(LOWEST, HEADER_KEYWORDS) == Some(Low)
  {
    CaptionAnnounces(LOWEST);
    ContainsItself(LOWEST);
    ContainsNot(LOWEST, PRICE, 0);
    ContainsNot(LOWEST, RATE, 2);
    ContainsNot(LOWEST, CHANGE, 1);
  }

  lemma {:induction false} HighestAnnounces()
    ensures ColumnOf(HIGHEST, HEADER_KEYWORDS) == Some(High)
  {
    CaptionAnnounces(HIGHEST);
    ContainsItself(HIGHEST);
    ContainsNot(HIGHEST, PRICE, 0);
    ContainsNot(HIGHEST, RATE, 2);
    ContainsNot(HIGHEST, CHANGE, 1);
    ContainsNot(HIGHEST, LOWEST, 0);
  }

  lemma {:induction false} TimeAnnounces()
    ensures ColumnOf(TIME, HEADER_KEYWORDS) == Some(Time)
  {
    CaptionAnnounces(TIME);
    ContainsItself(TIME);
    ContainsNot(TIME, PRICE, 0);
    ContainsNot(TIME, RATE, 1);
    ContainsNot(TIME, CHANGE, 0);
    ContainsNot(TIME, LOWEST, 0);
    ContainsNot(TIME, HIGHEST, 0);
  }

  /** i is the last of the captions that announces the column; it is -1 if none does. */
  ghost predicate IsLast(captions: seq<string>, keywords: Keywords, c: Column, i: int) {
    && -1 <= i < |captions|
    && (i >= 0 ==> ColumnOf(captions[i], keywords) == Some(c))
    && forall j :: i < j < |captions| ==> ColumnOf(captions[j], keywords) != Some(c)
  }

  function Announcing(captions: seq<string>, keywords: Keywords): set<nat> {
    set i: nat | i < |captions| && ColumnOf(captions[i], keywords).Some?
  }

  lemma {:induction false} PlacedLast(captions: seq<string>, keywords: Keywords, c: Column)
    ensures IsLast(captions, keywords, c, At(Scan(captions, keywords).0, c))
  {
    if captions != [] {
      var n := |captions| - 1;
      var l := Scan(captions[..n], keywords).0;
      PlacedLast(captions[..n], keywords, c);
      match ColumnOf(captions[n], keywords)
      case None =>
      case Some(d) => SetAt(l, d, n, c);
    }
  }

  lemma {:induction false} CountsAnnouncing(captions: seq<string>, keywords: Keywords)
    ensures Scan(captions, keywords).1 == |Announcing(captions, keywords)|
  {
    if captions == [] {
      assert Announcing(captions, keywords) == {};
    } else {
      var n := |captions| - 1;
      var init := Announcing(captions[..n], keywords);
      CountsAnnouncing(captions[..n], keywords);
      assert Announcing(captions, keywords) ==
        if ColumnOf(captions[n], keywords).Some? then init + {n} else init;
    }
  }

  /** Whatever the captions, a column is where it is announced last, and each caption that announces one counts. */
  lemma {:induction false} ScanIsLast(captions: seq<string>, keywords: Keywords)
    ensures var (l, matched) := Scan(captions, keywords);
      && matched == |Announcing(captions, keywords)|
      && IsLast(captions, keywords, Price, l.price) && IsLast(captions, keywords, Change_, l.change)
      && IsLast(captions, keywords, Low, l.low) && IsLast(captions, keywords, High, l.high)
      && IsLast(captions, keywords, Time, l.time)
  {
    CountsAnnouncing(captions, keywords);
    PlacedLast(captions, keywords, Price);
    PlacedLast(captions, keywords, Change_);
    PlacedLast(captions, keywords, Low);
    PlacedLast(captions, keywords, High);
    PlacedLast(captions, keywords, Time);
  }

  /** The layout of a header whose captions announce the five columns in this order, and then none. */
  lemma {:induction false} LayoutInOrder(captions: seq<string>, keywords: Keywords, order: seq<Column>)
    requires |order| == 5 && |captions| == 6 && ColumnOf(captions[5], keywords) == None
    requires forall i :: 0 <= i < 5 ==> ColumnOf(captions[i], keywords) == Some(order[i])
    requires forall i, j :: 0 <= i < j < 5 ==> order[i] != order[j]
    ensures var (l, matched) := Scan(captions, keywords);
      matched == 5 && forall i :: 0 <= i < 5 ==> At(l, order[i]) == i
  {
    CountsAnnouncing(captions, keywords);
    assert Announcing(captions, keywords) == {0, 1, 2, 3, 4};
    forall i | 0 <= i < 5
      ensures At(Scan(captions, keywords).0, order[i]) == i
    {
      PlacedLast(captions, keywords, order[i]);
    }
  }

  /** The layout of the site's own header, and of one with the low and the high the other way round. */
  lemma {:induction false} SiteLayout()
    ensures Scan([PRICE, CHANGE, LOWEST, HIGHEST, TIME, ""], HEADER_KEYWORDS) == (Layout(0, 1, 2, 3, 4), 5)
    ensures Scan([PRICE, CHANGE, HIGHEST, LOWEST, TIME, ""], HEADER_KEYWORDS) == (Layout(0, 1, 3, 2, 4), 5)
  {
    WordsAnnounce();
    LayoutInOrder([PRICE, CHANGE, LOWEST, HIGHEST, TIME, ""], HEADER_KEYWORDS, [Price, Change_, Low, High, Time]);
    LayoutInOrder([PRICE, CHANGE, HIGHEST, LOWEST, TIME, ""], HEADER_KEYWORDS, [Price, Change_, High, Low, Time]);
    InOrder(Scan([PRICE, CHANGE, LOWEST, HIGHEST, TIME, ""], HEADER_KEYWORDS).0, [Price, Change_, Low, High, Time]);
    InOrder(Scan([PRICE, CHANGE, HIGHEST, LOWEST, TIME, ""], HEADER_KEYWORDS).0, [Price, Change_, High, Low, Time]);
  }

  lemma {:induction false} InOrder(l: Layout, order: seq<Column>)
    requires |order| == 5 && forall i :: 0 <= i < 5 ==> At(l, order[i]) == i
    ensures order == [Price, Change_, Low, High, Time] ==> l == Layout(0, 1, 2, 3, 4)
    ensures order == [Price, Change_, High, Low, Time] ==> l == Layout(0, 1, 3, 2, 4)
  {
    assert At(l, order[0]) == 0 && At(l, order[1]) == 1 && At(l, order[2]) == 2;
    assert At(l, order[3]) == 3 && At(l, order[4]) == 4;
  }

  /** Without a header, or with fewer than three captions recognised, the columns stand in their historical order. */
  lemma {:induction false} PositionsWithoutHeader(table: Node, keywords: Keywords)
    requires table.Node?
    requires HeadCells(table) == [] || |Announcing(Texts(HeadCells(table)[1..]), keywords)| < 3
    ensures Head(table, keywords).1 == Layout(0, 1, 2, 3, 4)
  {
    if HeadCells(table) != [] { ScanIsLast(Texts(HeadCells(table)[1..]), keywords); }
  }

  // ----- where things are looked for -----

  /** The elements of s with that tag. */
  ghost function Tagged(s: seq<Node>, tag: string): seq<Node> {
    Select(s, (x: Node) => x.Node? && x.kind == Element && x.data == tag)
  }

  /** The first element with that tag below n, in document order. */
  ghost function FirstBelow(n: Node, tag: string): Node {
    if n.Nil? || Tagged(Preorder(n.firstChild), tag) == [] then Nil else Tagged(Preorder(n.firstChild), tag)[0]
  }

  ghost function ChildrenTagged(n: Node, tag: string): seq<Node> {
    if n.Nil? then [] else Tagged(Siblings(n.firstChild), tag)
  }

  lemma {:induction false} FoundIsFirst(n: Node, tag: string)
    requires n.Node?
    ensures Found(n, Tag(tag)) == FirstBelow(n, tag)
  {
    FindIsFirst(n.firstChild, Tag(tag));
    SelectAgrees(Preorder(n.firstChild), x => Hit(x, Tag(tag)),
                 (x: Node) => x.Node? && x.kind == Element && x.data == tag);
  }

  lemma {:induction false} KidsAreTagged(n: Node, tag: string)
    ensures Kids(n, Tag(tag)) == ChildrenTagged(n, tag)
  {
    if n.Node? {
      HitsAreSelected(Siblings(n.firstChild), Tag(tag));
      SelectAgrees(Siblings(n.firstChild), x => Hit(x, Tag(tag)),
                   (x: Node) => x.Node? && x.kind == Element && x.data == tag);
    }
  }

  /** The header cells are those of the first line of the first header section, and the first of them is the caption. */
  lemma {:induction false} HeaderIs(table: Node, keywords: Keywords)
    requires table.Node?
    ensures HeadCells(table) == ChildrenTagged(FirstBelow(FirstBelow(table, "thead"), "tr"), "th")
    ensures Head(table, keywords).0 == if HeadCells(table) == [] then "" else Clean(Text(HeadCells(table)[0]))
  {
    var head := Found(table, Tag("thead"));
    FoundIsFirst(table, "thead");
    if head.Node? {
      FoundIsFirst(head, "tr");
      KidsAreTagged(Found(head, Tag("tr")), "th");
    }
  }

  /** The market tables are the elements named table that have the word market-table among their classes. */
  lemma {:induction false} MarketTables(n: Node)
    requires n.Node?
    ensures Hit(n, TagClass("table", MARKET_TABLE_CLASS)) <==>
      n.kind == Element && n.data == "table" && "market-table" in Fields(Attr(n, "class"))
  {
  }

  // ----- lines -----

  /** The lines of a table are those of its bodies, body by body. */
  lemma {:induction false} LinesConcat(a: seq<Node>, b: seq<Node>)
    ensures Lines(a + b) == Lines(a) + Lines(b)
  {
    if b == [] {
      assert a + b == a;
    } else {
      var init, last := b[..|b| - 1], b[|b| - 1];
      LinesConcat(a, init);
      LinesSnoc(a + init, last);
      LinesSnoc(init, last);
      assert a + b == (a + init) + [last] && b == init + [last];
      Regroup(Lines(a), Lines(init), Kids(last, Tag("tr")));
    }
  }

  lemma {:induction false} Regroup(a: seq<Node>, b: seq<Node>, c: seq<Node>)
    ensures (a + b) + c == a + (b + c)
  {
  }

  lemma {:induction false} LinesSnoc(bodies: seq<Node>, body: Node)
    ensures Lines(bodies + [body]) == Lines(bodies) + Kids(body, Tag("tr"))
  {
    assert (bodies + [body])[..|bodies|] == bodies;
  }

  lemma {:induction false} RowsAround(first: seq<Node>, tr: Node, last: seq<Node>, read: Reader)
    ensures Rows(first + [tr] + last, read) ==
      Rows(first, read) + (match read(tr) case Some(row) => [row] case None => []) + Rows(last, read)
  {
    RowsConcat(first + [tr], last, read);
    RowsSnoc(first, tr, read);
  }

  lemma {:induction false} LinesAround(before: seq<Node>, body: Node, after: seq<Node>, i: nat)
    requires i < |ChildrenTagged(body, "tr")|
    ensures var trs := ChildrenTagged(body, "tr");
      Lines(before + [body] + after) == (Lines(before) + trs[..i]) + [trs[i]] + (trs[i + 1..] + Lines(after))
  {
    var trs := ChildrenTagged(body, "tr");
    KidsAreTagged(body, "tr");
    LinesConcat(before + [body], after);
    LinesSnoc(before, body);
    Around(Lines(before), trs, Lines(after), i);
  }

  lemma {:induction false} Around(a: seq<Node>, b: seq<Node>, c: seq<Node>, i: nat)
    requires i < |b|
    ensures a + b + c == (a + b[..i]) + [b[i]] + (b[i + 1..] + c)
  {
  }

  /** The rows of a table are those its lines give, in the order of its bodies and their lines. */
  lemma {:induction false} RowsAreOfLines(
      table: Node, keywords: Keywords, before: seq<Node>, body: Node, after: seq<Node>, i: nat)
    requires table.Node? && ChildrenTagged(table, "tbody") == before + [body] + after
    requires i < |ChildrenTagged(body, "tr")|
    ensures var trs, read := ChildrenTagged(body, "tr"), ReaderFor(Head(table, keywords).1);
      TableOf(table, keywords).rows ==
        Rows(Lines(before) + trs[..i], read)
        + (match read(trs[i]) case Some(row) => [row] case None => [])
        + Rows(trs[i + 1..] + Lines(after), read)
  {
    var trs := ChildrenTagged(body, "tr");
    KidsAreTagged(table, "tbody");
    LinesAround(before, body, after, i);
    RowsAround(Lines(before) + trs[..i], trs[i], trs[i + 1..] + Lines(after), ReaderFor(Head(table, keywords).1));
  }

  /** What a line that is a price says besides its columns, and which lines are prices. */
  lemma {:induction false} RowIdentity(tr: Node, cols: Layout)
    requires tr.Node?
    ensures var parsed := RowOf(tr, cols);
      var title := Clean(Text(FirstBelow(tr, "th")));
      var cells := ChildrenTagged(tr, "td");
      var link := if cells == [] then "" else Attr(FirstBelow(cells[|cells| - 1], "a"), "href");
      var own := Attr(tr, "data-market-nameslug");
      var slug := if own != "" then own else SlugFromHref(link);
      && (parsed.Some? <==> title != "" && slug != "")
      && (parsed.Some? ==> parsed.value.title == title && parsed.value.slug == slug && parsed.value.profile == link)
  {
    var th, cells := Found(tr, Tag("th")), Kids(tr, Tag("td"));
    FoundIsFirst(tr, "th");
    KidsAreTagged(tr, "td");
    KidsAreNodes(tr, Tag("td"));
    CleanFixes("");
    assert Text(Content(th)) == Text(th);
    LinkOf(cells);
  }

  lemma {:induction false} LinkOf(cells: seq<Node>)
    requires forall c :: c in cells ==> c.Node?
    ensures ProfileOf(Content(CellAt(cells, |cells| - 1))) ==
      if cells == [] then "" else Attr(FirstBelow(cells[|cells| - 1], "a"), "href")
  {
    if cells != [] {
      assert cells[|cells| - 1] in cells;
      FoundIsFirst(cells[|cells| - 1], "a");
    }
  }

  // ----- directions -----

  predicate IsDirection(token: string) {
    token == "low" || token == "high"
  }

  /** The first class token of a span that names a direction. */
  ghost predicate FirstDirection(spans: seq<Node>, i: nat, k: nat) {
    && i < |spans| && k < |Classes(spans[i])| && IsDirection(Classes(spans[i])[k])
    && (forall l :: 0 <= l < k ==> !IsDirection(Classes(spans[i])[l]))
    && (forall j, l :: 0 <= j < i && 0 <= l < |Classes(spans[j])| ==> !IsDirection(Classes(spans[j])[l]))
  }

  lemma {:induction false} FirstStatusAt(tokens: seq<string>, k: nat)
    requires k < |tokens| && IsDirection(tokens[k]) && forall l :: 0 <= l < k ==> !IsDirection(tokens[l])
    ensures FirstStatus(tokens) == tokens[k]
  {
    if k > 0 { FirstStatusAt(tokens[1..], k - 1); }
  }

  lemma {:induction false} NoStatus(tokens: seq<string>)
    requires forall l :: 0 <= l < |tokens| ==> !IsDirection(tokens[l])
    ensures FirstStatus(tokens) == ""
  {
    if tokens != [] { NoStatus(tokens[1..]); }
  }

  lemma {:induction false} FirstOfSpans(spans: seq<Node>, i: nat, k: nat)
    requires FirstDirection(spans, i, k)
    ensures FirstStatus(AllClasses(spans)) == Classes(spans[i])[k]
  {
    FirstStatusConcat(Classes(spans[0]), AllClasses(spans[1..]));
    if i == 0 {
      FirstStatusAt(Classes(spans[0]), k);
    } else {
      NoStatus(Classes(spans[0]));
      FirstOfSpans(spans[1..], i - 1, k);
    }
  }

  lemma {:induction false} NoneOfSpans(spans: seq<Node>)
    requires forall j, l :: 0 <= j < |spans| && 0 <= l < |Classes(spans[j])| ==> !IsDirection(Classes(spans[j])[l])
    ensures FirstStatus(AllClasses(spans)) == ""
  {
    if spans != [] {
      FirstStatusConcat(Classes(spans[0]), AllClasses(spans[1..]));
      NoStatus(Classes(spans[0]));
      NoneOfSpans(spans[1..]);
    }
  }

  lemma {:induction false} NoFirst(spans: seq<Node>, n: nat)
    requires n <= |spans| && forall i: nat, k: nat :: !FirstDirection(spans, i, k)
    ensures forall j, l :: 0 <= j < n && 0 <= l < |Classes(spans[j])| ==> !IsDirection(Classes(spans[j])[l])
  {
    if n > 0 {
      NoFirst(spans, n - 1);
      NoFirstToken(spans, n - 1, |Classes(spans[n - 1])|);
    }
  }

  lemma {:induction false} NoFirstToken(spans: seq<Node>, i: nat, n: nat)
    requires i < |spans| && n <= |Classes(spans[i])| && forall i: nat, k: nat :: !FirstDirection(spans, i, k)
    requires forall j, l :: 0 <= j < i && 0 <= l < |Classes(spans[j])| ==> !IsDirection(Classes(spans[j])[l])
    ensures forall l :: 0 <= l < n ==> !IsDirection(Classes(spans[i])[l])
  {
    if n > 0 {
      NoFirstToken(spans, i, n - 1);
      assert !FirstDirection(spans, i, n - 1);
    }
  }

  /** The direction of a cell is the first low or high among the class tokens of its spans, in order. */
  lemma {:induction false} StatusIsFirst(cell: Node, i: nat, k: nat)
    requires cell.Node? && FirstDirection(TopHits(cell.firstChild, Tag("span")), i, k)
    ensures Status(cell) == Classes(TopHits(cell.firstChild, Tag("span"))[i])[k]
  {
    FirstOfSpans(TopHits(cell.firstChild, Tag("span")), i, k);
  }

  /** A cell has a direction only if some span names one. */
  lemma {:induction false} StatusIsNone(cell: Node)
    requires cell.Node?
    requires forall i: nat, k: nat :: !FirstDirection(TopHits(cell.firstChild, Tag("span")), i, k)
    ensures Status(cell) == ""
  {
    var spans := TopHits(cell.firstChild, Tag("span"));
    NoFirst(spans, |spans|);
    NoneOfSpans(spans);
  }

  // ----- slugs -----

  lemma {:induction false} AfterLastIs(path: string, c: char, last: string)
    requires c !in last && (path == "" || path[|path| - 1] == c)
    ensures AfterLast(path + last, c) == last
  {
    if last == "" {
      assert path + last == path;
    } else {
      var init := last[..|last| - 1];
      assert last[|last| - 1] in last;
      AfterLastIs(path, c, init);
      assert (path + last)[..|path + last| - 1] == path + init;
      assert last == init + [last[|last| - 1]];
    }
  }

  lemma {:induction false} BeforeAnyIs(head: string, any: string, tail: string)
    requires (forall c :: c in head ==> c !in any) && (tail == "" || tail[0] in any)
    ensures BeforeAny(head + tail, any) == head
  {
    if head == "" {
      assert head + tail == tail;
    } else {
      assert head[0] in head && forall c :: c in head[1..] ==> c in head;
      BeforeAnyIs(head[1..], any, tail);
      assert (head + tail)[1..] == head[1..] + tail;
    }
  }

  /** A query or a fragment, or nothing. */
  predicate IsQuery(query: string) {
    '/' !in query && (query == "" || query[0] == '?' || query[0] == '#')
  }

  /**
   The slug of a link is what stands behind its last slash and before its query or fragment; a slash at the very end
   and white space around the link do not count.
   */
  lemma {:induction false} SlugOfLink(
      before: string, path: string, slug: string, query: string, slash: string, after: string)
    requires AllSpace(before) && AllSpace(after)
    requires path == "" || path[|path| - 1] == '/'
    requires slug != "" && '/' !in slug && '?' !in slug && '#' !in slug && IsQuery(query)
    requires slash == "" || slash == "/"
    requires var link := path + slug + query + slash; !IsSpace(link[0]) && !IsSpace(link[|link| - 1])
    ensures SlugFromHref(before + (path + slug + query + slash) + after) == slug
  {
    var name := slug + query;
    TrimSpaceIs(before, path + slug + query + slash, after);
    assert path + slug + query == path + name;
    WithoutSlash(path, name, slash);
    AfterLastIs(path, '/', name);
    BeforeAnyIs(slug, "?#", query);
  }

  lemma {:induction false} WithoutSlash(path: string, name: string, slash: string)
    requires name != "" && '/' !in name && (slash == "" || slash == "/")
    ensures TrimSuffix(path + name + slash, '/') == path + name
  {
    assert name[|name| - 1] in name;
    if slash == "" {
      assert path + name + "" == path + name;
    } else {
      TrimSuffixOf(path + name, "", '/');
    }
  }
}
