/**
 The document builder: the line loop of `generate_document`. Each input line is
 classified; a recognised construct appends its nodes to the document and, for
 a heading, an entry to the table-of-contents list kept for this one call; after
 the last line the table-of-contents block is appended. The loop is a left fold
 threading the pair (nodes, table of contents).
 */
module Builder {

  import opened Wrappers
  import opened Text
  import opened Markup
  import opened Document

  /** A main or sub heading: the headings that `add_breaker` follows. */
  predicate Ruled(n: Node) {
    n.HeadingNode? && n.level != SubSub
  }

  /** The nodes one construct contributes, in order. */
  function Emit(c: Construct): (r: seq<Node>)
    ensures 1 <= |r| <= 2 && !r[0].DividerNode? && !r[0].TocNode?
    ensures |r| == 2 <==> c.Heading? && c.level != SubSub
    ensures |r| == 2 ==> Ruled(r[0]) && r[1].DividerNode?
    ensures r[0].HeadingNode? <==> c.Heading?
    ensures c.Heading? ==> r[0].text == c.title && r[0].level == c.level
    ensures c.MainBullet? ==> r[0].BulletNode? && r[0].level == Main && r[0].text == Glyph(Main) + Strip(c.text)
    ensures c.SubBullet? ==> r[0].BulletNode? && r[0].level == Sub && r[0].text == Glyph(Sub) + Strip(c.text)
    ensures c.Link? ==> r[0].LinkNode? && r[0].url == c.url
    ensures c.Content? ==> r[0].ContentNode? && r[0].text == c.text
  {
    match c
    case Heading(level, title) =>
      if level == SubSub then [HeadingNodeOf(title, level)] else [HeadingNodeOf(title, level), Divider]
    case MainBullet(text) => [BulletNodeOf(text, Main)]
    case SubBullet(text) => [BulletNodeOf(text, Sub)]
    case Link(url) => [LinkNodeOf(url)]
    case Content(text) => [ContentNodeOf(text)]
  }

  /** The table-of-contents entries one construct records: one per heading, none otherwise. */
  function Record(c: Construct): (r: seq<TocEntry>)
    ensures |r| == if c.Heading? then 1 else 0
  {
    if c.Heading? then [TocEntry(c.title, c.level)] else []
  }

  /** The state the line loop carries: the document so far and the table of contents so far. */
  datatype Acc = Acc(nodes: seq<Node>, toc: seq<TocEntry>)

  /** The classification of every line, in order. */
  function Parse(lines: seq<string>): (r: seq<Option<Construct>>)
    ensures |r| == |lines|
    ensures forall i :: 0 <= i < |r| ==> r[i] == ParseLine(lines[i])
  {
    if |lines| == 0 then [] else [ParseLine(lines[0])] + Parse(lines[1..])
  }

  /** One turn of the loop, on the line's classification: an unmatched line changes nothing. */
  function Step(acc: Acc, item: Option<Construct>): Acc {
    match item
    case None => acc
    case Some(c) => Acc(acc.nodes + Emit(c), acc.toc + Record(c))
  }

  /** The loop over all lines, from left to right. */
  function Fold(acc: Acc, items: seq<Option<Construct>>): Acc
    decreases |items|
  {
    if |items| == 0 then acc else Fold(Step(acc, items[0]), items[1..])
  }

  // Reference definitions: what each line contributes, concatenated line by line.

  function ItemNodes(item: Option<Construct>): seq<Node> {
    match item
    case None => []
    case Some(c) => Emit(c)
  }

  function ItemEntries(item: Option<Construct>): seq<TocEntry> {
    match item
    case None => []
    case Some(c) => Record(c)
  }

  function Body(items: seq<Option<Construct>>): seq<Node> {
    if |items| == 0 then [] else ItemNodes(items[0]) + Body(items[1..])
  }

  function Headings(items: seq<Option<Construct>>): seq<TocEntry> {
    if |items| == 0 then [] else ItemEntries(items[0]) + Headings(items[1..])
  }

  /** The fold appends exactly the per-line contributions to whatever it starts from. */
  lemma {:induction false} FoldIsConcat(acc: Acc, items: seq<Option<Construct>>)
    ensures Fold(acc, items) == Acc(acc.nodes + Body(items), acc.toc + Headings(items))
    decreases |items|
  {
    if |items| > 0 {
      var next := Step(acc, items[0]);
      assert next == Acc(acc.nodes + ItemNodes(items[0]), acc.toc + ItemEntries(items[0]));
      FoldIsConcat(next, items[1..]);
      assert acc.nodes + ItemNodes(items[0]) + Body(items[1..]) == acc.nodes + Body(items);
      assert acc.toc + ItemEntries(items[0]) + Headings(items[1..]) == acc.toc + Headings(items);
    }
  }

  /** No line contributes a table-of-contents block. */
  lemma {:induction false} BodyHasNoToc(items: seq<Option<Construct>>)
    ensures forall i :: 0 <= i < |Body(items)| ==> !Body(items)[i].TocNode?
  {
    if |items| > 0 {
      BodyHasNoToc(items[1..]);
      var head := ItemNodes(items[0]);
      assert forall i :: 0 <= i < |head| ==> !head[i].TocNode?;
      assert forall i :: |head| <= i < |Body(items)| ==> Body(items)[i] == Body(items[1..])[i - |head|];
    }
  }

  /**
   The document for classified lines: every recognised line's nodes in input
   order, then the table of contents listing every heading in input order; the
   table of contents is last and appears nowhere else, even for empty input.
   */
  function Assemble(items: seq<Option<Construct>>): (r: seq<Node>)
    ensures |r| >= 1 && r[|r| - 1] == TocBlock(Headings(items))
    ensures r[..|r| - 1] == Body(items)
    ensures forall i :: 0 <= i < |r| - 1 ==> !r[i].TocNode?
  {
    FoldIsConcat(Acc([], []), items);
    BodyHasNoToc(items);
    var acc := Fold(Acc([], []), items);
    assert acc.nodes == Body(items) && acc.toc == Headings(items);
    var r := acc.nodes + [TocBlock(acc.toc)];
    assert r[..|r| - 1] == acc.nodes;
    r
  }

  /** The document for a sequence of input lines. */
  function Build(lines: seq<string>): seq<Node> {
    Assemble(Parse(lines))
  }

  /** `generate_document`'s effect on its document: the nodes built from the text's lines. */
  function Generate(text: string): seq<Node> {
    Build(SplitLines(text))
  }

  /** Empty input gives a document holding only an empty table of contents. */
  lemma GenerateEmpty()
    ensures Generate("") == [TocBlock([])]
    ensures TocBlock([]).lines == []
  {
    var r := Assemble([]);
    assert r[..|r| - 1] == [];
  }

  /** Splitting the lines anywhere splits the document body and the table of contents there. */
  lemma {:induction false} BuildAppend(a: seq<Option<Construct>>, b: seq<Option<Construct>>)
    ensures Body(a + b) == Body(a) + Body(b)
    ensures Headings(a + b) == Headings(a) + Headings(b)
    decreases |a|
  {
    if |a| > 0 {
      assert (a + b)[0] == a[0];
      assert (a + b)[1..] == a[1..] + b;
      BuildAppend(a[1..], b);
    } else {
      assert a + b == b;
    }
  }

  /** The classification of two stretches of lines is the two classifications, one after the other. */
  lemma ParseAppend(a: seq<string>, b: seq<string>)
    ensures Parse(a + b) == Parse(a) + Parse(b)
  {
    assert forall i :: 0 <= i < |a| ==> (a + b)[i] == a[i];
    assert forall i :: |a| <= i < |a| + |b| ==> (a + b)[i] == b[i - |a|];
  }

  /**
   Order preservation: the document for `a + b` is the body for `a`, then the
   body for `b`, then one table of contents listing the headings of `a` and
   then those of `b`. Nothing from building one part leaks into the other.
   */
  lemma BuildLinesAppend(a: seq<string>, b: seq<string>)
    ensures Build(a + b) == Body(Parse(a)) + Body(Parse(b)) + [TocBlock(Headings(Parse(a)) + Headings(Parse(b)))]
  {
    ParseAppend(a, b);
    BuildAppend(Parse(a), Parse(b));
    var r := Build(a + b);
    assert r == r[..|r| - 1] + [r[|r| - 1]];
  }

  /** The document for a single classified line. */
  lemma AssembleOne(item: Option<Construct>)
    ensures Assemble([item]) == ItemNodes(item) + [TocBlock(ItemEntries(item))]
  {
    assert Body([item]) == ItemNodes(item) + Body([]);
    assert Headings([item]) == ItemEntries(item) + Headings([]);
    var r := Assemble([item]);
    assert r == r[..|r| - 1] + [r[|r| - 1]];
  }

  /** The document for a single line: that line's nodes, then a table of contents of its heading, if any. */
  lemma BuildOneLine(line: string)
    ensures Build([line]) == ItemNodes(ParseLine(line)) + [TocBlock(ItemEntries(ParseLine(line)))]
  {
    AssembleOne(Parse([line])[0]);
    assert Parse([line]) == [Parse([line])[0]];
  }

  /** The document for a single line the classifier reads as construct `c`. */
  lemma BuildLineOf(line: string, c: Construct)
    requires ParseLine(line) == Some(c)
    ensures Build([line]) == Emit(c) + [TocBlock(Record(c))]
  {
    BuildOneLine(line);
  }

  /** Divider rule: a divider sits right after a main or sub heading, and nowhere else. */
  predicate DividersPlaced(ns: seq<Node>) {
    forall i :: 0 <= i < |ns| ==> (ns[i].DividerNode? <==> RuledAt(ns, i - 1))
  }

  /** Position `j` of `ns` holds a main or sub heading. */
  predicate RuledAt(ns: seq<Node>, j: int) {
    0 <= j < |ns| && Ruled(ns[j])
  }

  /** A block of nodes that does not leave a main or sub heading waiting for its divider. */
  predicate Closed(ns: seq<Node>) {
    ns == [] || !Ruled(ns[|ns| - 1])
  }

  lemma DividersPlacedAppend(a: seq<Node>, b: seq<Node>)
    requires DividersPlaced(a) && Closed(a) && DividersPlaced(b) && Closed(b)
    ensures DividersPlaced(a + b) && Closed(a + b)
  {
    var s := a + b;
    forall i | 0 <= i < |s|
      ensures s[i].DividerNode? <==> RuledAt(s, i - 1)
    {
      if i < |a| {
        assert s[i] == a[i];
        if i > 0 { assert s[i - 1] == a[i - 1]; }
      } else if i == |a| {
        assert s[i] == b[0];
        if i > 0 { assert s[i - 1] == a[|a| - 1]; }
      } else {
        var j := i - |a|;
        assert s[i] == b[j] && s[i - 1] == b[j - 1];
      }
    }
    if b != [] {
      assert s[|s| - 1] == b[|b| - 1];
    } else {
      assert s == a;
    }
  }

  lemma {:induction false} BodyDividersPlaced(items: seq<Option<Construct>>)
    ensures DividersPlaced(Body(items)) && Closed(Body(items))
  {
    if |items| > 0 {
      var head := ItemNodes(items[0]);
      assert DividersPlaced(head) && Closed(head);
      BodyDividersPlaced(items[1..]);
      DividersPlacedAppend(head, Body(items[1..]));
    }
  }

  /**
   In every built document a divider follows each main and sub heading and
   appears nowhere else: never after a sub-sub heading, never first.
   */
  lemma BuildDividers(lines: seq<string>)
    ensures DividersPlaced(Build(lines))
  {
    var r := Build(lines);
    BodyDividersPlaced(Parse(lines));
    assert DividersPlaced([r[|r| - 1]]) && Closed([r[|r| - 1]]);
    DividersPlacedAppend(Body(Parse(lines)), [r[|r| - 1]]);
    assert r == Body(Parse(lines)) + [r[|r| - 1]];
  }

  /** The (title, level) of every heading node of a document, in order. */
  function HeadingEntries(ns: seq<Node>): seq<TocEntry> {
    if |ns| == 0 then []
    else (if ns[0].HeadingNode? then [TocEntry(ns[0].text, ns[0].level)] else []) + HeadingEntries(ns[1..])
  }

  lemma {:induction false} HeadingEntriesAppend(a: seq<Node>, b: seq<Node>)
    ensures HeadingEntries(a + b) == HeadingEntries(a) + HeadingEntries(b)
    decreases |a|
  {
    if |a| > 0 {
      assert (a + b)[0] == a[0];
      assert (a + b)[1..] == a[1..] + b;
      HeadingEntriesAppend(a[1..], b);
    } else {
      assert a + b == b;
    }
  }

  /** Each construct's heading nodes are exactly the entries it records. */
  lemma EmitHeadingEntries(c: Construct)
    ensures HeadingEntries(Emit(c)) == Record(c)
  {
    var r := Emit(c);
    if |r| == 2 {
      assert r[1..][1..] == [];
      assert HeadingEntries(r[1..]) == [] + HeadingEntries(r[1..][1..]);
    } else {
      assert r[1..] == [];
    }
  }

  lemma {:induction false} BodyHeadingEntries(items: seq<Option<Construct>>)
    ensures HeadingEntries(Body(items)) == Headings(items)
  {
    if |items| > 0 {
      var head := ItemNodes(items[0]);
      if items[0].Some? {
        EmitHeadingEntries(items[0].value);
      }
      BodyHeadingEntries(items[1..]);
      HeadingEntriesAppend(head, Body(items[1..]));
    }
  }

  /**
   The table of contents that closes a document lists exactly the document's
   heading nodes: one entry per heading of any level, same title, same level,
   same order.
   */
  lemma BuildTocListsHeadings(lines: seq<string>)
    ensures var r := Build(lines); r[|r| - 1] == TocBlock(HeadingEntries(r[..|r| - 1]))
    ensures var r := Build(lines); HeadingEntries(r) == HeadingEntries(r[..|r| - 1])
  {
    var r := Build(lines);
    BodyHeadingEntries(Parse(lines));
    assert r == r[..|r| - 1] + [r[|r| - 1]];
    HeadingEntriesAppend(r[..|r| - 1], [r[|r| - 1]]);
    assert HeadingEntries([r[|r| - 1]]) == [] + HeadingEntries([]);
  }
}
