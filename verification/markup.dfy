/**
 The line classifier of the markup converter. A stripped line counts only when
 it opens with `#` and contains a second `#`; the text between the two, trimmed,
 is the line's content, and the content is sorted into one construct by fixed
 marker tests: the three heading tags, the two bullet envelopes, the `http`
 scheme, and plain content for everything else.
 */
module Markup {

  import opened Wrappers
  import opened Text

  /** Heading depth; bullets use `Main` and `Sub` only, as the emitters do. */
  datatype Level = Main | Sub | SubSub

  /** One recognised markup unit with its payload text. */
  datatype Construct =
    | Heading(level: Level, title: string)
    | MainBullet(text: string)
    | SubBullet(text: string)
    | Link(url: string)
    | Content(text: string)

  /** The tag that introduces a heading of each level. */
  function TagOf(level: Level): string {
    match level
    case Main => "Main Heading:"
    case Sub => "Sub Heading:"
    case SubSub => "Sub Sub Heading:"
  }

  /** Each tag is non-empty, has no edge whitespace and holds no `#`. */
  lemma TagShape(level: Level)
    ensures |TagOf(level)| >= 12 && '#' !in TagOf(level)
    ensures !IsWhitespace(TagOf(level)[0]) && !IsWhitespace(TagOf(level)[|TagOf(level)| - 1])
  {
    match level
    case Main =>
    case Sub =>
    case SubSub =>
  }

  predicate IsMainBullet(c: string) {
    StartsWith(c, "- ") && EndsWith(c, " -")
  }

  predicate IsSubBullet(c: string) {
    StartsWith(c, "-- ") && EndsWith(c, " --")
  }

  predicate IsLink(c: string) {
    StartsWith(c, "http")
  }

  /** No marker test accepts `c`: it is plain content. */
  predicate IsPlain(c: string) {
    && !StartsWith(c, TagOf(Main)) && !StartsWith(c, TagOf(Sub)) && !StartsWith(c, TagOf(SubSub))
    && !IsMainBullet(c) && !IsSubBullet(c) && !IsLink(c)
  }

  /** `t` opens with `#` and `k` is the position of the next `#`. */
  predicate ClosesAt(t: string, k: nat) {
    1 <= k < |t| && t[0] == '#' && t[k] == '#' && '#' !in t[1..k]
  }

  /** A stripped line that carries an envelope: a leading `#` and a later one. */
  predicate HasEnvelope(t: string) {
    |t| > 0 && t[0] == '#' && '#' in t[1..]
  }

  /**
   The content of a line's `# ... #` envelope, the text that the pattern
   `#\s*(.*?)\s*#` captures when matched at the start of the stripped line:
   the text between the opening `#` and the next `#`, trimmed. Anything after
   that second `#` is ignored, so the content never holds a `#`. This agrees
   with the pattern on every line without a `\n`, which includes every line
   `str.splitlines` yields; the pattern's `.` would not cross a `\n` inside the
   content, a case this definition does not single out.
   */
  function Envelope(line: string): (r: Option<string>)
    ensures r.Some? <==> HasEnvelope(Strip(line))
    ensures r.Some? ==> exists k: nat :: ClosesAt(Strip(line), k) && r.value == Strip(Strip(line)[1..k])
    ensures r.Some? ==> '#' !in r.value
  {
    var t := Strip(line);
    if |t| == 0 || t[0] != '#' then None
    else
      match IndexOf(t[1..], '#')
      case None => None
      case Some(k) =>
        assert t[1..][..k] == t[1..k + 1];
        assert ClosesAt(t, k + 1);
        var c := Strip(t[1..][..k]);
        assert '#' !in c by {
          var i: nat, j: nat := StripWitness(t[1..][..k]);
          assert c == t[1..][..k][i..j];
        }
        Some(c)
  }

  /** Stripping a line `lead#u#w` keeps its opening `#`, all of `u` and the second `#`. */
  lemma StripKeepsEnvelope(line: string, lead: string, u: string, w: string) returns (j: nat)
    requires line == lead + "#" + u + "#" + w && AllWhitespace(lead)
    ensures |u| + 2 <= j <= |u| + 2 + |w|
    ensures Strip(line) == ("#" + u + "#" + w)[..j]
  {
    var x := "#" + u + "#" + w;
    assert line == lead + x + [];
    StripPadded(lead, x, []);
    var i: nat;
    i, j := StripWitness(x);
    TrimmedAtStart(x, i, j, 0);
    assert x[|u| + 1] == '#';
    TrimmedAtEnd(x, i, j, |u| + 1);
  }

  /** A line of the shape `#u#w` behind leading whitespace has content `u`, trimmed. */
  lemma EnvelopeOfWrapped(line: string, lead: string, u: string, w: string)
    requires line == lead + "#" + u + "#" + w && AllWhitespace(lead) && '#' !in u
    ensures Envelope(line) == Some(Strip(u))
  {
    var j := StripKeepsEnvelope(line, lead, u, w);
    var t := ("#" + u + "#" + w)[..j];
    assert t[1..] == u + "#" + w[..j - |u| - 2];
    assert t[1..][..|u|] == u;
    IndexOfFirst(t[1..], '#', |u|);
  }

  /** A blank line, or one that is only whitespace, yields no content. */
  lemma BlankLineHasNoEnvelope(line: string)
    requires AllWhitespace(line)
    ensures Envelope(line) == None
  {
    assert TrimmedAt(line, |line|, |line|);
    StripAt(line, |line|, |line|);
  }

  /** The characters that tell the marker tests apart. */
  lemma MarkerHeads(c: string)
    ensures StartsWith(c, TagOf(Main)) ==> c[0] == 'M'
    ensures StartsWith(c, TagOf(Sub)) ==> c[0] == 'S' && c[4] == 'H'
    ensures StartsWith(c, TagOf(SubSub)) ==> c[0] == 'S' && c[4] == 'S'
    ensures IsMainBullet(c) ==> c[0] == '-' && c[1] == ' '
    ensures IsSubBullet(c) ==> c[0] == '-' && c[1] == '-'
    ensures IsLink(c) ==> c[0] == 'h'
  {
    if StartsWith(c, TagOf(Main)) { assert c[..13][0] == 'M'; }
    if StartsWith(c, TagOf(Sub)) { assert c[..12][0] == 'S' && c[..12][4] == 'H'; }
    if StartsWith(c, TagOf(SubSub)) { assert c[..16][0] == 'S' && c[..16][4] == 'S'; }
    if IsMainBullet(c) { assert c[..2][0] == '-' && c[..2][1] == ' '; }
    if IsSubBullet(c) { assert c[..3][0] == '-' && c[..3][1] == '-'; }
    if IsLink(c) { assert c[..4][0] == 'h'; }
  }

  /**
   The classification of an envelope's content, tests taken in the source's
   order: heading tags, main bullet, sub bullet, link, plain content. Heading
   titles lose EVERY copy of their tag (`str.replace`), not only the leading one;
   bullet text is the content without its two-character (main) or
   three-character (sub) markers, trimmed, and empty when the markers overlap.
   */
  function Dispatch(c: string): (r: Construct)
    ensures r.Heading? && r.level == Main <==> StartsWith(c, TagOf(Main))
    ensures r.Heading? && r.level == Sub <==> StartsWith(c, TagOf(Sub))
    ensures r.Heading? && r.level == SubSub <==> StartsWith(c, TagOf(SubSub))
    ensures r.Heading? ==> |r.title| + |TagOf(r.level)| <= |c|
    ensures r.MainBullet? <==> IsMainBullet(c)
    ensures r.MainBullet? ==> |r.text| + 3 <= |c|
    ensures r.SubBullet? <==> IsSubBullet(c)
    ensures r.SubBullet? ==> |r.text| + 5 <= |c|
    ensures r.Link? <==> IsLink(c)
    ensures r.Link? ==> r.url == c
    ensures r.Content? <==> IsPlain(c)
    ensures r.Content? ==> r.text == c
  {
    MarkerHeads(c);
    if StartsWith(c, TagOf(Main)) then Heading(Main, HeadingTitle(c, Main))
    else if StartsWith(c, TagOf(Sub)) then Heading(Sub, HeadingTitle(c, Sub))
    else if StartsWith(c, TagOf(SubSub)) then Heading(SubSub, HeadingTitle(c, SubSub))
    else if IsMainBullet(c) then MainBullet(BulletText(c, 2))
    else if IsSubBullet(c) then SubBullet(BulletText(c, 3))
    else if IsLink(c) then Link(c)
    else Content(c)
  }

  /** A heading's title: the content with every copy of the tag removed, trimmed. */
  function HeadingTitle(c: string, level: Level): (r: string)
    requires StartsWith(c, TagOf(level))
    ensures |r| + |TagOf(level)| <= |c|
  {
    var tag := TagOf(level);
    assert OccursAt(c, tag, 0);
    Strip(RemoveAll(c, tag))
  }

  /** A bullet's text: `c[width:-width]`, trimmed. */
  function BulletText(c: string, width: nat): (r: string)
    requires width > 0
    ensures |r| + 2 * width <= |c| || r == []
  {
    Strip(DropEnds(c, width, width))
  }

  /**
   The same tests taken in the reverse order. The marker tests exclude one
   another, so the order the source fixes never decides a classification.
   */
  function DispatchReversed(c: string): Construct {
    if IsLink(c) then Link(c)
    else if IsSubBullet(c) then SubBullet(BulletText(c, 3))
    else if IsMainBullet(c) then MainBullet(BulletText(c, 2))
    else if StartsWith(c, TagOf(SubSub)) then Heading(SubSub, HeadingTitle(c, SubSub))
    else if StartsWith(c, TagOf(Sub)) then Heading(Sub, HeadingTitle(c, Sub))
    else if StartsWith(c, TagOf(Main)) then Heading(Main, HeadingTitle(c, Main))
    else Content(c)
  }

  lemma DispatchOrderIrrelevant(c: string)
    ensures Dispatch(c) == DispatchReversed(c)
  {
    MarkerHeads(c);
  }

  /** The classification of one input line; `None` when the line has no envelope. */
  function ParseLine(line: string): (r: Option<Construct>)
    ensures r.None? <==> !HasEnvelope(Strip(line))
  {
    match Envelope(line)
    case None => None
    case Some(c) => Some(Dispatch(c))
  }

  /** `#u#`, with `u` free of `#`, is classified by its trimmed inside. */
  lemma ParseWrapped(u: string)
    requires '#' !in u
    ensures ParseLine("#" + u + "#") == Some(Dispatch(Strip(u)))
  {
    EnvelopeOfWrapped("#" + u + "#", [], u, []);
  }

  /** `- x -` is a main bullet whose text is exactly `x`, trimmed. */
  lemma MainBulletOf(x: string)
    ensures Dispatch("- " + x + " -") == MainBullet(Strip(x))
  {
    var c := "- " + x + " -";
    assert c[..2] == "- " && c[|c| - 2..] == " -";
    assert DropEnds(c, 2, 2) == x;
  }

  /** `-- x --` is a sub bullet whose text is exactly `x`, trimmed; it is never a main bullet. */
  lemma SubBulletOf(x: string)
    ensures Dispatch("-- " + x + " --") == SubBullet(Strip(x))
  {
    var c := "-- " + x + " --";
    assert c[..3] == "-- " && c[|c| - 3..] == " --";
    assert c[1] == '-';
    assert DropEnds(c, 3, 3) == x;
  }

  /** A tag followed by text free of further copies of the tag is a heading titled by that text. */
  lemma HeadingOf(level: Level, x: string)
    requires !Occurs(x, TagOf(level))
    ensures Dispatch(TagOf(level) + x) == Heading(level, Strip(x))
  {
    var c := TagOf(level) + x;
    assert c[..|TagOf(level)|] == TagOf(level);
    RemoveAllLeading(TagOf(level), x);
  }

  /** A tag followed by any text is a heading whose title is that text with every copy of the tag removed, trimmed. */
  lemma HeadingRemovesTags(level: Level, x: string)
    ensures Dispatch(TagOf(level) + x) == Heading(level, Strip(RemoveAll(x, TagOf(level))))
  {
    var c := TagOf(level) + x;
    assert c[..|TagOf(level)|] == TagOf(level);
    RemoveAllLeading(TagOf(level), x);
  }

  /** A line whose envelope holds `c` is classified by `c`. */
  lemma ParseLineOf(line: string, c: string)
    requires Envelope(line) == Some(c)
    ensures ParseLine(line) == Some(Dispatch(c))
  {
  }

  /** One space on either side of a trimmed string is stripped off again. */
  lemma StripSpaced(c: string)
    requires c == [] || (!IsWhitespace(c[0]) && !IsWhitespace(c[|c| - 1]))
    ensures Strip(" " + c + " ") == c
  {
    StripPadded(" ", c, " ");
    StripTrimmed(c);
  }

  /** The envelope of `# c #`, with `c` trimmed and free of `#`, is `c` itself. */
  lemma EnvelopeOfTrimmed(c: string)
    requires '#' !in c && (c == [] || (!IsWhitespace(c[0]) && !IsWhitespace(c[|c| - 1])))
    ensures Envelope("# " + c + " #") == Some(c)
  {
    EnvelopeOfWrapped("# " + c + " #", [], " " + c + " ", []);
    StripSpaced(c);
  }

  /** A line `# c #` whose `c` is already trimmed and free of `#` is classified by `c` itself. */
  lemma ParseTrimmedLine(c: string)
    requires '#' !in c && (c == [] || (!IsWhitespace(c[0]) && !IsWhitespace(c[|c| - 1])))
    ensures ParseLine("# " + c + " #") == Some(Dispatch(c))
  {
    EnvelopeOfTrimmed(c);
    ParseLineOf("# " + c + " #", c);
  }

  /** The trimmed content `<tag>x` is a heading titled `x`, trimmed, when `x` holds no copy of the tag. */
  lemma DispatchHeadingContent(level: Level, x: string)
    requires !Occurs(x, TagOf(level))
    ensures Dispatch(Strip(TagOf(level) + x)) == Heading(level, Strip(x))
  {
    var tag := TagOf(level);
    TagShape(level);
    var j := StripAfterPrefix(tag, x);
    if Occurs(x[..j], tag) {
      OccursInPrefix(x, tag, j);
    }
    HeadingOf(level, x[..j]);
  }

  /** `#<tag>x#` is a heading of the tag's level titled `x`, trimmed, when `x` holds no `#` and no copy of the tag. */
  lemma ParseHeadingLine(level: Level, x: string)
    requires '#' !in x && !Occurs(x, TagOf(level))
    ensures ParseLine("#" + TagOf(level) + x + "#") == Some(Heading(level, Strip(x)))
  {
    var tag := TagOf(level);
    var line := "#" + tag + x + "#";
    assert Envelope(line) == Some(Strip(tag + x)) by {
      TagShape(level);
      assert '#' !in tag + x;
      EnvelopeOfWrapped(line, [], tag + x, []);
    }
    DispatchHeadingContent(level, x);
    ParseLineOf(line, Strip(tag + x));
  }

  /** Whitespace between the opening `#` and the text is trimmed away with the rest. */
  lemma EnvelopeAfterLead(line: string, lead: string, v: string)
    requires line == "#" + lead + v + "#" && AllWhitespace(lead) && '#' !in v
    ensures Envelope(line) == Some(Strip(v))
  {
    assert '#' !in lead by {
      forall k | 0 <= k < |lead| ensures lead[k] != '#' {
        assert IsWhitespace(lead[k]);
      }
    }
    var u := lead + v;
    assert '#' !in u;
    assert line == [] + "#" + u + "#" + [];
    EnvelopeOfWrapped(line, [], u, []);
    assert u == lead + v + [];
    StripPadded(lead, v, []);
  }

  /**
   The usual spaced form `# <tag> x #`: whitespace between the opening `#` and
   the tag does not matter, and the title is `x`, trimmed, when `x` holds no `#`
   and no copy of the tag.
   */
  lemma ParseSpacedHeadingLine(level: Level, lead: string, x: string)
    requires AllWhitespace(lead) && '#' !in x && !Occurs(x, TagOf(level))
    ensures ParseLine("#" + lead + TagOf(level) + x + "#") == Some(Heading(level, Strip(x)))
  {
    var tag := TagOf(level);
    var line := "#" + lead + tag + x + "#";
    TagShape(level);
    assert '#' !in tag + x;
    assert line == "#" + lead + (tag + x) + "#";
    EnvelopeAfterLead(line, lead, tag + x);
    DispatchHeadingContent(level, x);
    ParseLineOf(line, Strip(tag + x));
  }

  /** `# - x - #` is a main bullet with text `x`, trimmed. */
  lemma ParseMainBulletLine(x: string)
    requires '#' !in x
    ensures ParseLine("# - " + x + " - #") == Some(MainBullet(Strip(x)))
  {
    var c := "- " + x + " -";
    assert "# - " + x + " - #" == "# " + c + " #";
    ParseTrimmedLine(c);
    MainBulletOf(x);
  }

  /** `# -- x -- #` is a sub bullet with text `x`, trimmed. */
  lemma ParseSubBulletLine(x: string)
    requires '#' !in x
    ensures ParseLine("# -- " + x + " -- #") == Some(SubBullet(Strip(x)))
  {
    var c := "-- " + x + " --";
    assert "# -- " + x + " -- #" == "# " + c + " #";
    ParseTrimmedLine(c);
    SubBulletOf(x);
  }
}
