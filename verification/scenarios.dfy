/**
 Whole-document consequences of the converter: what a line of each marker kind
 turns into, how the line boundaries of the input text split the document, and
 the edge cases of the marker tests.
 */
module Scenarios {

  import opened Wrappers
  import opened Text
  import opened Markup
  import opened Document
  import opened Builder

  /** Converting lines joined by newlines is converting the lines one by one. */
  lemma GenerateJoined(lines: seq<string>)
    requires forall k :: 0 <= k < |lines| ==> NoLineBreak(lines[k])
    requires lines == [] || lines[|lines| - 1] != []
    ensures Generate(JoinLines(lines)) == Build(lines)
  {
    SplitJoinLines(lines);
  }

  /** The document for the first line and the rest of a text: the first line's nodes come first and its heading is listed first. */
  lemma GenerateCons(line: string, rest: string)
    requires NoLineBreak(line)
    ensures Generate(line + "\n" + rest)
         == ItemNodes(ParseLine(line)) + Body(Parse(SplitLines(rest)))
            + [TocBlock(ItemEntries(ParseLine(line)) + Headings(Parse(SplitLines(rest))))]
  {
    SplitLinesCons(line, rest);
    BuildLinesAppend([line], SplitLines(rest));
    var item := Parse([line])[0];
    assert Parse([line]) == [item];
    assert Body([item]) == ItemNodes(item) + Body([]);
    assert Headings([item]) == ItemEntries(item) + Headings([]);
  }

  /** A line without a `# ... #` envelope adds nothing: not to the body, not to the table of contents. */
  lemma BuildUnmarkedLine(line: string)
    requires !HasEnvelope(Strip(line))
    ensures Build([line]) == [TocBlock([])]
  {
    BuildOneLine(line);
  }

  /**
   A heading line of any level: its node, a divider after main and sub
   headings only, and a table of contents listing it.
   */
  lemma BuildHeadingLine(level: Level, x: string)
    requires '#' !in x && !Occurs(x, TagOf(level))
    ensures var title := Strip(x);
      Build(["#" + TagOf(level) + x + "#"])
      == (if level == SubSub then [HeadingNodeOf(title, level)] else [HeadingNodeOf(title, level), Divider])
         + [TocBlock([TocEntry(title, level)])]
  {
    ParseHeadingLine(level, x);
    BuildLineOf("#" + TagOf(level) + x + "#", Heading(level, Strip(x)));
  }

  /** A link line `# u #`: one link paragraph carrying the whole content unchanged, and an empty table of contents. */
  lemma BuildLinkLine(u: string)
    requires IsLink(u) && '#' !in u && !IsWhitespace(u[|u| - 1])
    ensures Build(["# " + u + " #"]) == [LinkNodeOf(u), TocBlock([])]
  {
    assert u[0] == 'h';
    ParseTrimmedLine(u);
    BuildLineOf("# " + u + " #", Link(u));
  }

  /** A line `# c #` whose trimmed `c` passes no marker test: one content paragraph holding `c` as written. */
  lemma BuildContentLine(c: string)
    requires IsPlain(c) && '#' !in c && (c == [] || (!IsWhitespace(c[0]) && !IsWhitespace(c[|c| - 1])))
    ensures Build(["# " + c + " #"]) == [ContentNodeOf(c), TocBlock([])]
  {
    ParseTrimmedLine(c);
    BuildLineOf("# " + c + " #", Content(c));
  }

  /** An envelope holding only whitespace, `##` included, still matches: it adds an empty content paragraph. */
  lemma BuildBlankEnvelope(u: string)
    requires AllWhitespace(u)
    ensures Build(["#" + u + "#"]) == [ContentNodeOf([]), TocBlock([])]
  {
    var line := "#" + u + "#";
    ParseBlankEnvelope(line, u);
    BuildLineOf(line, Content([]));
    assert Emit(Content([])) == [ContentNodeOf([])];
    assert Record(Content([])) == [];
  }

  /** The content of a whitespace-only envelope is empty, which no marker test accepts. */
  lemma ParseBlankEnvelope(line: string, u: string)
    requires line == "#" + u + "#" && AllWhitespace(u)
    ensures ParseLine(line) == Some(Content([]))
  {
    assert '#' !in u by {
      forall k | 0 <= k < |u| ensures u[k] != '#' {
        assert IsWhitespace(u[k]);
      }
    }
    assert Strip(u) == [] by {
      StripAt(u, |u|, |u|);
    }
    ParseWrapped(u);
    assert Dispatch([]) == Content([]);
  }

  /** A bullet's node: the filled glyph and a 12 pt indent for main bullets, the hollow glyph and 24 pt for sub bullets. */
  lemma BulletNodes(x: string)
    ensures Emit(MainBullet(Strip(x))) == [BulletNode("\U{2022} " + Strip(x), Main, 12, BodyRun)]
    ensures Emit(SubBullet(Strip(x))) == [BulletNode("\U{25E6} " + Strip(x), Sub, 24, BodyRun)]
  {
    StripIdempotent(x);
  }

  /** A dash-led content without the closing ` -` is not a bullet: it is plain content, dash included. */
  lemma OpenDashIsContent(x: string)
    requires !EndsWith("- " + x, " -")
    ensures Dispatch("- " + x) == Content("- " + x)
  {
    var c := "- " + x;
    assert c[1] == ' ' && c[0] == '-';
    TagShape(Main);
    TagShape(Sub);
    TagShape(SubSub);
  }

  /** `-- x -` closes with a single dash, so it is plain content, dashes kept. */
  lemma HalfClosedSubIsContent(x: string)
    ensures Dispatch("-- " + x + " -") == Content("-- " + x + " -")
  {
    var c := "-- " + x + " -";
    assert c[0] == '-' && c[1] == '-' && c[|c| - 2] == ' ';
    TagShape(Main);
    TagShape(Sub);
    TagShape(SubSub);
  }

  /**
   A main bullet whose markers meet or overlap (`- -`, `-  -`) has empty
   text, and so has a sub bullet of at most six characters (`-- --`).
   */
  lemma ShortBulletIsEmpty(c: string)
    requires (IsMainBullet(c) && |c| <= 4) || (IsSubBullet(c) && |c| <= 6)
    ensures Dispatch(c) == if IsMainBullet(c) then MainBullet([]) else SubBullet([])
  {
    StripAt([], 0, 0);
  }

  /** A heading tag followed only by spaces makes a heading with an empty title, which still enters the table of contents. */
  lemma BlankTitleHeading(level: Level, x: string)
    requires AllWhitespace(x)
    ensures Build(["#" + TagOf(level) + x + "#"])
         == (if level == SubSub then [HeadingNodeOf([], level)] else [HeadingNodeOf([], level), Divider])
            + [TocBlock([TocEntry([], level)])]
  {
    TagShape(level);
    assert !Occurs(x, TagOf(level)) by {
      forall i: nat | i + |TagOf(level)| <= |x|
        ensures !OccursAt(x, TagOf(level), i)
      {
        assert IsWhitespace(x[i]);
      }
    }
    StripAt(x, |x|, |x|);
    BuildHeadingLine(level, x);
  }

  /** Removing the tag from ` <tag>x` leaves ` x`, which strips like `x`. */
  lemma TitleAfterSpacedTag(tag: string, x: string)
    requires |tag| > 0 && tag[0] != ' ' && !Occurs(x, tag)
    ensures Strip(RemoveAll(" " + tag + x, tag)) == Strip(x)
  {
    SpacedTagRemoved(tag, x);
    StripPadded(" ", x, []);
    assert " " + x + [] == " " + x;
  }

  /** Removing the tag from ` <tag>x` keeps the space and `x`. */
  lemma SpacedTagRemoved(tag: string, x: string)
    requires |tag| > 0 && tag[0] != ' ' && !Occurs(x, tag)
    ensures RemoveAll(" " + tag + x, tag) == " " + x
  {
    assert " " + tag + x == [' '] + (tag + x);
    RemoveAllKeep(' ', tag + x, tag);
    RemoveAllLeading(tag, x);
  }

  /** Every copy of the tag is removed from a heading's title, not only the leading one. */
  lemma RepeatedTagRemovedFromTitle(level: Level, x: string)
    requires !Occurs(x, TagOf(level))
    ensures Dispatch(TagOf(level) + (" " + TagOf(level) + x)) == Heading(level, Strip(x))
  {
    var tag := TagOf(level);
    TagShape(level);
    HeadingRemovesTags(level, " " + tag + x);
    TitleAfterSpacedTag(tag, x);
  }
}
