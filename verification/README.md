# Note markup to styled document

This project models the converter `generate_document` in `code_exp1.py`. The
converter reads a plain-text note written in a small `# ... #` markup and turns
it into a word-processing document. It works in four steps:

1. It splits the note into lines (`str.splitlines`) and strips each line.
2. It keeps only lines that open with `#` and carry a second `#`. The text
   between the two, stripped, is the line's *content*.
3. It classifies the content. The first test that succeeds decides the kind:
   - main, sub or sub-sub heading (`Main Heading:`, `Sub Heading:` or
     `Sub Sub Heading:` prefix);
   - main bullet (`- ... -`);
   - sub bullet (`-- ... --`);
   - link (`http` prefix);
   - otherwise plain content.
4. It appends one styled paragraph per line (plus a divider after main and sub
   headings). It remembers every heading and ends the document with a table of
   contents that lists them.

The model is pure and functional:

- **`Text`** models the string primitives the converter relies on, with
  Python's meaning:
  - `str.strip` over the `str.isspace` character set;
  - `str.startswith` and `str.endswith`;
  - `str.replace(tag, '')`, which removes every occurrence;
  - the slices `[2:-2]` and `[3:-3]`, which give an empty string when the two
    ends overlap;
  - `str.splitlines` with all of Python's line boundaries, `"\r\n"` counted as
    one break and no empty last line.
- **`Markup`** models how one line is read:
  - `Envelope` is the anchored match of `#\s*(.*?)\s*#` against the stripped
    line, written as an index computation rather than a regular expression.
    It agrees with the pattern on every line without a `\n`, which includes
    every line `str.splitlines` yields;
  - `Dispatch` is the if/elif classification chain;
  - `ParseLine` composes the two.
- **`Document`** holds the paragraphs the emission helpers append
  (`add_heading`, `add_breaker`, `add_bullet`, `add_link`, `add_content` and
  `add_toc`) as plain data. This includes every style constant: point sizes,
  colours, alignment, indentation, glyphs and list styles.
- **`Builder`** models the fold over the lines. The accumulator is an explicit
  pair of the nodes emitted so far and the table-of-contents entries, in place
  of the closure-captured `doc` and `toc_entries`. It also models the final
  `add_toc`.
- **`Scenarios`** collects whole-document and edge-case consequences.

A line such as `# -- sub point - #` opens like a sub bullet but closes with a
single dash, so it is no bullet at all: it yields a content paragraph holding
`-- sub point -`, exactly the stripped text between the two `#`
(`Scenarios.HalfClosedSubIsContent`).

## Model

| member | source | states |
|---|---|---|
| Text.StripWitness | code_exp1.py:119 | `strip` removes exactly the whitespace before the first and after the last non-whitespace character: the result is the slice between two cut points with only whitespace outside them and non-whitespace at both inner ends, and that slice is the same for every such pair |
| Text.StripIdempotent | code_exp1.py:145 | stripping twice gives the same as stripping once, so `add_bullet`'s own `text.strip()` (lines 75 and 79) never changes the already stripped bullet text |
| Text.RemoveAll | code_exp1.py:128 | `replace(tag, '')` leaves the text unchanged exactly when the tag does not occur in it, and never makes it longer |
| Text.RemoveAllFirst | code_exp1.py:128 | `replace(tag, '')` deletes the first copy of the tag and keeps everything before it, then goes on after that copy; with the previous row this fixes the result as left-to-right deletion of non-overlapping copies |
| Text.DropEnds | code_exp1.py:145-150 | `content[2:-2]` and `content[3:-3]`: the content is the cut-off front, the result and the cut-off back, and the result is empty when the two ends overlap |
| Text.SplitLines | code_exp1.py:115 | no produced line contains a line boundary, and the result is empty exactly when the input is empty |
| Text.SplitJoinLines | code_exp1.py:115 | splitting the newline-join of break-free lines (the last one non-empty) gives those lines back |
| Markup.Envelope | code_exp1.py:119-124 | a stripped line matches the `# ... #` pattern exactly when it starts with `#` and has a second `#`; the captured content is the stripped text between the first two `#`, so it contains no `#` |
| Markup.EnvelopeOfWrapped | code_exp1.py:119-124 | leading whitespace before `#`, and anything after the second `#`, do not change the content: it is the stripped text between the two `#` |
| Markup.BlankLineHasNoEnvelope | code_exp1.py:119-123 | a blank or whitespace-only line matches nothing and is skipped |
| Markup.Dispatch | code_exp1.py:126-159 | each kind is chosen exactly when its test holds: heading level L iff the content starts with L's tag, main or sub bullet iff the content has both its opening and its closing dash marker, link iff it starts with `http`, plain content iff no test holds; links and content carry the text unchanged |
| Markup.DispatchOrderIrrelevant | code_exp1.py:127-159 | the tests are mutually exclusive: running the elif chain in reverse order classifies every content the same way |
| Markup.MarkerHeads | code_exp1.py:127-154 | the first characters each test needs, which are pairwise different; this is why the tests never overlap |
| Markup.ParseLine | code_exp1.py:118-124 | a line yields a construct exactly when its stripped form matches the `# ... #` pattern |
| Markup.ParseTrimmedLine | code_exp1.py:119-124 | the line `# c #`, for a trimmed `c` without `#`, is classified as `c` itself |
| Markup.HeadingRemovesTags | code_exp1.py:127-141 | a heading's title is the rest of the content with every further copy of the tag removed, then stripped |
| Markup.HeadingOf | code_exp1.py:127-141 | when the tag does not recur, the title is the stripped text after the tag |
| Markup.ParseHeadingLine | code_exp1.py:118-141 | the line `#<tag>x#` is a heading of the tag's level titled `strip(x)` |
| Markup.ParseSpacedHeadingLine | code_exp1.py:118-141 | the spaced line `# <tag> x #`, with any whitespace before the tag, is a heading of the tag's level titled `strip(x)` |
| Markup.EnvelopeAfterLead | code_exp1.py:119-124 | whitespace between the opening `#` and the text does not reach the content |
| Markup.MainBulletOf | code_exp1.py:144-146 | content `- x -` is a main bullet with text `strip(x)` |
| Markup.SubBulletOf | code_exp1.py:149-151 | content `-- x --` is a sub bullet with text `strip(x)` |
| Markup.ParseMainBulletLine | code_exp1.py:118-146 | the line `# - x - #` is a main bullet with text `strip(x)` |
| Markup.ParseSubBulletLine | code_exp1.py:118-151 | the line `# -- x -- #` is a sub bullet with text `strip(x)` |
| Markup.TagShape | code_exp1.py:127-139 | the three heading tags contain no `#` and neither start nor end with whitespace, so a tag can stand between the two `#` of a line |
| Document.TocLines | code_exp1.py:102-112 | one bold paragraph per entry, in order, with the entry's title, in the list style of the entry's level |
| Document.TocBlockRoundTrip | code_exp1.py:96-112 | the table of contents loses nothing: the title and level of every remembered heading can be read back from it, in order |
| Builder.Emit | code_exp1.py:126-159 | each construct appends one paragraph, and a heading paragraph exactly for headings; main and sub headings append a second paragraph, the divider (lines 130, 136), and sub-sub headings do not; a heading paragraph carries the title and level, a bullet paragraph the level's glyph and the stripped text, a link paragraph the whole content as its URL, a content paragraph the content unchanged |
| Builder.Record | code_exp1.py:47-62 | a construct adds one table-of-contents entry exactly when it is a heading |
| Builder.Parse | code_exp1.py:118-124 | the lines are read independently: the i-th result is the i-th line's parse |
| Builder.FoldIsConcat | code_exp1.py:118-159 | the per-line fold appends the nodes and the entries of each line in input order, so the document body is the concatenation of the lines' paragraphs |
| Builder.BodyHasNoToc | code_exp1.py:118-159 | no line of input produces a table of contents |
| Builder.Assemble | code_exp1.py:118-162 | the document is the body followed by exactly one table of contents, last, listing the headings in order |
| Builder.GenerateEmpty | code_exp1.py:115-162 | an empty note yields a document holding only a table of contents with no entries |
| Builder.BuildAppend | code_exp1.py:118-159 | the body and the headings of two concatenated runs of lines are the concatenations of each run's |
| Builder.ParseAppend | code_exp1.py:118-124 | parsing two runs of lines one after the other is parsing each run |
| Builder.BuildLinesAppend | code_exp1.py:118-162 | the document of two runs of lines is the first run's body, then the second's, then one table of contents over both runs' headings |
| Builder.BuildOneLine | code_exp1.py:118-162 | a one-line note yields that line's paragraphs followed by a table of contents of its headings |
| Builder.BuildLineOf | code_exp1.py:118-162 | a one-line note with construct c yields c's paragraphs and a table of contents of c's entry |
| Builder.DividersPlacedAppend | code_exp1.py:126-141 | divider placement survives concatenation of bodies that do not end in a main or sub heading |
| Builder.BodyDividersPlaced | code_exp1.py:126-159 | in the body, a divider sits exactly at the positions directly after a main or sub heading |
| Builder.BuildDividers | code_exp1.py:126-162 | in the whole document, a paragraph is a divider exactly when the paragraph before it is a main or sub heading |
| Builder.HeadingEntriesAppend | code_exp1.py:37-62 | the headings read off two documents in sequence are those of the first, then those of the second |
| Builder.EmitHeadingEntries | code_exp1.py:37-62 | the heading paragraph a construct emits carries the title and level that `add_heading` remembers |
| Builder.BodyHeadingEntries | code_exp1.py:37-62 | the remembered entries are exactly the heading paragraphs of the body, in order |
| Builder.BuildTocListsHeadings | code_exp1.py:96-162 | the final table of contents lists exactly the heading paragraphs that precede it, in document order, and contains no heading paragraph itself |
| Scenarios.GenerateJoined | code_exp1.py:115-162 | converting the newline-join of break-free lines processes those lines one by one |
| Scenarios.GenerateCons | code_exp1.py:115-162 | the first line of a note is processed before the rest: its paragraphs come first and its headings head the table of contents |
| Scenarios.BuildUnmarkedLine | code_exp1.py:122-123 | a line without the `# ... #` markup adds nothing but an empty table of contents |
| Scenarios.BuildHeadingLine | code_exp1.py:37-62 | a heading line yields the heading paragraph styled for its level, a divider iff it is not a sub-sub heading, and a table of contents with its single entry |
| Scenarios.BuildLinkLine | code_exp1.py:88-94 | a line `# http... #` yields one 12 pt blue link paragraph carrying the whole content, and an empty table of contents |
| Scenarios.BuildContentLine | code_exp1.py:64-70 | a line whose content passes no marker test yields one 12 pt grey content paragraph holding the content as written, and an empty table of contents |
| Scenarios.BuildBlankEnvelope | code_exp1.py:122-159 | an envelope holding only whitespace, `##` included, still matches and adds an empty content paragraph |
| Scenarios.ParseBlankEnvelope | code_exp1.py:122-124 | the content of a whitespace-only envelope is empty, and empty content is plain content |
| Scenarios.BulletNodes | code_exp1.py:72-86 | bullets are a 12 pt grey run with a filled glyph and 12 pt indent (main) or a hollow glyph and 24 pt indent (sub) |
| Scenarios.OpenDashIsContent | code_exp1.py:144 | a dash-opened content without the closing ` -` is plain content, unchanged |
| Scenarios.HalfClosedSubIsContent | code_exp1.py:149-159 | `-- x -` (sub opener, main closer) is plain content, kept exactly as written |
| Scenarios.ShortBulletIsEmpty | code_exp1.py:145-150 | a bullet so short that its markers overlap has empty text, following Python slicing |
| Scenarios.BlankTitleHeading | code_exp1.py:127-141 | a heading whose title is only whitespace still yields a heading with empty title and enters the table of contents |
| Scenarios.TitleAfterSpacedTag | code_exp1.py:128 | removing a tag repeated after a space leaves the same stripped title |
| Scenarios.RepeatedTagRemovedFromTitle | code_exp1.py:128-141 | a heading whose tag is repeated keeps only the text after the repeat as its title |

## Left out

- `gui_notes_maker.py`, the Streamlit web page that collects the note and calls the converter, is not part of this model.
- Writing the file (`doc.save`, line 165) and the output path are left out: I/O.
- The page margins (lines 11-17) are left out. They are a property of the document section, not of any paragraph the note produces.
- The python-docx objects are reduced to plain data: paragraph, run, page break and heading style become fields of `Document.Node`. Fonts, the page break and the level-1 heading are recorded but not rendered.
- The regular expression engine is replaced by an index-based definition of what this one pattern captures (`Markup.Envelope`).
- Markup.Envelope: the pattern's `.` does not match `\n`, so `re.match` fails on a line such as `#a\nb#`, which the model still reads as content `a\nb`. No line that `str.splitlines` yields contains a `\n` (`Text.SplitLines`), so the documents `Builder.Generate` produces are unaffected; only `Markup.ParseLine` and `Builder.Build` called directly on such a line differ.
- Text.Strip: its own contract only bounds the length of the result. The exact characterisation is stated by `Text.StripWitness`.
- Builder.Build and Builder.Generate have no contract of their own. Their properties are stated by the lemmas about them (`Builder.Assemble`, `Builder.BuildDividers`, `Builder.BuildTocListsHeadings`, `Scenarios.GenerateJoined`).
- Markup.HeadingTitle and Markup.BulletText: their own contracts only bound the length of the result. The titles and bullet texts are stated where the classification uses them, by `Markup.HeadingRemovesTags`, `Markup.MainBulletOf`, `Markup.SubBulletOf` and `Scenarios.ShortBulletIsEmpty`.
- Document.HeadingNodeOf, Document.BulletNodeOf, Document.LinkNodeOf, Document.ContentNodeOf and Document.TocBlock build the paragraphs of `add_heading`, `add_bullet`, `add_link`, `add_content` and `add_toc` and carry no contract of their own. The paragraphs they build are stated by `Scenarios.BuildHeadingLine`, `Scenarios.BulletNodes`, `Scenarios.BuildLinkLine`, `Scenarios.BuildContentLine`, `Document.TocLines` and `Document.TocBlockRoundTrip`.
- Builder.Step and Builder.Fold, one turn of the line loop and the loop itself, carry no contract of their own. `Builder.FoldIsConcat` states what the loop computes.
- Python `str` is a sequence of code points and is modelled as `seq<char>`. Characters outside Dafny's `char` range are not represented.
