/**
 The styled nodes the converter appends to its document, one kind per emission
 helper (`add_heading`, `add_breaker`, `add_bullet`, `add_link`, `add_content`,
 `add_toc`), with the styling constants of each carried as plain data: point
 sizes, RGB colours, alignment, indentation, bullet glyphs and list styles.
 */
module Document {

  import Text
  import opened Markup

  /** A colour as the red, green and blue components (0 to 255) of an `RGBColor`. */
  datatype Rgb = Rgb(red: nat, green: nat, blue: nat)

  datatype Align = Left | Center

  /** The font of a text run. A run whose boldness is never set counts as not bold. */
  datatype RunStyle = RunStyle(bold: bool, sizePt: nat, color: Rgb, font: string)

  /** The built-in list paragraph styles used for the table of contents. */
  datatype ListStyle = ListBullet | ListBullet2 | ListBullet3

  /** A heading remembered for the table of contents. */
  datatype TocEntry = TocEntry(title: string, level: Level)

  /** One paragraph of the table of contents: a run of the title in a list style. */
  datatype TocLine = TocLine(title: string, bold: bool, style: ListStyle)

  datatype Node =
    | HeadingNode(text: string, level: Level, run: RunStyle, align: Align)
    | DividerNode(text: string, sizePt: nat, align: Align, spaceBeforePt: nat, spaceAfterPt: nat,
                  borderColor: Rgb, borderWidthPt: nat)
    | BulletNode(text: string, level: Level, indentPt: nat, run: RunStyle)
    | LinkNode(url: string, run: RunStyle, align: Align)
    | ContentNode(text: string, run: RunStyle, align: Align)
    | TocNode(pageBreak: bool, title: string, titleLevel: nat, titleAlign: Align, lines: seq<TocLine>)

  const Face := "Jojoba"
  const Grey := Rgb(166, 166, 166)

  /** The run used for body text and bullets: 12 pt grey. */
  const BodyRun := RunStyle(false, 12, Grey, Face)

  /** Main headings: bold 20 pt gold; sub headings: 16 pt white; sub-sub headings: bold 12 pt amber. */
  function HeadingRun(level: Level): RunStyle {
    match level
    case Main => RunStyle(true, 20, Rgb(236, 159, 5), Face)
    case Sub => RunStyle(false, 16, Rgb(255, 255, 255), Face)
    case SubSub => RunStyle(true, 12, Rgb(245, 187, 0), Face)
  }

  /** What `add_heading` appends: a paragraph holding the title, centred for main headings. */
  function HeadingNodeOf(title: string, level: Level): Node {
    HeadingNode(title, level, HeadingRun(level), if level == Main then Center else Left)
  }

  /** What `add_breaker` appends: a centred 1 pt space with a 2 pt grey bottom border. */
  const Divider: Node := DividerNode(" ", 1, Center, 0, 0, Grey, 2)

  /** Filled bullet for main bullets, hollow bullet for sub bullets. */
  function Glyph(level: Level): string {
    if level == Main then "\U{2022} " else "\U{25E6} "
  }

  /** What `add_bullet` appends: the glyph and the stripped text, indented 12 pt per level. */
  function BulletNodeOf(text: string, level: Level): Node
    requires level != SubSub
  {
    BulletNode(Glyph(level) + Text.Strip(text), level, if level == Main then 12 else 24, BodyRun)
  }

  /** What `add_link` appends: the URL as 12 pt blue text. */
  function LinkNodeOf(url: string): Node {
    LinkNode(url, RunStyle(false, 12, Rgb(0, 112, 192), Face), Left)
  }

  /** What `add_content` appends: the text as 12 pt grey body text. */
  function ContentNodeOf(text: string): Node {
    ContentNode(text, BodyRun, Left)
  }

  function ListStyleOf(level: Level): ListStyle {
    match level
    case Main => ListBullet
    case Sub => ListBullet2
    case SubSub => ListBullet3
  }

  function LevelOfStyle(style: ListStyle): Level {
    match style
    case ListBullet => Main
    case ListBullet2 => Sub
    case ListBullet3 => SubSub
  }

  /** One table-of-contents paragraph per entry, in order, bold, styled by the entry's level. */
  function TocLines(entries: seq<TocEntry>): (r: seq<TocLine>)
    ensures |r| == |entries|
    ensures forall i :: 0 <= i < |r| ==>
      r[i].bold && r[i].title == entries[i].title && LevelOfStyle(r[i].style) == entries[i].level
  {
    if |entries| == 0 then []
    else [TocLine(entries[0].title, true, ListStyleOf(entries[0].level))] + TocLines(entries[1..])
  }

  /** What `add_toc` appends: a page break, the centred level-1 title, then the entry paragraphs. */
  function TocBlock(entries: seq<TocEntry>): Node {
    TocNode(true, "Table of Contents", 1, Center, TocLines(entries))
  }

  /** The entries a table of contents lists, read back from its paragraphs. */
  function EntriesOf(lines: seq<TocLine>): seq<TocEntry> {
    if |lines| == 0 then []
    else [TocEntry(lines[0].title, LevelOfStyle(lines[0].style))] + EntriesOf(lines[1..])
  }

  /** The table of contents loses nothing: its entries can be read back from it. */
  lemma {:induction false} TocBlockRoundTrip(entries: seq<TocEntry>)
    ensures EntriesOf(TocBlock(entries).lines) == entries
  {
    if |entries| > 0 {
      TocBlockRoundTrip(entries[1..]);
      assert TocLines(entries)[1..] == TocLines(entries[1..]);
    }
  }
}
