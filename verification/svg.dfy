/**
  The two renderers of a letter: `generateSVGString` of src/components/svg-download.tsx,
  which writes the SVG file, and `renderPreviewSections` of
  src/components/preview-sections.tsx, which draws the on-screen preview. Both visit
  the sections in the order topLeft, topRight, body, skip those the paper size does not
  show, lay each out with `formatText`, and place line `i` of a section at a fixed
  position. The model builds the document as a tree rather than as text.
 */
module Svg {
  import opened Results
  import opened Strings
  import opened Templates
  import opened Paper
  import opened Layout
  import opened Escape

  const LineHeightTop := 24
  const LineHeightBody := 26
  const TopY := 80
  const FontFamily := "Brush Script MT, cursive"
  const TextFill := "#333"

  /** `text-anchor`: the default start, or `end` for the right-aligned header. */
  datatype Anchor = Start | End

  /** One `<text>` element: a line of the letter at a position. */
  datatype TextElement = TextElement(x: int, y: int, anchor: Anchor, fontSize: int, fontFamily: string, fill: string, content: string)

  /** One `<g>` element holding a section's lines; `id` is the export's group id, or the preview's React key. */
  datatype Group = Group(section: Section, id: string, texts: seq<TextElement>)

  /** The white page behind the text. */
  datatype Rect = Rect(width: int, height: int, fill: string)

  /** The exported `<svg>` root. */
  datatype SvgDocument = SvgDocument(width: int, height: int, viewBox: seq<int>, background: Rect, groups: seq<Group>)

  /** Where line `index` of a section goes: x, y and anchor. */
  datatype Position = Position(x: int, y: int, anchor: Anchor)

  /** The line placement both renderers share: the right-hand header hangs off the right margin, the other two start at the left margin. */
  function LinePosition(s: Section, index: int, width: int, bodyStartY: int): (p: Position)
    ensures p.anchor == End <==> s == TopRight
    ensures s == TopRight ==> p.x + MarginRight == width
    ensures s != TopRight ==> p.x == MarginLeft
  {
    match s
    case TopLeft => Position(MarginLeft, TopY + index * LineHeightTop, Start)
    case TopRight => Position(width - MarginRight, TopY + index * LineHeightTop, End)
    case Body => Position(MarginLeft, bodyStartY + index * LineHeightBody, Start)
  }

  /** Within a section, lines go straight down at the section's line height, from its first line. */
  lemma LinesStackDown(s: Section, i: int, j: int, width: int, bodyStartY: int)
    requires 0 <= i < j
    ensures LinePosition(s, i, width, bodyStartY).x == LinePosition(s, j, width, bodyStartY).x
    ensures LinePosition(s, i, width, bodyStartY).y < LinePosition(s, j, width, bodyStartY).y
    ensures LinePosition(s, j, width, bodyStartY).y - LinePosition(s, i, width, bodyStartY).y
      == (j - i) * (if s == Body then LineHeightBody else LineHeightTop)
    ensures LinePosition(s, 0, width, bodyStartY).y == (if s == Body then bodyStartY else TopY)
  {
  }

  lemma SectionCases(s: Section)
    ensures s == TopLeft || s == TopRight || s == Body
  {
  }

  /** The sections the paper size shows, in the order the renderers test them. */
  function ActiveSections(fields: seq<Section>): (r: seq<Section>)
    ensures forall s :: s in r <==> s in fields
    ensures InCanonicalOrder(r)
  {
    var r := (if TopLeft in fields then [TopLeft] else [])
      + (if TopRight in fields then [TopRight] else [])
      + (if Body in fields then [Body] else []);
    assert forall s :: s in fields ==> s in r by {
      forall s | s in fields
        ensures s in r
      {
        SectionCases(s);
      }
    }
    r
  }

  /** The configured field lists are already in that order. */
  lemma ActiveSectionsOfConfig(p: PaperSize)
    ensures ActiveSections(Config(p).fields) == Config(p).fields
  {
  }

  /** `formatText(letterData[s], currentData, s, width)`. */
  function SectionLines(s: Section, letter: LetterData, data: map<string, string>, width: int): Option<seq<string>> {
    FormatText(letter.Get(s), data, s.Name(), width)
  }

  /** The export's group ids. */
  function ExportId(s: Section): string {
    match s
    case TopLeft => "top-left"
    case TopRight => "top-right"
    case Body => "body"
  }

  function MakeText(pos: Position, content: string): TextElement {
    TextElement(pos.x, pos.y, pos.anchor, FontSize, FontFamily, TextFill, content)
  }

  /** A group's `<text>` elements, line `i` at its position, its content passed through `escapeXml`. */
  function ExportTexts(s: Section, lines: seq<string>, width: int, bodyStartY: int): (r: seq<TextElement>)
    ensures |r| == |lines|
  {
    seq(|lines|, i requires 0 <= i < |lines| => MakeText(LinePosition(s, i, width, bodyStartY), EscapeXml(lines[i])))
  }

  /** The preview's `<text>` elements: the same positions, the line itself as content. */
  function PreviewTexts(s: Section, lines: seq<string>, width: int, bodyStartY: int): (r: seq<TextElement>)
    ensures |r| == |lines|
  {
    seq(|lines|, i requires 0 <= i < |lines| => MakeText(LinePosition(s, i, width, bodyStartY), lines[i]))
  }

  /** Every listed section's layout returns. */
  predicate AllLaidOut(sections: seq<Section>, letter: LetterData, data: map<string, string>, width: int) {
    forall k :: 0 <= k < |sections| ==> SectionLines(sections[k], letter, data, width).Some?
  }

  /** The export's group for section `s` with the given lines. */
  function ExportGroup(s: Section, lines: seq<string>, width: int, bodyStartY: int): Group {
    Group(s, ExportId(s), ExportTexts(s, lines, width, bodyStartY))
  }

  /** The preview's group for section `s`, keyed by the section's name. */
  function PreviewGroup(s: Section, lines: seq<string>, width: int, bodyStartY: int): Group {
    Group(s, s.Name(), PreviewTexts(s, lines, width, bodyStartY))
  }

  /** The export's groups for the sections, in the order given; `None` when a layout does not return. */
  function ExportGroups(sections: seq<Section>, config: PaperTypeConfig, letter: LetterData, data: map<string, string>, width: int): (r: Option<seq<Group>>)
    ensures r.Some? <==> AllLaidOut(sections, letter, data, width)
    ensures r.Some? ==> |r.value| == |sections| && forall k :: 0 <= k < |sections| ==> r.value[k].section == sections[k]
  {
    if AllLaidOut(sections, letter, data, width) then
      Some(seq(|sections|, k requires 0 <= k < |sections| =>
        ExportGroup(sections[k], SectionLines(sections[k], letter, data, width).value, width, config.bodyStartY)))
    else None
  }

  /** The preview's groups for the sections, in the order given. */
  function PreviewGroups(sections: seq<Section>, config: PaperTypeConfig, letter: LetterData, data: map<string, string>, width: int): (r: Option<seq<Group>>)
    ensures r.Some? <==> AllLaidOut(sections, letter, data, width)
    ensures r.Some? ==> |r.value| == |sections| && forall k :: 0 <= k < |sections| ==> r.value[k].section == sections[k]
  {
    if AllLaidOut(sections, letter, data, width) then
      Some(seq(|sections|, k requires 0 <= k < |sections| =>
        PreviewGroup(sections[k], SectionLines(sections[k], letter, data, width).value, width, config.bodyStartY)))
    else None
  }

  /** `generateSVGString`: the page size, a white background, then one group per shown section. */
  function GenerateSvg(config: PaperTypeConfig, width: int, height: int, letter: LetterData, data: map<string, string>): (r: Option<SvgDocument>)
    ensures r.Some? ==> r.value.width == width && r.value.height == height
    ensures r.Some? ==> r.value.viewBox == [0, 0, width, height] && r.value.background == Rect(width, height, "white")
    ensures r.Some? ==> |r.value.groups| == |ActiveSections(config.fields)|
    ensures r.Some? ==> forall k :: 0 <= k < |r.value.groups| ==> r.value.groups[k].section in config.fields
    ensures r.Some? ==> forall k :: 0 <= k < |r.value.groups| ==> r.value.groups[k].section == ActiveSections(config.fields)[k]
  {
    match ExportGroups(ActiveSections(config.fields), config, letter, data, width)
    case None => None
    case Some(groups) => Some(SvgDocument(width, height, [0, 0, width, height], Rect(width, height, "white"), groups))
  }

  /** `renderPreviewSections()`. */
  function PreviewSections(config: PaperTypeConfig, letter: LetterData, data: map<string, string>, width: int): (r: Option<seq<Group>>)
    ensures r.Some? ==> |r.value| == |ActiveSections(config.fields)|
    ensures r.Some? ==> forall k :: 0 <= k < |r.value| ==> r.value[k].section == ActiveSections(config.fields)[k]
  {
    PreviewGroups(ActiveSections(config.fields), config, letter, data, width)
  }

  /** A preview group and an export group agree: same section, same lines at the same places, the exported text being the escaped preview text. */
  predicate GroupsMatch(preview: Group, exported: Group) {
    && preview.section == exported.section
    && |preview.texts| == |exported.texts|
    && forall i :: 0 <= i < |exported.texts| ==>
      && exported.texts[i].(content := "") == preview.texts[i].(content := "")
      && exported.texts[i].content == EscapeXml(preview.texts[i].content)
      && Unescape(exported.texts[i].content) == preview.texts[i].content
  }

  /** The two renderers draw the same lines of a section alike, up to escaping. */
  lemma GroupMatches(s: Section, lines: seq<string>, width: int, bodyStartY: int)
    ensures GroupsMatch(PreviewGroup(s, lines, width, bodyStartY), ExportGroup(s, lines, width, bodyStartY))
  {
    forall i | 0 <= i < |lines| {
      UnescapeEscape(lines[i]);
    }
  }

  /**
    The preview and the export agree: both return or neither does, they hold the same
    sections in the same order with the same number of lines at the same positions, and
    each exported line is the escaped preview line, which decodes back to it.
   */
  lemma PreviewMatchesExport(config: PaperTypeConfig, width: int, height: int, letter: LetterData, data: map<string, string>)
    ensures PreviewSections(config, letter, data, width).Some? <==> GenerateSvg(config, width, height, letter, data).Some?
    ensures GenerateSvg(config, width, height, letter, data).Some? ==>
      var preview := PreviewSections(config, letter, data, width).value;
      var groups := GenerateSvg(config, width, height, letter, data).value.groups;
      && |preview| == |groups|
      && forall k :: 0 <= k < |groups| ==> GroupsMatch(preview[k], groups[k])
  {
    var sections := ActiveSections(config.fields);
    if AllLaidOut(sections, letter, data, width) {
      var e := ExportGroups(sections, config, letter, data, width).value;
      var p := PreviewGroups(sections, config, letter, data, width).value;
      forall k | 0 <= k < |e|
        ensures GroupsMatch(p[k], e[k])
      {
        GroupMatches(sections[k], SectionLines(sections[k], letter, data, width).value, width, config.bodyStartY);
      }
    }
  }

  /** Every exported line is well-formed character data. */
  lemma ExportTextIsWellEscaped(config: PaperTypeConfig, width: int, height: int, letter: LetterData, data: map<string, string>, k: int, i: int)
    requires GenerateSvg(config, width, height, letter, data).Some?
    requires 0 <= k < |GenerateSvg(config, width, height, letter, data).value.groups|
    requires 0 <= i < |GenerateSvg(config, width, height, letter, data).value.groups[k].texts|
    ensures WellEscaped(GenerateSvg(config, width, height, letter, data).value.groups[k].texts[i].content)
  {
    var sections := ActiveSections(config.fields);
    var lines := SectionLines(sections[k], letter, data, width).value;
    EscapeXmlWellEscaped(lines[i]);
  }

  /** For every paper size in the table, both renderers return, whatever the letter and the record. */
  lemma RenderersTerminate(p: PaperSize, letter: LetterData, data: map<string, string>)
    ensures GenerateSvg(Config(p), Dimensions(p).width, Dimensions(p).height, letter, data).Some?
    ensures PreviewSections(Config(p), letter, data, Dimensions(p).width).Some?
  {
    var sections := ActiveSections(Config(p).fields);
    ActiveSectionsOfConfig(p);
    forall k | 0 <= k < |sections|
      ensures SectionLines(sections[k], letter, data, Dimensions(p).width).Some?
    {
      assert sections[k] in Config(p).fields;
      FormatTextTerminates(p, sections[k], letter.Get(sections[k]), data);
    }
    assert AllLaidOut(sections, letter, data, Dimensions(p).width);
  }

  /** Each exported group holds the lines of its own section only: editing another section leaves it as it was. */
  lemma GroupDependsOnOwnSection(config: PaperTypeConfig, width: int, height: int, letter: LetterData, data: map<string, string>, s: Section, v: string, k: int)
    requires GenerateSvg(config, width, height, letter, data).Some?
    requires GenerateSvg(config, width, height, letter.With(s, v), data).Some?
    requires 0 <= k < |GenerateSvg(config, width, height, letter, data).value.groups|
    requires GenerateSvg(config, width, height, letter, data).value.groups[k].section != s
    ensures GenerateSvg(config, width, height, letter.With(s, v), data).value.groups[k]
      == GenerateSvg(config, width, height, letter, data).value.groups[k]
  {
    var sections := ActiveSections(config.fields);
    var edited := letter.With(s, v);
    var t := sections[k];
    assert GenerateSvg(config, width, height, letter, data).value.groups
      == ExportGroups(sections, config, letter, data, width).value;
    assert GenerateSvg(config, width, height, edited, data).value.groups
      == ExportGroups(sections, config, edited, data, width).value;
    assert t != s && edited.Get(t) == letter.Get(t);
    assert SectionLines(t, edited, data, width) == SectionLines(t, letter, data, width);
    assert ExportGroups(sections, config, edited, data, width).value[k]
      == ExportGroups(sections, config, letter, data, width).value[k];
  }

  /** Line `i` of the `k`-th exported group is line `i` of its section's layout, escaped, at its position. */
  lemma ExportPlacement(config: PaperTypeConfig, width: int, height: int, letter: LetterData, data: map<string, string>, k: int)
    requires GenerateSvg(config, width, height, letter, data).Some?
    requires 0 <= k < |GenerateSvg(config, width, height, letter, data).value.groups|
    ensures var g := GenerateSvg(config, width, height, letter, data).value.groups[k];
      var lines := FormatText(letter.Get(g.section), data, g.section.Name(), width).value;
      && g.section in config.fields
      && g.id == ExportId(g.section)
      && |g.texts| == |lines|
      && forall i :: 0 <= i < |lines| ==>
        && g.texts[i].content == EscapeXml(lines[i])
        && g.texts[i].fontSize == FontSize
        && Position(g.texts[i].x, g.texts[i].y, g.texts[i].anchor) == LinePosition(g.section, i, width, config.bodyStartY)
  {
    var sections := ActiveSections(config.fields);
    var groups := ExportGroups(sections, config, letter, data, width).value;
    var lines := SectionLines(sections[k], letter, data, width).value;
    assert groups[k] == ExportGroup(sections[k], lines, width, config.bodyStartY);
    ExportGroupPlacement(sections[k], lines, width, config.bodyStartY);
  }

  /** Line `i` of an export group is line `i` of its lines, escaped, at 16px, at its position. */
  lemma ExportGroupPlacement(s: Section, lines: seq<string>, width: int, bodyStartY: int)
    ensures var g := ExportGroup(s, lines, width, bodyStartY);
      && |g.texts| == |lines|
      && forall i :: 0 <= i < |lines| ==>
        && g.texts[i].content == EscapeXml(lines[i])
        && g.texts[i].fontSize == FontSize
        && Position(g.texts[i].x, g.texts[i].y, g.texts[i].anchor) == LinePosition(s, i, width, bodyStartY)
  {
  }

  /** A text that is one short, non-blank line after substitution is laid out as that single line. */
  lemma SingleLineLayout(t: string, cap: int)
    requires |t| <= cap && Trim(t) != "" && '\n' !in t
    ensures LayoutLines(Split(t, '\n'), cap) == Some([t])
  {
    SplitNoSeparator(t, '\n');
    LayoutShortLines([t], cap);
    BlankedNonBlank([t]);
  }

  /** A body-only document whose body is one line holds exactly that line, escaped, at the body's first position. */
  lemma SingleBodyLineExport(config: PaperTypeConfig, width: int, height: int, letter: LetterData, data: map<string, string>, t: string)
    requires ActiveSections(config.fields) == [Body]
    requires SectionLines(Body, letter, data, width) == Some([t])
    ensures GenerateSvg(config, width, height, letter, data)
      == Some(SvgDocument(width, height, [0, 0, width, height], Rect(width, height, "white"),
           [Group(Body, "body", [MakeText(Position(MarginLeft, config.bodyStartY, Start), EscapeXml(t))])]))
  {
    var sections := ActiveSections(config.fields);
    assert AllLaidOut(sections, letter, data, width);
    var groups := ExportGroups(sections, config, letter, data, width).value;
    assert groups == [ExportGroup(Body, [t], width, config.bodyStartY)] by {
      assert |groups| == 1;
      assert groups[0] == ExportGroup(Body, SectionLines(Body, letter, data, width).value, width, config.bodyStartY);
    }
    OneLineExportGroup(t, width, config.bodyStartY);
  }

  /** The export group of a one-line body: that line, escaped, at the body's first position. */
  lemma OneLineExportGroup(t: string, width: int, bodyStartY: int)
    ensures ExportGroup(Body, [t], width, bodyStartY)
      == Group(Body, "body", [MakeText(Position(MarginLeft, bodyStartY, Start), EscapeXml(t))])
  {
    var texts := ExportTexts(Body, [t], width, bodyStartY);
    assert LinePosition(Body, 0, width, bodyStartY) == Position(MarginLeft, bodyStartY, Start);
    assert texts == [texts[0]];
  }

  lemma GreetingText(prefix: string, key: string, data: map<string, string>)
    requires prefix == "Dear " && key == "name" && data == map["name" := "Sam"]
    ensures ReplaceTemplates(prefix + PlaceholderText(key), data) == "Dear Sam"
  {
    assert forall i :: 0 <= i < |key| ==> key[i] != '}';
    assert forall i :: 0 <= i < |prefix| ==> prefix[i] != '{';
    ReplaceAfterPrefix(prefix, key, data);
  }

  lemma GreetingNotBlank(t: string)
    requires t == "Dear Sam"
    ensures Trim(t) != ""
  {
    TrimEmptyIffBlank(t);
    assert !IsWhitespace(t[0]);
  }

  lemma GreetingPlain(t: string)
    requires t == "Dear Sam"
    ensures |t| <= 49 && '\n' !in t && EscapeXml(t) == t
  {
    EscapePlainText(t);
  }

  /** End to end: an A6 Portrait letter whose body reads `Dear {{name}}`, exported with `name` bound to `Sam`. */
  lemma GreetingExport()
    ensures GenerateSvg(Config(A6Portrait), 397, 559, LetterData("", "", "Dear " + PlaceholderText("name")), map["name" := "Sam"])
      == Some(SvgDocument(397, 559, [0, 0, 397, 559], Rect(397, 559, "white"),
           [Group(Body, "body", [TextElement(60, 80, Start, 16, "Brush Script MT, cursive", "#333", "Dear Sam")])]))
  {
    var letter := LetterData("", "", "Dear " + PlaceholderText("name"));
    var data := map["name" := "Sam"];
    var t := ReplaceTemplates(letter.body, data);
    GreetingText("Dear ", "name", data);
    GreetingNotBlank(t);
    GreetingPlain(t);
    ConfiguredCapacities(A6Portrait, Body);
    SingleLineLayout(t, 49);
    assert SectionLines(Body, letter, data, 397) == Some([t]);
    ActiveSectionsOfConfig(A6Portrait);
    OnlyA4HasHeader(A6Portrait);
    SingleBodyLineExport(Config(A6Portrait), 397, 559, letter, data, t);
  }
}
