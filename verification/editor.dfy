/**
  The single-component editor of src/components/svg-letter-editor.tsx. It carries its
  own copies of the configuration table and of the pixel dimensions, reads the paper
  size from its state rather than taking a configuration and a width, and always
  renders with the empty record `currentData = {}`. Its algorithms are the ones of the
  split-out modules; the lemmas here show that each of its operations agrees with its
  counterpart there, and that with the empty record every placeholder stays as typed.
 */
module Editor {
  import opened Results
  import opened Strings
  import opened Templates
  import opened Paper
  import opened Layout
  import opened Tags
  import opened Input
  import opened Svg
  import opened Escape

  /** The editor's own `paperTypeConfig` table. */
  function EditorConfig(p: PaperSize): (c: PaperTypeConfig)
    ensures c == Config(p)
  {
    match p
    case A4 => PaperTypeConfig([TopLeft, TopRight, Body], 250, "Full letter format with header and body", CharLimits(300, 150, 2500))
    case A5Portrait => PaperTypeConfig([Body], 80, "Body text only format", CharLimits(0, 0, 1800))
    case A5Landscape => PaperTypeConfig([Body], 80, "Body text only format", CharLimits(0, 0, 1200))
    case A6Portrait => PaperTypeConfig([Body], 80, "Body text only format", CharLimits(0, 0, 1000))
    case A6Landscape => PaperTypeConfig([Body], 80, "Body text only format", CharLimits(0, 0, 600))
  }

  /** The editor's own pixel dimensions: width and height only. */
  datatype EditorDimensions = EditorDimensions(width: int, height: int)

  function EditorPaperDimensions(p: PaperSize): (d: EditorDimensions)
    ensures d.width == Dimensions(p).width && d.height == Dimensions(p).height
  {
    match p
    case A4 => EditorDimensions(794, 1123)
    case A5Portrait => EditorDimensions(559, 794)
    case A5Landscape => EditorDimensions(794, 559)
    case A6Portrait => EditorDimensions(397, 559)
    case A6Landscape => EditorDimensions(559, 397)
  }

  /** `currentData`: the editor never binds a record, so it renders with the empty one. */
  const CurrentData: map<string, string> := map[]

  /** The editor's `formatText(text, data, section)`, with the width of the selected paper size. */
  function EditorFormatText(p: PaperSize, text: string, data: map<string, string>, section: string): (r: Option<seq<string>>)
    ensures r == FormatText(text, data, section, Dimensions(p).width)
  {
    FormatText(text, data, section, EditorPaperDimensions(p).width)
  }

  /** With the record the editor passes, placeholders stay in the text as typed and only the layout acts. */
  lemma EditorShowsPlaceholders(p: PaperSize, text: string, section: string)
    ensures EditorFormatText(p, text, CurrentData, section)
      == LayoutLines(Split(text, '\n'), Capacity(section, Dimensions(p).width))
  {
    ReplaceEmptyRecord(text);
  }

  /** The editor's `templateTags` memo, which equals the tag panel's list for the same paper size. */
  function EditorTemplateTags(p: PaperSize, letter: LetterData): (r: seq<string>)
    ensures r == TemplateTags(letter, Config(p))
  {
    TemplateTags(letter, EditorConfig(p))
  }

  /** The editor's `downloadCSVTemplate` content, which is the tag panel's file for the same paper size. */
  function EditorCsvTemplate(p: PaperSize, letter: LetterData): (r: Result<string, CsvError>)
    ensures r == CsvTemplate(TemplateTags(letter, Config(p)))
    ensures r.Err? <==> TemplateTags(letter, Config(p)) == []
  {
    CsvTemplate(EditorTemplateTags(p, letter))
  }

  /** The editor's `handleInputChange`, which stores what the input group stores. */
  function EditorHandleInputChange(p: PaperSize, letter: LetterData, field: Section, value: string): (r: LetterData)
    ensures r == HandleInputChange(letter, Config(p), field, value)
  {
    HandleInputChange(letter, EditorConfig(p), field, value)
  }

  /** The editor's `isNearLimit(field)` and `isAtLimit(field)`, on the current letter. */
  function EditorLimitFlags(p: PaperSize, letter: LetterData, field: Section): (r: (bool, bool))
    ensures r.0 == IsNearLimit(CharacterCount(letter, field), CharacterLimit(Config(p), field))
    ensures r.1 == IsAtLimit(CharacterCount(letter, field), CharacterLimit(Config(p), field))
  {
    var count := |letter.Get(field)|;
    var limit := EditorConfig(p).maxCharacters.Of(field);
    (5 * count > 4 * limit, count >= limit)
  }

  /** The editor's `generateSVGString()`, which writes the download component's document for the same paper size and record. */
  function EditorGenerateSvg(p: PaperSize, letter: LetterData): (r: Option<SvgDocument>)
    ensures r == GenerateSvg(Config(p), Dimensions(p).width, Dimensions(p).height, letter, CurrentData)
  {
    var d := EditorPaperDimensions(p);
    GenerateSvg(EditorConfig(p), d.width, d.height, letter, CurrentData)
  }

  /** The editor's `renderPreviewSections()`, which draws the preview component's groups. */
  function EditorPreviewSections(p: PaperSize, letter: LetterData): (r: Option<seq<Group>>)
    ensures r == PreviewSections(Config(p), letter, CurrentData, Dimensions(p).width)
  {
    PreviewSections(EditorConfig(p), letter, CurrentData, EditorPaperDimensions(p).width)
  }

  /** The editor always produces a document and a preview, for every paper size and every letter. */
  lemma EditorAlwaysRenders(p: PaperSize, letter: LetterData)
    ensures EditorGenerateSvg(p, letter).Some?
    ensures EditorPreviewSections(p, letter).Some?
  {
    RenderersTerminate(p, letter, CurrentData);
  }

  /** In the editor's document every `{{key}}` a user typed is still there, escaped like any other text. */
  lemma EditorExportKeepsPlaceholders(p: PaperSize, letter: LetterData, k: int)
    requires EditorGenerateSvg(p, letter).Some?
    requires 0 <= k < |EditorGenerateSvg(p, letter).value.groups|
    ensures var g := EditorGenerateSvg(p, letter).value.groups[k];
      var lines := LayoutLines(Split(letter.Get(g.section), '\n'), Capacity(g.section.Name(), Dimensions(p).width));
      && lines.Some?
      && |g.texts| == |lines.value|
      && forall i :: 0 <= i < |lines.value| ==> g.texts[i].content == EscapeXml(lines.value[i])
  {
    var doc := GenerateSvg(Config(p), Dimensions(p).width, Dimensions(p).height, letter, CurrentData).value;
    var g := doc.groups[k];
    ExportPlacement(Config(p), Dimensions(p).width, Dimensions(p).height, letter, CurrentData, k);
    EditorShowsPlaceholders(p, letter.Get(g.section), g.section.Name());
    assert FormatText(letter.Get(g.section), CurrentData, g.section.Name(), Dimensions(p).width)
      == LayoutLines(Split(letter.Get(g.section), '\n'), Capacity(g.section.Name(), Dimensions(p).width));
  }
}
