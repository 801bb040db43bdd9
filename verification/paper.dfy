/**
  The static paper tables of src/lib/paper-dimension.config.ts: the five paper sizes,
  their pixel (96 DPI) and millimetre dimensions, and per size the active letter
  sections, the body's start offset and the per-section character caps.
 */
module Paper {

  /** A `LetterSection`: one of the three text fields of a letter. */
  datatype Section = TopLeft | TopRight | Body {

    /** The field's key in `LetterData`. */
    function Name(): string {
      match this
      case TopLeft => "topLeft"
      case TopRight => "topRight"
      case Body => "body"
    }

    /** Position in the canonical order topLeft, topRight, body. */
    function Rank(): nat {
      match this
      case TopLeft => 0
      case TopRight => 1
      case Body => 2
    }
  }

  /** The three sections in the order every renderer visits them. */
  const CanonicalSections: seq<Section> := [TopLeft, TopRight, Body]

  /** The letter being edited: three free-text fields. */
  datatype LetterData = LetterData(topLeft: string, topRight: string, body: string) {

    /** `letterData[field]`. */
    function Get(s: Section): string {
      match s
      case TopLeft => topLeft
      case TopRight => topRight
      case Body => body
    }

    /** `{ ...letterData, [field]: value }`: the named field replaced, the other two kept. */
    function With(s: Section, value: string): (r: LetterData)
      ensures r.Get(s) == value
      ensures forall t :: t != s ==> r.Get(t) == Get(t)
    {
      match s
      case TopLeft => this.(topLeft := value)
      case TopRight => this.(topRight := value)
      case Body => this.(body := value)
    }
  }

  /** The `PaperSize` keys. */
  datatype PaperSize = A4 | A5Portrait | A5Landscape | A6Portrait | A6Landscape

  /** The paper sizes in table order. */
  const PaperSizes: seq<PaperSize> := [A4, A5Portrait, A5Landscape, A6Portrait, A6Landscape]

  datatype PaperDimensions = PaperDimensions(width: int, height: int, widthMm: int, heightMm: int, labelText: string)

  /** `maxCharacters`: a cap per section, 0 for a section the paper size does not show. */
  datatype CharLimits = CharLimits(topLeft: int, topRight: int, body: int) {
    function Of(s: Section): int {
      match s
      case TopLeft => topLeft
      case TopRight => topRight
      case Body => body
    }
  }

  datatype PaperTypeConfig = PaperTypeConfig(
    fields: seq<Section>,
    bodyStartY: int,
    description: string,
    maxCharacters: CharLimits)

  /** Sections listed without repetition and in the canonical order. */
  predicate InCanonicalOrder(fields: seq<Section>) {
    forall i, j :: 0 <= i < j < |fields| ==> fields[i].Rank() < fields[j].Rank()
  }

  /** `paperDimensions[p]`. */
  function Dimensions(p: PaperSize): (d: PaperDimensions)
    ensures d.width > 0 && d.height > 0
  {
    match p
    case A4 => PaperDimensions(794, 1123, 210, 297, "A4")
    case A5Portrait => PaperDimensions(559, 794, 148, 210, "A5 Portrait")
    case A5Landscape => PaperDimensions(794, 559, 210, 148, "A5 Landscape")
    case A6Portrait => PaperDimensions(397, 559, 105, 148, "A6 Portrait")
    case A6Landscape => PaperDimensions(559, 397, 148, 105, "A6 Landscape")
  }

  const FullLetterDescription := "Full letter format with header and body"
  const BodyOnlyDescription := "Body text only format"

  /** `paperTypeConfig[p]`. A cap is zero exactly for the sections the size does not show. */
  function Config(p: PaperSize): (c: PaperTypeConfig)
    ensures forall s :: c.maxCharacters.Of(s) == 0 <==> s !in c.fields
    ensures forall s :: c.maxCharacters.Of(s) >= 0
    ensures InCanonicalOrder(c.fields)
    ensures Body in c.fields
    ensures c.bodyStartY == (if TopLeft in c.fields then 250 else 80)
  {
    match p
    case A4 => PaperTypeConfig([TopLeft, TopRight, Body], 250, FullLetterDescription, CharLimits(300, 150, 2500))
    case A5Portrait => PaperTypeConfig([Body], 80, BodyOnlyDescription, CharLimits(0, 0, 1800))
    case A5Landscape => PaperTypeConfig([Body], 80, BodyOnlyDescription, CharLimits(0, 0, 1200))
    case A6Portrait => PaperTypeConfig([Body], 80, BodyOnlyDescription, CharLimits(0, 0, 1000))
    case A6Landscape => PaperTypeConfig([Body], 80, BodyOnlyDescription, CharLimits(0, 0, 600))
  }

  /** Only A4 shows the two header sections; every other size is body-only. */
  lemma OnlyA4HasHeader(p: PaperSize)
    ensures TopLeft in Config(p).fields <==> p == A4
    ensures TopRight in Config(p).fields <==> p == A4
    ensures p != A4 ==> Config(p).fields == [Body] && Config(p).bodyStartY == 80
    ensures p == A4 ==> Config(p).bodyStartY == 250
  {
  }

  /** Each landscape entry is its portrait entry turned on its side. */
  lemma LandscapeIsRotatedPortrait()
    ensures Dimensions(A5Landscape).width == Dimensions(A5Portrait).height
    ensures Dimensions(A5Landscape).height == Dimensions(A5Portrait).width
    ensures Dimensions(A5Landscape).widthMm == Dimensions(A5Portrait).heightMm
    ensures Dimensions(A5Landscape).heightMm == Dimensions(A5Portrait).widthMm
    ensures Dimensions(A6Landscape).width == Dimensions(A6Portrait).height
    ensures Dimensions(A6Landscape).height == Dimensions(A6Portrait).width
    ensures Dimensions(A6Landscape).widthMm == Dimensions(A6Portrait).heightMm
    ensures Dimensions(A6Landscape).heightMm == Dimensions(A6Portrait).widthMm
  {
  }

  /** The body cap strictly decreases along the table: 2500 > 1800 > 1200 > 1000 > 600. */
  lemma BodyCapsDecrease()
    ensures forall i, j :: 0 <= i < j < |PaperSizes| ==>
      Config(PaperSizes[i]).maxCharacters.body > Config(PaperSizes[j]).maxCharacters.body
  {
  }

  /** The table lists every paper size exactly once. */
  lemma PaperSizesComplete()
    ensures forall p :: p in PaperSizes
    ensures forall i, j :: 0 <= i < j < |PaperSizes| ==> PaperSizes[i] != PaperSizes[j]
  {
    forall p: PaperSize
      ensures p in PaperSizes
    {
      var i := match p
        case A4 => 0
        case A5Portrait => 1
        case A5Landscape => 2
        case A6Portrait => 3
        case A6Landscape => 4;
      assert PaperSizes[i] == p;
    }
  }
}
