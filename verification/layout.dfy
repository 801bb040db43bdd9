/**
  The section layout engine `formatText` of src/utils/format-text.ts: substitute the
  record into the raw text, split it into logical lines at `\n`, keep each blank
  logical line as one empty line, and wrap every other logical line with the
  capacity that the section's width budget allows.

  Widths are kept exact. `maxWidth` is `width * 0.5 - 60` for the two header sections,
  a multiple of one half for an integer width, so the model works with twice the
  budget (`BudgetX2`) and with the character width `16 * 0.35 = 28/5` as a fraction.
 */
module Layout {
  import opened Results
  import opened Strings
  import opened Templates
  import opened WordWrap
  import opened Paper

  const FontSize := 16
  const MarginLeft := 60
  const MarginRight := 60

  /** `maxWidths[section]`, doubled, for the three names the table defines; `None` for any other name. */
  function KnownBudgetX2(section: string, width: int): Option<int> {
    if section == "topLeft" then Some(width - 2 * MarginLeft)
    else if section == "topRight" then Some(width - 2 * MarginRight)
    else if section == "body" then Some(2 * (width - MarginLeft - MarginRight))
    else None
  }

  /** `maxWidths[section] || maxWidths.body`, doubled: a missing entry, and a zero (falsy) one, fall back to the body budget. */
  function BudgetX2(section: string, width: int): (b: int)
    ensures section == "topLeft" ==> b == width - 2 * MarginLeft
    ensures section == "topRight" ==> b == width - 2 * MarginRight
    ensures section != "topLeft" && section != "topRight" ==> b == 2 * (width - MarginLeft - MarginRight)
  {
    match KnownBudgetX2(section, width)
    case Some(b) => if b != 0 then b else KnownBudgetX2("body", width).value
    case None => KnownBudgetX2("body", width).value
  }

  /** `Math.floor(maxWidth / (fontSize * 0.35))` with `maxWidth = budgetX2 / 2`, in exact arithmetic. */
  function MaxChars(budgetX2: int): (n: int)
    ensures 56 * n <= 5 * budgetX2 < 56 * (n + 1)
  {
    (20 * budgetX2) / (2 * 7 * FontSize)
  }

  /** The largest whole number of 5.6-pixel characters that fit in the budget. */
  lemma MaxCharsIsFloor(budgetX2: int)
    ensures (MaxChars(budgetX2) as real) * 5.6 <= (budgetX2 as real) / 2.0
    ensures (budgetX2 as real) / 2.0 < (MaxChars(budgetX2) as real + 1.0) * 5.6
  {
    var q := MaxChars(budgetX2);
    assert 224 * q <= 20 * budgetX2 < 224 * (q + 1);
  }

  /** The wrap capacity `maxCharsPerLine` a section gets on a page of the given pixel width. */
  function Capacity(section: string, width: int): (n: int)
    ensures section == "topLeft" || section == "topRight" ==> 56 * n <= 5 * (width - 120) < 56 * (n + 1)
    ensures section != "topLeft" && section != "topRight" ==> 56 * n <= 10 * (width - 120) < 56 * (n + 1)
  {
    MaxChars(BudgetX2(section, width))
  }

  /** The two header sections get the same budget, half the body's; any other name gets the body's. */
  lemma SectionBudgets(width: int, other: string)
    requires other != "topLeft" && other != "topRight"
    ensures BudgetX2("topLeft", width) == BudgetX2("topRight", width)
    ensures 2 * BudgetX2("topLeft", width) == BudgetX2("body", width)
    ensures BudgetX2(other, width) == BudgetX2("body", width)
  {
  }

  /** The capacities of every section that some paper size shows: 60 for the A4 headers, and 120, 78, 120, 49, 78 for the bodies. */
  lemma ConfiguredCapacities(p: PaperSize, s: Section)
    requires s in Config(p).fields
    ensures Capacity(s.Name(), Dimensions(p).width) >= 49
    ensures s != Body ==> Capacity(s.Name(), Dimensions(p).width) == 60
    ensures s == Body ==> Capacity(s.Name(), Dimensions(p).width) == (match p
      case A4 => 120
      case A5Portrait => 78
      case A5Landscape => 120
      case A6Portrait => 49
      case A6Landscape => 78)
  {
  }

  /** A non-blank line wraps to at least one line and to no empty line. */
  lemma WrapNonBlankLine(line: string, cap: int)
    requires Trim(line) != ""
    requires Wrap(line, cap).Some?
    ensures |Wrap(line, cap).value| > 0
    ensures forall i :: 0 <= i < |Wrap(line, cap).value| ==> Wrap(line, cap).value[i] != ""
  {
    TrimEmptyIffBlank(line);
    var k :| 0 <= k < |line| && !IsWhitespace(line[k]);
    WrapNonBlank(line, cap, k);
  }

  /** The output for one logical line: one empty line for a blank one (`trim() === ""`), the wrapped lines otherwise. */
  function LineLayout(line: string, cap: int): (r: Option<seq<string>>)
    ensures cap >= 2 ==> r.Some?
    ensures r.Some? ==> |r.value| > 0
    ensures r.Some? ==> (r.value == [""] <==> Trim(line) == "")
    ensures r.Some? && Trim(line) != "" ==> forall i :: 0 <= i < |r.value| ==> r.value[i] != ""
  {
    if Trim(line) == "" then Some([""])
    else match Wrap(line, cap)
      case None => None
      case Some(out) =>
        WrapNonBlankLine(line, cap);
        assert out[0] != "";
        Some(out)
  }

  /** Number of empty strings in `lines`. */
  function CountEmpty(lines: seq<string>): nat {
    if |lines| == 0 then 0 else (if lines[0] == "" then 1 else 0) + CountEmpty(lines[1..])
  }

  /** Number of blank (`trim() === ""`) logical lines. */
  function CountBlank(lines: seq<string>): nat {
    if |lines| == 0 then 0 else (if Trim(lines[0]) == "" then 1 else 0) + CountBlank(lines[1..])
  }

  lemma {:induction false} CountEmptyAppend(a: seq<string>, b: seq<string>)
    ensures CountEmpty(a + b) == CountEmpty(a) + CountEmpty(b)
    decreases |a|
  {
    if |a| > 0 {
      assert (a + b)[1..] == a[1..] + b;
      CountEmptyAppend(a[1..], b);
    } else {
      assert a + b == b;
    }
  }

  lemma {:induction false} CountEmptyNone(a: seq<string>)
    requires forall i :: 0 <= i < |a| ==> a[i] != ""
    ensures CountEmpty(a) == 0
    decreases |a|
  {
    if |a| > 0 {
      CountEmptyNone(a[1..]);
    }
  }

  /** One logical line's output contributes one empty line if the line is blank, none otherwise. */
  lemma LayoutCountStep(line: string, cap: int, first: seq<string>, rest: seq<string>)
    requires LineLayout(line, cap) == Some(first)
    ensures CountEmpty(first + rest) == (if Trim(line) == "" then 1 else 0) + CountEmpty(rest)
  {
    CountEmptyAppend(first, rest);
    if Trim(line) != "" {
      CountEmptyNone(first);
    }
  }

  /**
    The loop `for (const line of lines)`: the per-line outputs, concatenated in order. Each
    logical line yields at least one output line, and the empty output lines are exactly
    the ones blank logical lines produced.
   */
  function LayoutLines(lines: seq<string>, cap: int): (r: Option<seq<string>>)
    ensures cap >= 2 ==> r.Some?
    ensures r.Some? ==> |r.value| >= |lines|
    ensures r.Some? ==> CountEmpty(r.value) == CountBlank(lines)
    decreases |lines|
  {
    if |lines| == 0 then Some([])
    else match LineLayout(lines[0], cap)
      case None => None
      case Some(first) =>
        match LayoutLines(lines[1..], cap)
        case None => None
        case Some(rest) =>
          LayoutCountStep(lines[0], cap, first, rest);
          Some(first + rest)
  }

  /**
    Laying out a concatenation lays out each part and concatenates the results, so the output
    follows the logical lines in order, each contributing the block `LineLayout` gives it.
   */
  lemma {:induction false} LayoutLinesAppend(a: seq<string>, b: seq<string>, cap: int)
    ensures LayoutLines(a, cap).Some? && LayoutLines(b, cap).Some? ==>
      LayoutLines(a + b, cap) == Some(LayoutLines(a, cap).value + LayoutLines(b, cap).value)
    decreases |a|
  {
    if LayoutLines(a, cap).None? || LayoutLines(b, cap).None? {
    } else if |a| == 0 {
      LayoutLinesNil(a, b, cap);
    } else {
      LayoutLinesAppend(a[1..], b, cap);
      LayoutLinesCons(a, b, cap);
    }
  }

  /** The base case of `LayoutLinesAppend`: nothing before `b`. */
  lemma LayoutLinesNil(a: seq<string>, b: seq<string>, cap: int)
    requires |a| == 0 && LayoutLines(b, cap).Some?
    ensures LayoutLines(a + b, cap) == Some(LayoutLines(a, cap).value + LayoutLines(b, cap).value)
  {
    var outB := LayoutLines(b, cap).value;
    assert a + b == b;
    assert LayoutLines(a, cap).value == [];
    assert [] + outB == outB;
    assert LayoutLines(a + b, cap) == LayoutLines(b, cap);
  }

  /** The step of `LayoutLinesAppend`: the first line's block stays in front. */
  lemma LayoutLinesCons(a: seq<string>, b: seq<string>, cap: int)
    requires |a| > 0 && LayoutLines(a, cap).Some? && LayoutLines(b, cap).Some?
    requires LayoutLines(a[1..] + b, cap) == Some(LayoutLines(a[1..], cap).value + LayoutLines(b, cap).value)
    ensures LayoutLines(a + b, cap) == Some(LayoutLines(a, cap).value + LayoutLines(b, cap).value)
  {
    var ab := a + b;
    var first := LineLayout(a[0], cap).value;
    var restA := LayoutLines(a[1..], cap).value;
    var outB := LayoutLines(b, cap).value;
    var whole := first + restA;
    assert LayoutLines(a, cap) == Some(whole) by {
      LayoutLinesHead(a, cap);
    }
    assert LayoutLines(ab, cap) == Some(whole + outB) by {
      DropHeadOfAppend(a, b);
      LayoutLinesHead(ab, cap);
      AppendAssoc(first, restA, outB);
    }
  }

  /** Dropping the head of `a + b` drops the head of `a`. */
  lemma DropHeadOfAppend<T>(a: seq<T>, b: seq<T>)
    requires |a| > 0
    ensures (a + b)[0] == a[0] && (a + b)[1..] == a[1..] + b
  {
  }

  /** `LayoutLines` of a non-empty list: the first line's block followed by the rest's output. */
  lemma LayoutLinesHead(lines: seq<string>, cap: int)
    requires |lines| > 0
    ensures LayoutLines(lines, cap) ==
      if LineLayout(lines[0], cap).None? || LayoutLines(lines[1..], cap).None? then None
      else Some(LineLayout(lines[0], cap).value + LayoutLines(lines[1..], cap).value)
  {
  }

  /** One logical line lays out to exactly its `LineLayout` block. */
  lemma LayoutOneLine(line: string, cap: int)
    ensures LayoutLines([line], cap) == LineLayout(line, cap)
  {
    var one := [line];
    assert one[0] == line && one[1..] == [];
    if LineLayout(line, cap).Some? {
      var first := LineLayout(line, cap).value;
      assert first + [] == first;
    }
  }

  /** A blank line emptied; any other line as it is. */
  function BlankOut(line: string): string {
    if Trim(line) == "" then "" else line
  }

  /** The logical lines with every blank one replaced by the empty string. */
  function Blanked(lines: seq<string>): (r: seq<string>)
    ensures |r| == |lines|
    decreases |lines|
  {
    if |lines| == 0 then [] else [BlankOut(lines[0])] + Blanked(lines[1..])
  }

  /** Blanking keeps lines that are not blank. */
  lemma {:induction false} BlankedNonBlank(lines: seq<string>)
    requires forall i :: 0 <= i < |lines| ==> Trim(lines[i]) != ""
    ensures Blanked(lines) == lines
    decreases |lines|
  {
    if |lines| > 0 {
      var tail := lines[1..];
      forall i | 0 <= i < |tail|
        ensures Trim(tail[i]) != ""
      {
        assert tail[i] == lines[i + 1];
      }
      BlankedNonBlank(tail);
      HeadTail(lines);
    }
  }

  /** A non-empty sequence is its head followed by its tail. */
  lemma HeadTail<T>(s: seq<T>)
    requires |s| > 0
    ensures s == [s[0]] + s[1..]
  {
  }

  /** A logical line that fits is kept as it is, or emptied when blank. */
  lemma ShortLine(line: string, cap: int)
    requires |line| <= cap
    ensures LineLayout(line, cap) == Some([BlankOut(line)])
  {
  }

  /** Logical lines that already fit the capacity come out one-for-one, blank ones emptied. */
  lemma {:induction false} LayoutShortLines(lines: seq<string>, cap: int)
    requires forall i :: 0 <= i < |lines| ==> |lines[i]| <= cap
    ensures LayoutLines(lines, cap) == Some(Blanked(lines))
    decreases |lines|
  {
    if |lines| > 0 {
      var tail := lines[1..];
      forall i | 0 <= i < |tail|
        ensures |tail[i]| <= cap
      {
        assert tail[i] == lines[i + 1];
      }
      LayoutShortLines(tail, cap);
      ShortLine(lines[0], cap);
    }
  }

  /**
    `formatText(text, data, section, width)`. At least one line comes out per logical line,
    so at least one more than the substituted text has newlines; the empty lines are the
    blank logical lines, one each.
   */
  function FormatText(text: string, data: map<string, string>, section: string, width: int): (r: Option<seq<string>>)
    ensures Capacity(section, width) >= 2 ==> r.Some?
    ensures r.Some? ==> |r.value| >= Count(ReplaceTemplates(text, data), '\n') + 1
    ensures r.Some? ==> CountEmpty(r.value) == CountBlank(Split(ReplaceTemplates(text, data), '\n'))
  {
    LayoutLines(Split(ReplaceTemplates(text, data), '\n'), Capacity(section, width))
  }

  /** For every paper size and every section it shows, `formatText` returns. */
  lemma FormatTextTerminates(p: PaperSize, s: Section, text: string, data: map<string, string>)
    requires s in Config(p).fields
    ensures FormatText(text, data, s.Name(), Dimensions(p).width).Some?
  {
    ConfiguredCapacities(p, s);
  }

  /**
    When every logical line of the substituted text fits its section and none is blank,
    the output lines joined with newlines give back the substituted text.
   */
  lemma FormatShortText(text: string, data: map<string, string>, section: string, width: int)
    requires forall i :: 0 <= i < |Split(ReplaceTemplates(text, data), '\n')| ==>
      |Split(ReplaceTemplates(text, data), '\n')[i]| <= Capacity(section, width) &&
      Trim(Split(ReplaceTemplates(text, data), '\n')[i]) != ""
    ensures FormatText(text, data, section, width) == Some(Split(ReplaceTemplates(text, data), '\n'))
    ensures Join(FormatText(text, data, section, width).value, '\n') == ReplaceTemplates(text, data)
  {
    var lines := Split(ReplaceTemplates(text, data), '\n');
    LayoutShortLines(lines, Capacity(section, width));
    BlankedNonBlank(lines);
    JoinSplit(ReplaceTemplates(text, data), '\n');
  }
}
