# svg-letter-editor in Dafny

A model of the layout core of svg-letter-editor, a React tool that lays out a letter
with three text fields (`topLeft`, `topRight`, `body`) on a chosen paper size. It
substitutes `{{key}}` placeholders from a CSV record, wraps each line to an estimated
character capacity, and renders the result twice: as an on-screen preview and as a
downloadable SVG file. The tool also lists the placeholder tags of the shown fields for a CSV
header template, truncates edits to a per-field cap, and colours the character counter.

Modules, leaf first:

- `Results`: `Option` and `Result`.
- `Strings`: JavaScript `trim`, `split` and `join` on one-character separators.
- `Templates`: the scan of `/\{\{([^}]+)\}\}/g` as a token stream, shared by `replaceTemplates` and the tag extractor.
- `WordWrap`: `wrapText`, as a pure fold over the words (`Wrap`) and as the loop itself (`WrapText`).
- `Paper`: the paper dimension and paper type tables.
- `Layout`: the section width budgets, the capacity formula and `formatText`.
- `Tags`: the sorted, de-duplicated tag list and the CSV template.
- `Input`: truncation on input and the near-limit and at-limit flags.
- `Escape`: `escapeXml`, with a decoder as its inverse.
- `Svg`: `generateSVGString` and `renderPreviewSections`, built as trees of groups and text elements.
- `Editor`: the monolithic editor component. Its copies of the configuration and pixel tables and its own integer limit flags are proved equal to the shared ones. Its copies of `wrapText`, `replaceTemplates` and `escapeXml` are textually identical to the shared helpers, so the model reuses the shared definitions for them rather than modelling them a second time. Its `formatText` differs: it takes no width and reads it from the selected paper size, and `Editor.EditorFormatText` proves it equal to the shared `formatText` at that width.

Floating-point arithmetic in the source is replaced by exact arithmetic:

- The capacity `Math.floor(maxWidth / (16 * 0.35))` is computed on the doubled width budget as `(20 * budgetX2) / 224`. `Layout.MaxCharsIsFloor` shows this is the floor of the real quotient.
- The warning threshold `count > limit * 0.8` is `5 * count > 4 * limit`. The contract of `Input.IsNearLimit` shows the two agree.

Three behaviours of the code are modelled as written:

- Lookup uses the captured key as is, untrimmed. `{{ name }}` does not resolve against `name`, even though the tag list shows it as `name`.
- With a capacity below 2 (a negative one included, which any body width under 120 pixels gives), `wrapText` never returns exactly when a word longer than the capacity reaches the hard-split loop while no line is being filled: each turn emits "-" and leaves the word as long as before. The model returns `None` in exactly that case (`WordWrap.Step`). A text that fits, or whose long words all follow a flushed line, still wraps. The configured paper sizes never reach this: their smallest capacity is 49.
- A word is hard-split only when no line is being filled. An over-long word that follows a flushed line is emitted whole, so it exceeds the capacity. `Fits` states the bound the code keeps: a line fits the capacity or is a single word.

## Model

| member | source | states |
|---|---|---|
| Templates.MatchAt | src/utils/format-text.ts:5 | A match found at the front of a text is the pattern `{{`, one or more characters other than `}`, then `}}` |
| Templates.MatchAtComplete | src/utils/format-text.ts:5 | The pattern matches at a position exactly when the scan reports it there, and the captured key length is unique |
| Templates.Tokens | src/utils/format-text.ts:5 | Every captured placeholder key is non-empty and holds no `}` |
| Templates.UnparseTokens | src/utils/format-text.ts:5 | The scan loses nothing: literal pieces and placeholders written back give the original text |
| Templates.TokenKeys | src/components/template-tags.tsx:24-25 | A key is listed exactly when some token of the scan is a placeholder with that key |
| Templates.Resolve | src/utils/format-text.ts:6 | A present, non-empty value replaces the match, otherwise the match itself stays; the result is never empty |
| Templates.RenderToken | src/utils/format-text.ts:5-7 | A literal character is written as itself and a placeholder as its resolved text (`Resolve`), so no token renders as nothing |
| Templates.Render | src/utils/format-text.ts:5-7 | Rendering never shortens the token stream: every token contributes at least one character |
| Templates.RenderUnresolved | src/utils/format-text.ts:6 | When no key resolves to a non-empty value, rendering writes every placeholder back verbatim |
| Templates.ReplaceTemplates | src/utils/format-text.ts:3-8 | `replaceTemplates` returns the text unchanged when none of its captured keys has a non-empty value in the record |
| Templates.Keys | src/components/template-tags.tsx:24-25 | Every captured group `match[1]` is non-empty and holds no `}` |
| Templates.ReplaceEmptyRecord | src/utils/format-text.ts:3-8 | With the empty record every text is returned unchanged |
| Templates.NoPairNoPlaceholder | src/components/template-tags.tsx:18-26 | A text with no `{{`, or with no `}}`, yields no tag |
| Templates.ReplaceWithoutPlaceholders | src/utils/format-text.ts:5 | A text with no `{{`, or with no `}}`, is returned unchanged whatever the record |
| Templates.EmptyBracesStay | src/utils/format-text.ts:5 | `{{}}` is not a placeholder: it yields no tag and survives substitution |
| Templates.ReplaceLiteralHead | src/utils/format-text.ts:5 | A leading character other than `{` passes through, and substitution continues on the rest |
| Templates.ReplaceUnmatchedHead | src/utils/format-text.ts:5 | Any leading character at which the pattern does not match, a `{` included, passes through, and substitution continues on the rest |
| Templates.ReplaceBraceHead | src/utils/format-text.ts:5 | A `{` followed by `}`, or by `{}`, opens no placeholder and is written as it is |
| Templates.UnclosedBraceExample | src/utils/format-text.ts:5 | `{{a}` lacks its closing `}}`, so it is not a placeholder and is kept as typed |
| Templates.EmptyBracesThenPlaceholder | src/utils/format-text.ts:5-7 | In `{{}}x{{key}}` the empty braces stay as typed and the placeholder after them is still replaced |
| Templates.TokensPlaceholderHead | src/components/template-tags.tsx:24-25 | A well-formed placeholder at the front is one token with its key, and the scan resumes right after it |
| Templates.ReplaceSinglePlaceholder | src/utils/format-text.ts:5-7 | A lone placeholder becomes its value when the value is present and non-empty, and stays verbatim otherwise |
| Templates.ReplaceLiteralPrefix | src/utils/format-text.ts:5 | A prefix without `{` is kept and does not disturb substitution in what follows |
| Templates.ReplacePlaceholderHead | src/utils/format-text.ts:5-7 | A leading placeholder is replaced by its resolved text and the rest of the text is substituted on its own, so substitution is a single pass |
| Templates.ReplaceAfterPrefix | src/utils/format-text.ts:5-7 | A prefix without `{` followed by one placeholder keeps the prefix and resolves the placeholder |
| Templates.ReplaceHitExample | src/utils/format-text.ts:6 | `Hi {{name}}` with name bound to Sam becomes `Hi Sam` |
| Templates.UntrimmedLookupExample | src/utils/format-text.ts:6 | `{{ name }}` is not resolved by a record that binds `name` |
| Templates.SinglePassExample | src/utils/format-text.ts:5-7 | A substituted value that itself reads `{{b}}` is not expanded again |
| Strings.Trim | src/components/template-tags.tsx:25 | `trim()` cuts a run of whitespace from each end and keeps the middle as it is (`StripsTo`); a non-empty result neither starts nor ends with whitespace |
| Strings.TrimEmptyIffBlank | src/utils/format-text.ts:77 | `trim()` yields "" exactly for strings made only of ECMAScript whitespace |
| Strings.TrimUntouched | src/components/template-tags.tsx:25 | Trimming leaves a string alone when it neither starts nor ends with whitespace |
| Strings.Split | src/utils/format-text.ts:64 | Splitting yields one more part than there are separators, and no part holds the separator |
| Strings.JoinSplit | src/utils/format-text.ts:64 | Joining the parts of a split with the same separator gives back the original string |
| Strings.SplitNoSeparator | src/utils/format-text.ts:21 | A string without the separator splits into itself alone |
| Strings.SplitJoin | src/components/template-tags.tsx:40 | Splitting a join gives back the parts when no part holds the separator |
| WordWrap.HardSplitStalls | src/utils/format-text.ts:37-44 | With capacity 1 or less, one turn of the over-long-word loop emits "-" and leaves the word as long as before |
| WordWrap.HardSplitTurn | src/utils/format-text.ts:37-44 | With capacity 2 or more, one turn cuts `capacity - 1` characters off the front, so the word gets shorter |
| WordWrap.HardSplit | src/utils/format-text.ts:36-45 | Fragments are exactly `capacity` long and end in "-"; there are some exactly when the word is too long; the remainder fits and, after a cut, is at least two characters long, so the loop stops at the first remainder that fits; and the fragments without hyphens, followed by the remainder, give back the word |
| WordWrap.SplitLongWord | src/utils/format-text.ts:36-45 | The over-long-word loop computes exactly the fragments and the remainder of the hard split |
| WordWrap.StepKeepsInvariant | src/utils/format-text.ts:25-47 | One turn of the word loop keeps every finished line non-empty and fitting, and keeps the current line fitting |
| WordWrap.FoldKeepsInvariant | src/utils/format-text.ts:25-48 | Every state the word loop reaches satisfies that invariant |
| WordWrap.Step | src/utils/format-text.ts:25-47 | One turn of the word loop fails to finish exactly when the current line is empty, the word is longer than the capacity and the capacity is below 2; otherwise it keeps every finished line and may add more |
| WordWrap.Fold | src/utils/format-text.ts:25-48 | With capacity 2 or more the word loop always finishes |
| WordWrap.Flush | src/utils/format-text.ts:50-52 | The final flush keeps the finished lines and adds at most one more, which is the current line and only when it is non-empty; it never adds an empty line and yields nothing only when nothing was collected |
| WordWrap.Wrap | src/utils/format-text.ts:10-55 | A text within the capacity is returned as its only line; with capacity 2 or more a result always exists; every line fits the capacity or is one unbreakable word |
| WordWrap.FoldStarts | src/utils/format-text.ts:25-52 | Once a non-empty word is consumed, the loop always has a line to emit |
| WordWrap.WrapNonBlank | src/utils/format-text.ts:10-55 | A text holding a character other than a space wraps to at least one line, and no line is empty |
| WordWrap.FoldRoundTrip | src/utils/format-text.ts:25-48 | When every word is non-empty and fits, the finished lines plus the current one, joined by spaces, give back the words joined by spaces |
| WordWrap.WrapRoundTrip | src/utils/format-text.ts:10-55 | When every word is non-empty and fits, the wrapped lines joined by single spaces give back the text |
| WordWrap.CapacityOneDiverges | src/utils/format-text.ts:37-44 | With capacity 1 the word `ab` is never shortened, so there is no result |
| WordWrap.FlushThenWholeWord | src/utils/format-text.ts:25-52 | When the first word fits but the two do not, the text wraps to the first word and then the second, whole, however long it is |
| WordWrap.LongWordAfterFlushExample | src/utils/format-text.ts:31-33 | An over-long word that follows a flush is emitted whole: `ab cdefgh` at capacity 4 gives `ab` and `cdefgh` |
| WordWrap.LongWordAloneExample | src/utils/format-text.ts:36-45 | The same word on its own is hard-split: `cdefgh` at capacity 4 gives `cde-` and `fgh` |
| WordWrap.LoneLongWord | src/utils/format-text.ts:34-52 | A single over-long word wraps to its hard-split fragments followed by its remainder |
| WordWrap.WrapText | src/utils/format-text.ts:19-54 | For capacity 2 or more, the loop with its early return, split, hard-split loop and final flush computes exactly the lines of the fold |
| Paper.Dimensions | src/lib/paper-dimension.config.ts:32-68 | Every paper size has a positive pixel width and height |
| Paper.Config | src/lib/paper-dimension.config.ts:70-121 | A section's cap is 0 exactly when the size does not show it, and caps are never negative; fields are listed in canonical order and always include the body; the body starts at y 250 with headers and at y 80 without |
| Paper.OnlyA4HasHeader | src/lib/paper-dimension.config.ts:70-121 | A4 alone shows the two header sections; every other size shows only the body, starting at y 80 |
| Paper.LandscapeIsRotatedPortrait | src/lib/paper-dimension.config.ts:40-67 | Each landscape entry swaps the pixel and millimetre width and height of its portrait entry |
| Paper.BodyCapsDecrease | src/lib/paper-dimension.config.ts:70-121 | The body cap strictly decreases along the table order A4, A5 Portrait, A5 Landscape, A6 Portrait, A6 Landscape |
| Paper.PaperSizesComplete | src/lib/paper-dimension.config.ts:12-20 | The table lists every paper size exactly once |
| Layout.BudgetX2 | src/utils/format-text.ts:67-74 | Twice the section's width budget with the body as fallback: `width - 120` for either header, `2 * (width - 120)` for the body and any name the table does not define; the fallback for a zero budget never changes it |
| Layout.MaxChars | src/utils/format-text.ts:16-17 | `n` is the floor of `5 * budgetX2 / 56`, that is of `maxWidth / 5.6` |
| Layout.Capacity | src/utils/format-text.ts:67-80 | The capacity `wrapText` receives for a section is the floor of `(width / 2 - 60) / 5.6` for the headers and of `(width - 120) / 5.6` for every other section |
| Layout.MaxCharsIsFloor | src/utils/format-text.ts:16-17 | The exact capacity is the largest whole number of 5.6-pixel characters that fits the width budget |
| Layout.SectionBudgets | src/utils/format-text.ts:67-74 | The two headers get equal budgets, each half the body's; a name the table does not define falls back to the body budget |
| Layout.ConfiguredCapacities | src/utils/format-text.ts:67-74 | On every configured page a shown section's capacity is at least 49: 60 for the A4 headers and 120, 78, 120, 49 and 78 for the bodies |
| Layout.WrapNonBlankLine | src/utils/format-text.ts:77-82 | A non-blank line wraps to at least one line and to no empty line |
| Layout.LineLayout | src/utils/format-text.ts:77-82 | A logical line yields a non-empty list of lines; the list is the single empty line exactly when the line is blank; a non-blank line yields no empty line |
| Layout.LayoutLines | src/utils/format-text.ts:76-85 | The output has at least one line per logical line, and holds exactly as many empty lines as there were blank logical lines |
| Layout.ShortLine | src/utils/format-text.ts:77-82 | A logical line within the capacity is kept as it is, or emptied when blank |
| Layout.LayoutLinesAppend | src/utils/format-text.ts:76-85 | Laying out a concatenation of logical lines gives the two outputs one after the other, so the output keeps the order of the logical lines |
| Layout.LayoutOneLine | src/utils/format-text.ts:76-85 | A single logical line contributes exactly its own block: one empty line when blank, its wrapped lines otherwise |
| Layout.LayoutShortLines | src/utils/format-text.ts:76-85 | When every logical line fits, the output matches them one for one, with blank lines emptied |
| Layout.FormatText | src/utils/format-text.ts:57-86 | With capacity 2 or more there is always a result; it has at least one line per newline-separated line of the substituted text, and its empty lines are exactly the blank ones |
| Layout.FormatTextTerminates | src/utils/format-text.ts:57-86 | For every paper size and every section it shows, `formatText` returns |
| Layout.FormatShortText | src/utils/format-text.ts:57-86 | When every substituted line fits and none is blank, the output is those lines, and joining them with newlines gives back the substituted text |
| Tags.LessIrreflexive | src/components/template-tags.tsx:29 | The default sort order never puts a string before itself |
| Tags.LessAsymmetric | src/components/template-tags.tsx:29 | No two strings each precede the other |
| Tags.LessTransitive | src/components/template-tags.tsx:29 | The sort order is transitive |
| Tags.LessTotal | src/components/template-tags.tsx:29 | Any two different strings are ordered one way or the other |
| Tags.SortedUnique | src/components/template-tags.tsx:29 | Two strictly sorted lists with the same elements are equal |
| Tags.Insert | src/components/template-tags.tsx:29 | Adding a tag to a strictly sorted list keeps it strictly sorted and adds exactly that tag |
| Tags.SortDistinct | src/components/template-tags.tsx:29 | The result is strictly sorted and has exactly the elements of the input |
| Tags.ActiveTags | src/components/template-tags.tsx:21-27 | A tag is collected exactly when it is the trimmed key of a placeholder in one of the listed fields |
| Tags.TemplateTags | src/components/template-tags.tsx:16-30 | The tag list is strictly sorted and holds exactly the trimmed keys of the shown fields |
| Tags.TemplateTagsCanonical | src/components/template-tags.tsx:16-30 | Any strictly sorted list of exactly those tags is the tag list itself |
| Tags.ActiveTagsIgnoreOtherField | src/components/template-tags.tsx:21-27 | Editing a field outside the list leaves the collected tags unchanged |
| Tags.InactiveFieldIgnored | src/components/template-tags.tsx:20-27 | Text in a field the paper size does not show contributes no tag |
| Tags.TrimPadded | src/components/template-tags.tsx:25 | A key padded with one space on each side trims to the bare word |
| Tags.SpacedNameKeys | src/components/template-tags.tsx:24 | `{{name}}{{ name }}` captures the keys `name` and ` name ` in order |
| Tags.TwoPlaceholderKeys | src/components/template-tags.tsx:24-25 | Two well-formed placeholders in a row capture their two keys, in order |
| Tags.SpacedNameFieldTags | src/components/template-tags.tsx:24-25 | Both of those keys trim to `name` |
| Tags.TrimMergesTags | src/components/template-tags.tsx:16-30 | `{{name}}` and `{{ name }}` give the single tag `name` |
| Tags.CsvTemplate | src/components/template-tags.tsx:34-40 | An empty tag list is refused; otherwise the content is the tags joined by commas, followed by a newline |
| Tags.CsvTemplateOneLine | src/components/template-tags.tsx:40 | When no tag holds a newline, the content is one header row: its only newline is the last character |
| Tags.CsvHeaderRoundTrip | src/components/template-tags.tsx:40 | When no tag holds a comma, splitting the header row at commas gives back the tags |
| Input.Truncate | src/components/template-text-input-group.tsx:15-19 | The stored value is a prefix of the typed one; with a positive cap its length is the smaller of the two; with no positive cap it is the typed value |
| Input.TruncateIdempotent | src/components/template-text-input-group.tsx:18-19 | Truncating again with the same cap changes nothing |
| Input.TruncateWithinCap | src/components/template-text-input-group.tsx:18-19 | Text within the cap is stored unchanged |
| Input.HandleInputChange | src/components/template-text-input-group.tsx:14-25 | The edited field receives the truncated value, and the other fields keep theirs |
| Input.HandleInputChangeIdempotent | src/components/template-text-input-group.tsx:14-25 | Typing the stored text back into its field changes nothing |
| Input.CharacterCount | src/components/template-text-input-group.tsx:27-29 | The counter reads 0 exactly when the field is empty |
| Input.CharacterLimit | src/components/template-text-input-group.tsx:31-33 | On every configured paper size the limit is never negative, and it is 0 exactly for a field the size does not show |
| Input.IsNearLimit | src/components/template-text-input-group.tsx:35-39 | The integer test agrees with `count > limit * 0.8` over the reals |
| Input.IsAtLimit | src/components/template-text-input-group.tsx:41-45 | `count >= limit`; with a positive cap, a field at its limit is also near it |
| Input.HiddenFieldAtLimit | src/components/template-text-input-group.tsx:41-45 | A field the paper size does not show has cap 0, so it always reads as at its limit |
| Input.EditRespectsCap | src/components/template-text-input-group.tsx:14-45 | After an edit to a capped field its count never passes the cap, and the field is at its limit exactly when the typed text reached the cap |
| Escape.EscapeXml | src/components/svg-download.tsx:29-34 | `escapeXml` leaves no `<` or `>`, never shortens the text, and returns it unchanged exactly when it holds none of `&`, `<`, `>` |
| Escape.ReplaceAll | src/components/svg-download.tsx:31-33 | A replacement pass leaves text without its character unchanged |
| Escape.EscapeXmlAppend | src/components/svg-download.tsx:29-34 | Escaping distributes over concatenation |
| Escape.EscapeXmlChar | src/components/svg-download.tsx:29-34 | A single character escapes to its own entity, or to itself |
| Escape.EscapeXmlIsPerChar | src/components/svg-download.tsx:29-34 | The three passes, `&` first, amount to escaping each character on its own |
| Escape.UnescapeEscape | src/components/svg-download.tsx:29-34 | Decoding the escaped text gives back the original |
| Escape.EscapeXmlInjective | src/components/svg-download.tsx:29-34 | Different texts never escape to the same markup |
| Escape.EscapeXmlWellEscaped | src/components/svg-download.tsx:29-34 | The output holds no `<` or `>`, and every `&` begins one of the three entities |
| Escape.EscapeUnescape | src/components/svg-download.tsx:29-34 | Every well-escaped string is the escape of its decoding, so escaping is onto the well-escaped strings |
| Escape.EscapePlainText | src/components/svg-download.tsx:29-34 | Text free of `&`, `<` and `>` is written as it is |
| Escape.EscapeExample | src/components/svg-download.tsx:29-34 | `A & B < C` is written `A &amp; B &lt; C` |
| Svg.LinesStackDown | src/components/svg-download.tsx:43-100 | Within a section, lines share x and go down by 24 in the headers or 26 in the body, starting at y 80 or at the body's start |
| Svg.LinePosition | src/components/svg-download.tsx:43-100 | Only the right header is end-anchored, at `width - 60`; the other sections start at x 60 |
| Svg.ActiveSections | src/components/svg-download.tsx:42-100 | The sections rendered are exactly the shown ones, in the order topLeft, topRight, body |
| Svg.ActiveSectionsOfConfig | src/lib/paper-dimension.config.ts:70-121 | The configured field lists are already in rendering order |
| Svg.ExportGroups | src/components/svg-download.tsx:42-100 | The groups exist exactly when every section lays out, one group per section in order |
| Svg.PreviewGroups | src/components/preview-sections.tsx:20-91 | The preview groups exist exactly when every section lays out, one group per section in order |
| Svg.GenerateSvg | src/components/svg-download.tsx:24-106 | The document has the page's size and view box and a white page-sized background, with one group per shown section: group `k` is for the `k`-th shown section in the order top-left, top-right, body |
| Svg.PreviewSections | src/components/preview-sections.tsx:17-94 | The preview has one group per shown section: group `k` is for the `k`-th shown section in the order top-left, top-right, body |
| Svg.GroupMatches | src/components/preview-sections.tsx:69-91 | For the same lines, the preview group and the export group have the same section and positions, and each exported text is the escaped preview text, which decodes back to it |
| Svg.PreviewMatchesExport | src/components/preview-sections.tsx:17-94 | The preview and the export agree: both return or neither does; they have the same sections and line counts at the same positions; each exported line is the escaped preview line and decodes back to it |
| Svg.ExportTextIsWellEscaped | src/components/svg-download.tsx:43-100 | Every exported line is well-formed XML character data |
| Svg.RenderersTerminate | src/components/svg-download.tsx:42-100 | For every configured paper size both renderers return, whatever the letter and record |
| Svg.GroupDependsOnOwnSection | src/components/svg-download.tsx:42-100 | Editing one section leaves every other section's exported group unchanged |
| Svg.ExportPlacement | src/components/svg-download.tsx:43-100 | Group k is a shown section with its group id; its line i is line i of the section's layout, escaped, at 16px, at that line's position |
| Svg.SingleLineLayout | src/utils/format-text.ts:76-83 | A short, non-blank text without newlines is laid out as that single line |
| Svg.SingleBodyLineExport | src/components/svg-download.tsx:82-100 | A body-only document whose body lays out to one line holds just that line, escaped, at the body's first position |
| Svg.GreetingExport | src/components/svg-download.tsx:24-106 | On A6 Portrait, `Dear {{name}}` with name bound to Sam exports a single body text `Dear Sam` at (60, 80) |
| Editor.EditorConfig | src/components/svg-letter-editor.tsx:34-85 | The editor's own configuration table equals the shared one |
| Editor.EditorPaperDimensions | src/components/svg-letter-editor.tsx:103-109 | The editor's own pixel sizes equal those of the shared table |
| Editor.EditorFormatText | src/components/svg-letter-editor.tsx:262-288 | The editor's `formatText`, which reads the width from the selected size, lays out as the shared one does |
| Editor.EditorShowsPlaceholders | src/components/svg-letter-editor.tsx:467 | With the editor's empty record, placeholders stay as typed and only the layout acts |
| Editor.EditorTemplateTags | src/components/svg-letter-editor.tsx:115-129 | The editor's tag list equals the tag panel's list |
| Editor.EditorCsvTemplate | src/components/svg-letter-editor.tsx:370-378 | The editor's CSV content equals the tag panel's, and is refused exactly when there are no tags |
| Editor.EditorHandleInputChange | src/components/svg-letter-editor.tsx:223-233 | The editor stores what the input group stores |
| Editor.EditorLimitFlags | src/components/svg-letter-editor.tsx:235-253 | The editor's near-limit and at-limit flags equal the input group's |
| Editor.EditorGenerateSvg | src/components/svg-letter-editor.tsx:290-344 | The editor's SVG document equals the download component's for the same size, rendered with the empty record |
| Editor.EditorPreviewSections | src/components/svg-letter-editor.tsx:400-464 | The editor's preview equals the preview component's |
| Editor.EditorAlwaysRenders | src/components/svg-letter-editor.tsx:290-344 | The editor always produces a document and a preview |
| Editor.EditorExportKeepsPlaceholders | src/components/svg-letter-editor.tsx:290-344 | Each exported line is the escaped layout of the field's own text, placeholders included |

## Left out

- The serialised SVG text (XML prolog, comments, whitespace and attribute order) is left out. The document is modelled as a tree of groups and text elements with the same attributes.
- JSX, CSS classes, React state, memoisation and re-rendering are left out. The preview's React keys are kept only as group ids.
- Zoom, pan and the container's aspect ratio are UI and are left out.
- The Blob, object-URL and anchor-click download plumbing, file names and `alert` are I/O and are left out. The alert is the `NoTemplateTags` error.
- Strings are sequences of Dafny characters. JavaScript counts UTF-16 code units, and the two differ for characters outside the Basic Multilingual Plane, in `length`, `slice` and the sort order.
- The record is a map from string to string. Lookups that reach `Object.prototype` members (a key named `constructor`, for instance) and a null record (`if (!data)`) are left out: every caller passes an object.
- Layout.BudgetX2: `maxWidths[section]` for a section name inherited from `Object.prototype` (`constructor`, `toString`, `__proto__`) reads a function or object, not a number, and the capacity becomes NaN. The model treats every name the table does not define as falling back to the body budget. Every caller passes one of the three section names.
- `wrapText`'s `fontSize` parameter is left out, because every caller uses the default of 16.
- Layout.FormatText: with a capacity below 2 the source never returns when a word longer than the capacity reaches the hard-split loop with an empty current line. The model gives `None` in exactly that case and promises a result for every input only for capacity 2 or more.
- WordWrap.Wrap: does not bound the length of an over-long word that follows a flushed line. The code emits that word whole, so the model promises only `Fits`.
- The regular expression's `lastIndex` state is left out. The global scan is modelled directly as a left-to-right token stream.
- Svg.PreviewSections: React escapes the preview's text itself when drawing, and that escaping is not modelled. The preview holds the unescaped lines.
- Header lines can reach into the body on A4 when a header wraps to many lines. The positions are modelled, but no non-overlap property is claimed, because the source does not keep one.
- Tags.CsvTemplate: a tag containing a comma splits into two CSV columns, and a tag containing a newline (the key pattern admits one inside `{{…}}`) splits the header over two lines. The content is still the comma-joined tags; `Tags.CsvHeaderRoundTrip` requires comma-free tags and `Tags.CsvTemplateOneLine` newline-free ones.
- Labels, descriptions and the millimetre sizes of the paper table are modelled as data only.
