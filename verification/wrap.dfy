/**
  The greedy line wrapper `wrapText` of src/utils/format-text.ts (duplicated verbatim in
  the monolithic editor component).

  The wrapper receives the per-line capacity `maxCharsPerLine` as an integer; how the
  capacity follows from a pixel width lives in the Layout module. The source's
  over-long-word loop only makes progress when the capacity is at least 2; for a
  smaller capacity it spins forever, and the model returns `None` for such a call.
 */
module WordWrap {
  import opened Results
  import opened Strings

  /** The loop state of `wrapText`: the finished `lines` and the `currentLine` being filled. */
  datatype WrapState = WrapState(lines: seq<string>, current: string)

  /** JavaScript `s.substring(0, end)`: a non-positive end gives "", an end past the string gives all of it. */
  function SubstringTo(s: string, end: int): string {
    if end <= 0 then "" else if end >= |s| then s else s[..end]
  }

  /** JavaScript `s.substring(start)`: a non-positive start gives the whole string. */
  function SubstringFrom(s: string, start: int): string {
    if start <= 0 then s else if start >= |s| then "" else s[start..]
  }

  /** With a capacity of at most 1 one turn of the over-long-word loop emits "-" and leaves the word as it was, so the loop never exits. */
  lemma HardSplitStalls(remaining: string, cap: int)
    requires cap <= 1 && |remaining| > cap
    ensures SubstringTo(remaining, cap - 1) + "-" == "-"
    ensures SubstringFrom(remaining, cap - 1) == remaining
    ensures |SubstringFrom(remaining, cap - 1)| > cap
  {
  }

  /** With a capacity of at least 2 one turn of the loop cuts `cap - 1` characters off the front. */
  lemma HardSplitTurn(remaining: string, cap: int)
    requires cap >= 2 && |remaining| > cap
    ensures SubstringTo(remaining, cap - 1) == remaining[..cap - 1]
    ensures SubstringFrom(remaining, cap - 1) == remaining[cap - 1..]
    ensures |SubstringFrom(remaining, cap - 1)| < |remaining|
  {
  }

  /** A string without its last character. */
  function DropLast(s: string): string {
    if |s| == 0 then "" else s[..|s| - 1]
  }

  /** The hard-split fragments with their hyphens taken off, run together. */
  function Unhyphenate(pieces: seq<string>): string {
    if |pieces| == 0 then "" else DropLast(pieces[0]) + Unhyphenate(pieces[1..])
  }

  /** One fragment put in front of the fragments of the rest of the word. */
  lemma HardSplitCons(word: string, cap: int, piece: string, pieces: seq<string>, rem: string)
    requires cap >= 2 && |word| > cap && piece == word[..cap - 1] + "-"
    requires forall i :: 0 <= i < |pieces| ==> |pieces[i]| == cap && pieces[i][cap - 1] == '-'
    requires Unhyphenate(pieces) + rem == word[cap - 1..]
    ensures forall i :: 0 <= i < |[piece] + pieces| ==> |([piece] + pieces)[i]| == cap && ([piece] + pieces)[i][cap - 1] == '-'
    ensures Unhyphenate([piece] + pieces) + rem == word
  {
    var all := [piece] + pieces;
    assert all[1..] == pieces;
    assert DropLast(piece) == word[..cap - 1];
    assert Unhyphenate(all) == word[..cap - 1] + Unhyphenate(pieces);
    assert word == word[..cap - 1] + word[cap - 1..];
    forall i | 0 <= i < |all|
      ensures |all[i]| == cap && all[i][cap - 1] == '-'
    {
      if i > 0 {
        assert all[i] == pieces[i - 1];
      }
    }
  }

  /**
    The over-long-word loop: fragments of `cap - 1` characters plus "-" are emitted while
    the remainder is longer than `cap`; the remainder then seeds the next line.
   */
  function HardSplit(word: string, cap: int): (r: (seq<string>, string))
    requires cap >= 2
    ensures |r.1| <= cap
    ensures forall i :: 0 <= i < |r.0| ==> |r.0[i]| == cap && r.0[i][cap - 1] == '-'
    ensures |word| > cap <==> |r.0| > 0
    ensures |r.0| > 0 ==> |r.1| > 1
    ensures word != "" ==> r.1 != ""
    ensures Unhyphenate(r.0) + r.1 == word
    decreases |word|
  {
    if |word| <= cap then ([], word)
    else
      var rest := HardSplit(word[cap - 1..], cap);
      var piece := word[..cap - 1] + "-";
      HardSplitCons(word, cap, piece, rest.0, rest.1);
      ([piece] + rest.0, rest.1)
  }

  /** One turn of `for (const word of words)`; `None` when the over-long-word loop would spin forever. */
  function Step(st: WrapState, word: string, cap: int): (r: Option<WrapState>)
    ensures r.None? <==> st.current == "" && |word| > cap && cap < 2
    ensures r.Some? ==> |r.value.lines| >= |st.lines| && r.value.lines[..|st.lines|] == st.lines
  {
    var testLine := if st.current != "" then st.current + " " + word else word;
    if |testLine| <= cap then Some(WrapState(st.lines, testLine))
    else if st.current != "" then Some(WrapState(st.lines + [st.current], word))
    else if cap < 2 then None
    else
      var split := HardSplit(word, cap);
      Some(WrapState(st.lines + split.0, split.1))
  }

  /** The state after the loop has consumed `words`. */
  function Fold(words: seq<string>, cap: int): (r: Option<WrapState>)
    ensures cap >= 2 ==> r.Some?
    decreases |words|
  {
    if |words| == 0 then Some(WrapState([], ""))
    else match Fold(words[..|words| - 1], cap)
      case None => None
      case Some(st) => Step(st, words[|words| - 1], cap)
  }

  /** The lines a final state yields: `currentLine` is flushed when non-empty. */
  function Flush(st: WrapState): (r: seq<string>)
    ensures |r| >= |st.lines| && r[..|st.lines|] == st.lines
    ensures (forall i :: 0 <= i < |st.lines| ==> st.lines[i] != "") ==> forall i :: 0 <= i < |r| ==> r[i] != ""
    ensures |r| > 0 <==> st.lines != [] || st.current != ""
    ensures |r| <= |st.lines| + 1
    ensures |r| > |st.lines| ==> r[|st.lines|] == st.current && st.current != ""
  {
    if st.current != "" then st.lines + [st.current] else st.lines
  }

  /** A wrapped line respects the capacity, or is a single unbreakable word. */
  predicate Fits(line: string, cap: int) {
    |line| <= cap || ' ' !in line
  }

  /** What the loop keeps true of its state. */
  predicate Invariant(st: WrapState, cap: int) {
    && (forall i :: 0 <= i < |st.lines| ==> st.lines[i] != "" && Fits(st.lines[i], cap))
    && Fits(st.current, cap)
  }

  lemma StepKeepsInvariant(st: WrapState, word: string, cap: int)
    requires Invariant(st, cap) && ' ' !in word
    requires Step(st, word, cap).Some?
    ensures Invariant(Step(st, word, cap).value, cap)
  {
  }

  /** Every state the loop reaches satisfies the invariant. */
  lemma {:induction false} FoldKeepsInvariant(words: seq<string>, cap: int)
    requires forall i :: 0 <= i < |words| ==> ' ' !in words[i]
    requires Fold(words, cap).Some?
    ensures Invariant(Fold(words, cap).value, cap)
    decreases |words|
  {
    if |words| > 0 {
      var init := words[..|words| - 1];
      assert forall i :: 0 <= i < |init| ==> init[i] == words[i];
      FoldKeepsInvariant(init, cap);
      StepKeepsInvariant(Fold(init, cap).value, words[|words| - 1], cap);
    }
  }

  /**
    `wrapText(text, maxWidth)` with `maxCharsPerLine = cap`: a text that fits is returned
    as the only line; otherwise the words (split on single spaces) are packed greedily.
   */
  function Wrap(text: string, cap: int): (r: Option<seq<string>>)
    ensures |text| <= cap ==> r == Some([text])
    ensures cap >= 2 ==> r.Some?
    ensures r.Some? ==> forall i :: 0 <= i < |r.value| ==> Fits(r.value[i], cap)
  {
    if |text| <= cap then Some([text])
    else
      var words := Split(text, ' ');
      match Fold(words, cap)
      case None => None
      case Some(st) =>
        FoldKeepsInvariant(words, cap);
        Some(Flush(st))
  }

  /** Once some line or a non-empty current line exists, it is never lost. */
  predicate Started(st: WrapState) {
    st.lines != [] || st.current != ""
  }

  /** A non-empty word always leaves the loop with something to emit. */
  lemma {:induction false} FoldStarts(words: seq<string>, cap: int, k: int)
    requires 0 <= k < |words| && words[k] != ""
    requires Fold(words, cap).Some?
    ensures Started(Fold(words, cap).value)
    decreases |words|
  {
    var init := words[..|words| - 1];
    if k < |words| - 1 {
      assert init[k] == words[k];
      FoldStarts(init, cap, k);
    }
  }

  /** A text holding any character other than a space wraps to at least one line, and no line is empty. */
  lemma WrapNonBlank(text: string, cap: int, k: int)
    requires 0 <= k < |text| && text[k] != ' '
    requires Wrap(text, cap).Some?
    ensures |Wrap(text, cap).value| > 0
    ensures forall i :: 0 <= i < |Wrap(text, cap).value| ==> Wrap(text, cap).value[i] != ""
  {
    if |text| > cap {
      var words := Split(text, ' ');
      SplitKeepsOtherChar(text, ' ', k);
      var w :| w in words && w != "";
      var j :| 0 <= j < |words| && words[j] == w;
      FoldStarts(words, cap, j);
      FoldKeepsInvariant(words, cap);
    }
  }

  /** One more fitting word extends the space-joined lines by a space and that word. */
  lemma StepRoundTrip(st: WrapState, w: string, cap: int)
    requires st.current != "" && w != "" && |w| <= cap
    ensures Step(st, w, cap).Some?
    ensures Step(st, w, cap).value.current != ""
    ensures var next := Step(st, w, cap).value;
      Join(next.lines + [next.current], ' ') == Join(st.lines + [st.current], ' ') + [' '] + w
  {
    var next := Step(st, w, cap).value;
    var before := st.lines + [st.current];
    if |st.current + " " + w| <= cap {
      assert next.lines + [next.current] == st.lines + [st.current + " " + w];
      if |st.lines| == 0 {
        assert Join([st.current + " " + w], ' ') == Join([st.current], ' ') + [' '] + w;
      } else {
        JoinAppend(st.lines, st.current + " " + w, ' ');
        JoinAppend(st.lines, st.current, ' ');
      }
    } else {
      assert next.lines + [next.current] == before + [w];
      JoinAppend(before, w, ' ');
    }
  }

  /** Joining the lines with single spaces gives back the words joined the same way. */
  lemma {:induction false} FoldRoundTrip(words: seq<string>, cap: int)
    requires |words| > 0
    requires forall i :: 0 <= i < |words| ==> words[i] != "" && |words[i]| <= cap
    ensures Fold(words, cap).Some?
    ensures Fold(words, cap).value.current != ""
    ensures Join(Fold(words, cap).value.lines + [Fold(words, cap).value.current], ' ') == Join(words, ' ')
    decreases |words|
  {
    var w := words[|words| - 1];
    var init := words[..|words| - 1];
    if |words| == 1 {
      assert init == [];
    } else {
      assert forall i :: 0 <= i < |init| ==> init[i] == words[i];
      FoldRoundTrip(init, cap);
      var st := Fold(init, cap).value;
      StepRoundTrip(st, w, cap);
      JoinAppend(init, w, ' ');
      assert init + [w] == words;
    }
  }

  /**
    With no empty word (no leading, trailing or doubled space) and no word longer than the
    capacity, joining the wrapped lines with single spaces reproduces the text.
   */
  lemma WrapRoundTrip(text: string, cap: int)
    requires forall i :: 0 <= i < |Split(text, ' ')| ==> Split(text, ' ')[i] != "" && |Split(text, ' ')[i]| <= cap
    ensures Wrap(text, cap).Some?
    ensures Join(Wrap(text, cap).value, ' ') == text
  {
    JoinSplit(text, ' ');
    if |text| > cap {
      FoldRoundTrip(Split(text, ' '), cap);
    }
  }

  /** The stalled case: with capacity 1 the two-letter word `ab` is never shortened. */
  lemma CapacityOneDiverges()
    ensures Wrap("ab", 1) == None
  {
    var words := Split("ab", ' ');
    assert words == ["ab"] by {
      SplitNoSeparator("ab", ' ');
    }
    assert words[..0] == [];
  }

  /**
    Two words that do not share a line: the first fills the line, and the second, however
    long, becomes the next line whole, because it follows a flush.
   */
  lemma FlushThenWholeWord(a: string, b: string, cap: int)
    requires a != "" && ' ' !in a && ' ' !in b && b != ""
    requires |a| <= cap < |a| + 1 + |b|
    ensures Wrap(a + [' '] + b, cap) == Some([a, b])
  {
    var words := Split(a + [' '] + b, ' ');
    SplitAtFirst(a, b, ' ');
    SplitNoSeparator(b, ' ');
    assert words == [a, b];
    assert words[..1] == [a] && [a][..0] == [];
    assert Fold([a], cap) == Some(WrapState([], a));
    assert a + " " + b == a + [' '] + b;
    assert Fold(words, cap) == Step(WrapState([], a), b, cap);
    assert [] + [a] == [a];
  }

  /** An over-long word after a flush is emitted whole: `ab cdefgh` at capacity 4 gives `ab` and `cdefgh`. */
  lemma LongWordAfterFlushExample(a: string, b: string)
    requires a == "ab" && b == "cdefgh"
    ensures Wrap(a + [' '] + b, 4) == Some([a, b])
  {
    assert a[0] != ' ' && a[1] != ' ';
    assert forall i :: 0 <= i < |b| ==> b[i] != ' ';
    FlushThenWholeWord(a, b, 4);
  }

  /** A single over-long word is hard-split: its fragments, then its remainder. */
  lemma LoneLongWord(w: string, cap: int)
    requires cap >= 2 && ' ' !in w && |w| > cap
    ensures Wrap(w, cap) == Some(HardSplit(w, cap).0 + [HardSplit(w, cap).1])
  {
    SplitNoSeparator(w, ' ');
    assert [w][..0] == [];
    var split := HardSplit(w, cap);
    assert Fold([w], cap) == Step(WrapState([], ""), w, cap);
    assert [] + split.0 == split.0;
  }

  /** The same word on its own is hard-split: `cdefgh` at capacity 4 gives `cde-` and `fgh`. */
  lemma LongWordAloneExample(w: string)
    requires w == "cdefgh"
    ensures Wrap(w, 4) == Some(["cde-", "fgh"])
  {
    assert ' ' !in w by {
      assert forall i :: 0 <= i < |w| ==> w[i] != ' ';
    }
    LoneLongWord(w, 4);
    assert HardSplit(w, 4) == (["cde-"], "fgh") by {
      assert w[3..] == "fgh" && w[..3] + "-" == "cde-";
      HardSplitLong([], w, 4);
      HardSplitShort(w[3..], 4);
      assert [] + ["cde-"] + [] == ["cde-"] && [] + HardSplit(w, 4).0 == HardSplit(w, 4).0;
    }
    assert ["cde-"] + ["fgh"] == ["cde-", "fgh"];
  }

  /** The over-long-word loop of `wrapText`: cut fragments off the front while the rest is too long. */
  method SplitLongWord(word: string, cap: int) returns (pieces: seq<string>, remainingWord: string)
    requires cap >= 2
    ensures (pieces, remainingWord) == HardSplit(word, cap)
  {
    pieces := [];
    remainingWord := word;
    while |remainingWord| > cap
      invariant pieces + HardSplit(remainingWord, cap).0 == HardSplit(word, cap).0
      invariant HardSplit(remainingWord, cap).1 == HardSplit(word, cap).1
      decreases |remainingWord|
    {
      var piece := remainingWord[..cap - 1] + "-";
      var next := remainingWord[cap - 1..];
      HardSplitLong(pieces, remainingWord, cap);
      pieces := pieces + [piece];
      remainingWord := next;
    }
    HardSplitShort(remainingWord, cap);
    assert pieces + [] == pieces;
  }

  /** A word that is too long loses one fragment to `HardSplit`, which joins the fragments already cut, and the rest is split the same way. */
  lemma HardSplitLong(done: seq<string>, word: string, cap: int)
    requires cap >= 2 && |word| > cap
    ensures (done + [word[..cap - 1] + "-"]) + HardSplit(word[cap - 1..], cap).0 == done + HardSplit(word, cap).0
    ensures HardSplit(word, cap).1 == HardSplit(word[cap - 1..], cap).1
  {
    var tail := HardSplit(word[cap - 1..], cap).0;
    assert HardSplit(word, cap).0 == [word[..cap - 1] + "-"] + tail;
    assert (done + [word[..cap - 1] + "-"]) + tail == done + ([word[..cap - 1] + "-"] + tail);
  }

  /** A word that fits is left whole by `HardSplit`. */
  lemma HardSplitShort(word: string, cap: int)
    requires cap >= 2 && |word| <= cap
    ensures HardSplit(word, cap) == ([], word)
  {
  }

  /** The loop of `wrapText`, statement by statement. */
  method WrapText(text: string, cap: int) returns (lines: seq<string>)
    requires cap >= 2
    ensures Wrap(text, cap) == Some(lines)
  {
    if |text| <= cap {
      return [text];
    }
    var words := Split(text, ' ');
    lines := [];
    var currentLine := "";
    var i := 0;
    while i < |words|
      invariant 0 <= i <= |words|
      invariant Fold(words[..i], cap) == Some(WrapState(lines, currentLine))
    {
      var word := words[i];
      ghost var st := WrapState(lines, currentLine);
      assert words[..i + 1][..i] == words[..i];
      assert Fold(words[..i + 1], cap) == Step(st, word, cap);
      var testLine := if currentLine != "" then currentLine + " " + word else word;
      if |testLine| <= cap {
        currentLine := testLine;
      } else if currentLine != "" {
        lines := lines + [currentLine];
        currentLine := word;
      } else {
        var pieces, remainingWord := SplitLongWord(word, cap);
        lines := lines + pieces;
        currentLine := remainingWord;
      }
      assert Step(st, word, cap) == Some(WrapState(lines, currentLine));
      i := i + 1;
    }
    assert words[..i] == words;
    if currentLine != "" {
      lines := lines + [currentLine];
    }
  }
}
