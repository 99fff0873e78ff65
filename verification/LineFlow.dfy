/** Line breaking and placement of styled text runs (crates/renderer-core/src/text_layout.rs). Glyph
    advances come in as a measure, and white space as a test on characters. */
module LineFlow {
  import opened Sequences
  import opened Buffers

  datatype Run = Run(text: string, size: real)

  datatype Token = Token(ch: char, advance: real, size: real, run: nat, whitespace: bool)

  datatype Item = Glyph(token: Token) | Newline

  datatype Font = Font(advance: (char, real) -> real, space: char -> bool)

  const DEFAULT_LINE_HEIGHT: real := 16.0

  function SizeOf(run: Run): (size: real)
    ensures size > 0.0 && (run.size > 0.0 ==> size == run.size)
  {
    if run.size > 0.0 then run.size else DEFAULT_LINE_HEIGHT
  }

  function ItemOf(font: Font, run: Run, r: nat, ch: char): Item {
    if ch == '\n' then Newline else Glyph(Token(ch, font.advance(ch, SizeOf(run)), SizeOf(run), r, font.space(ch)))
  }

  function RunItems(font: Font, run: Run, r: nat): seq<Item> {
    seq(|run.text|, k requires 0 <= k < |run.text| => ItemOf(font, run, r, run.text[k]))
  }

  /** All characters of all runs in reading order. */
  function Items(font: Font, runs: seq<Run>): seq<Item> {
    if runs == [] then [] else Items(font, runs[..|runs| - 1]) + RunItems(font, runs[|runs| - 1], |runs| - 1)
  }

  // ---- Widths ---------------------------------------------------------------

  function Width(ts: seq<Token>): real {
    if ts == [] then 0.0 else Width(ts[..|ts| - 1]) + ts[|ts| - 1].advance
  }

  /** The width up to and including the last visible token. */
  function VisibleWidth(ts: seq<Token>): real {
    if ts == [] then 0.0 else if ts[|ts| - 1].whitespace then VisibleWidth(ts[..|ts| - 1]) else Width(ts)
  }

  /** The width of the visible tokens alone. */
  function GlyphWidth(ts: seq<Token>): real {
    if ts == [] then 0.0
    else GlyphWidth(ts[..|ts| - 1]) + (if ts[|ts| - 1].whitespace then 0.0 else ts[|ts| - 1].advance)
  }

  function VisibleCount(ts: seq<Token>): nat {
    if ts == [] then 0 else VisibleCount(ts[..|ts| - 1]) + (if ts[|ts| - 1].whitespace then 0 else 1)
  }

  /** How many white-space tokens have a visible one before them. */
  function Gaps(ts: seq<Token>): nat {
    if ts == [] then 0
    else
      var front := ts[..|ts| - 1];
      Gaps(front) + if ts[|ts| - 1].whitespace && VisibleCount(front) > 0 then 1 else 0
  }

  /** How many of them have a visible one after them, too. */
  function InnerGaps(ts: seq<Token>): nat {
    if ts == [] then 0 else if ts[|ts| - 1].whitespace then InnerGaps(ts[..|ts| - 1]) else Gaps(ts)
  }

  predicate AllVisible(ts: seq<Token>) { forall i :: 0 <= i < |ts| ==> !ts[i].whitespace }

  predicate NonNegative(ts: seq<Token>) { forall i :: 0 <= i < |ts| ==> ts[i].advance >= 0.0 }

  /** A single visible glyph, placed first. */
  predicate LoneGlyph(ts: seq<Token>) {
    ts != [] && !ts[0].whitespace && forall i :: 0 < i < |ts| ==> ts[i].whitespace
  }

  predicate Fits(ts: seq<Token>, w: real) { VisibleWidth(ts) <= w || LoneGlyph(ts) }

  lemma WidthSnoc(ts: seq<Token>, t: Token)
    ensures Width(ts + [t]) == Width(ts) + t.advance
    ensures VisibleWidth(ts + [t]) == if t.whitespace then VisibleWidth(ts) else Width(ts) + t.advance
  {
    assert (ts + [t])[..|ts|] == ts;
  }

  lemma CountsSnoc(ts: seq<Token>, t: Token)
    ensures GlyphWidth(ts + [t]) == GlyphWidth(ts) + (if t.whitespace then 0.0 else t.advance)
    ensures VisibleCount(ts + [t]) == VisibleCount(ts) + (if t.whitespace then 0 else 1)
    ensures Gaps(ts + [t]) == Gaps(ts) + (if t.whitespace && VisibleCount(ts) > 0 then 1 else 0)
    ensures InnerGaps(ts + [t]) == if t.whitespace then InnerGaps(ts) else Gaps(ts)
  {
    assert (ts + [t])[..|ts|] == ts;
  }

  lemma {:induction false} WidthConcat(a: seq<Token>, b: seq<Token>)
    ensures Width(a + b) == Width(a) + Width(b)
    ensures b != [] && AllVisible(b) ==> VisibleWidth(a + b) == Width(a) + Width(b)
  {
    if b == [] {
      assert a + b == a;
    } else {
      var n := |b| - 1;
      WidthConcat(a, b[..n]);
      assert a + b == (a + b[..n]) + [b[n]] && b == b[..n] + [b[n]];
      WidthSnoc(a + b[..n], b[n]);
      WidthSnoc(b[..n], b[n]);
    }
  }

  lemma {:induction false} WidthNonNegative(ts: seq<Token>)
    requires NonNegative(ts)
    ensures 0.0 <= VisibleWidth(ts) <= Width(ts)
  {
    if ts != [] { WidthNonNegative(ts[..|ts| - 1]); }
  }

  // ---- Cutting the stream ---------------------------------------------------

  function Tok(i: Item): Token { if i.Glyph? then i.token else Token(' ', 0.0, 0.0, 0, true) }

  function Seg(st: seq<Item>, i: nat, j: nat): (r: seq<Token>)
    requires i <= j <= |st|
    ensures |r| == j - i
  {
    seq(j - i, k requires 0 <= k < j - i => Tok(st[i + k]))
  }

  predicate NoNewline(st: seq<Item>, i: nat, j: nat)
    requires i <= j <= |st|
  {
    forall k :: i <= k < j ==> st[k].Glyph?
  }

  /** One line: the stretch of the stream it holds. */
  datatype Cut = Cut(start: nat, end: nat)

  /** A break before the rest of a word: the word up to `f` would not fit on the line, and the line
      either ends in white space or is one over-long word, cut before the first glyph that does not fit. */
  predicate WrapsAt(st: seq<Item>, w: real, c: Cut, f: nat) {
    && c.start < c.end <= f < |st| && NoNewline(st, c.start, f + 1) && AllVisible(Seg(st, c.end, f + 1)) && w > 0.0
    && Width(Seg(st, c.start, f + 1)) > w
    && (st[c.end - 1].token.whitespace || (f == c.end && AllVisible(Seg(st, c.start, c.end))))
  }

  ghost predicate Breaks(st: seq<Item>, w: real, c: Cut) {
    && c.start <= c.end < |st| && NoNewline(st, c.start, c.end)
    && (st[c.end].Newline? || exists f: nat :: WrapsAt(st, w, c, f))
  }

  /** Where the line after `c` starts: a newline is consumed. */
  function After(st: seq<Item>, c: Cut): nat { if c.end < |st| && st[c.end].Newline? then c.end + 1 else c.end }

  function Resume(st: seq<Item>, cuts: seq<Cut>): nat { if cuts == [] then 0 else After(st, cuts[|cuts| - 1]) }

  /** Lines so far: consecutive stretches of the stream, each with its tokens and a reason to end. */
  ghost predicate Cutting(st: seq<Item>, w: real, lines: seq<seq<Token>>, cuts: seq<Cut>) {
    && |lines| == |cuts|
    && forall i :: 0 <= i < |cuts| ==> CutOk(st, w, lines[i], cuts[i], Resume(st, cuts[..i]))
  }

  ghost predicate CutOk(st: seq<Item>, w: real, line: seq<Token>, c: Cut, from: nat) {
    c.start == from && Breaks(st, w, c) && line == Seg(st, c.start, c.end)
  }

  predicate AllFit(lines: seq<seq<Token>>, w: real) { forall i :: 0 <= i < |lines| ==> Fits(lines[i], w) }

  /** The pending line and word after `n` items. */
  ghost predicate Pending(st: seq<Item>, w: real, n: nat, lines: seq<seq<Token>>, cuts: seq<Cut>,
                          current: seq<Token>, word: seq<Token>, lineWidth: real, wordWidth: real)
  {
    && n <= |st| && Cutting(st, w, lines, cuts) && Resume(st, cuts) <= n && NoNewline(st, Resume(st, cuts), n)
    && Seg(st, Resume(st, cuts), n) == current + word
    && lineWidth == Width(current) && wordWidth == Width(word)
    && (current != [] ==> current[|current| - 1].whitespace) && AllVisible(word)
  }

  /** Every finished line fits, and so will the pending one. */
  predicate Fitting(w: real, lines: seq<seq<Token>>, current: seq<Token>, word: seq<Token>) {
    && AllFit(lines, w) && Fits(current, w)
    && (word != [] ==> Width(current) + Width(word) <= w || (current == [] && |word| == 1))
  }

  lemma CutMore(st: seq<Item>, w: real, lines: seq<seq<Token>>, cuts: seq<Cut>, line: seq<Token>, c: Cut)
    requires Cutting(st, w, lines, cuts) && CutOk(st, w, line, c, Resume(st, cuts))
    ensures Cutting(st, w, lines + [line], cuts + [c]) && Resume(st, cuts + [c]) == After(st, c)
  {
    hide CutOk;
    forall i | 0 <= i < |cuts| + 1
      ensures CutOk(st, w, (lines + [line])[i], (cuts + [c])[i], Resume(st, (cuts + [c])[..i]))
    {
      if i < |cuts| { assert (cuts + [c])[..i] == cuts[..i]; } else { assert (cuts + [c])[..i] == cuts; }
    }
  }

  lemma SegParts(st: seq<Item>, i: nat, j: nat, k: nat)
    requires i <= j <= k <= |st|
    ensures Seg(st, i, k) == Seg(st, i, j) + Seg(st, j, k)
    ensures Seg(st, i, k)[..j - i] == Seg(st, i, j) && Seg(st, i, k)[j - i..] == Seg(st, j, k)
  {
  }

  lemma SegSnoc(st: seq<Item>, i: nat, n: nat)
    requires i <= n < |st| && st[n].Glyph?
    ensures Seg(st, i, n + 1) == Seg(st, i, n) + [st[n].token]
  {
    var s := Seg(st, i, n + 1);
    assert st[i + (n - i)] == st[n] && s[n - i] == Tok(st[n]);
    assert s == s[..n - i] + [s[n - i]];
    assert s[..n - i] == Seg(st, i, n);
  }

  // ---- One character --------------------------------------------------------

  /** A committed word closes the line with what it measures. */
  lemma CommitFits(w: real, lines: seq<seq<Token>>, current: seq<Token>, word: seq<Token>)
    requires Fitting(w, lines, current, word) && AllVisible(word)
    ensures Fits(current + word, w)
  {
    if word == [] {
      assert current + word == current;
    } else {
      WidthConcat(current, word);
      assert current == [] ==> current + word == word;
    }
  }

  lemma HardBreak(st: seq<Item>, w: real, n: nat, lines: seq<seq<Token>>, cuts: seq<Cut>, current: seq<Token>,
                  word: seq<Token>, lineWidth: real, wordWidth: real)
    requires Pending(st, w, n, lines, cuts, current, word, lineWidth, wordWidth) && n < |st| && st[n].Newline?
    ensures Pending(st, w, n + 1, lines + [current + word], cuts + [Cut(Resume(st, cuts), n)], [], [], 0.0, 0.0)
    ensures w > 0.0 && Fitting(w, lines, current, word) ==> Fitting(w, lines + [current + word], [], [])
  {
    var c := Cut(Resume(st, cuts), n);
    CutMore(st, w, lines, cuts, current + word, c);
    if w > 0.0 && Fitting(w, lines, current, word) { CommitFits(w, lines, current, word); }
  }

  lemma Space(st: seq<Item>, w: real, n: nat, lines: seq<seq<Token>>, cuts: seq<Cut>, current: seq<Token>,
              word: seq<Token>, lineWidth: real, wordWidth: real)
    requires Pending(st, w, n, lines, cuts, current, word, lineWidth, wordWidth) && n < |st| && st[n].Glyph?
    requires st[n].token.whitespace
    ensures Pending(st, w, n + 1, lines, cuts, current + word + [st[n].token], [],
                    lineWidth + wordWidth + st[n].token.advance, 0.0)
    ensures Fitting(w, lines, current, word) ==> Fitting(w, lines, current + word + [st[n].token], [])
  {
    hide Cutting, Seg, VisibleWidth, Width, AllFit, LoneGlyph;
    var t, from := st[n].token, Resume(st, cuts);
    SegSnoc(st, from, n);
    WidthConcat(current, word);
    WidthSnoc(current + word, t);
    NoWidth();
    if Fitting(w, lines, current, word) {
      CommitFits(w, lines, current, word);
      if LoneGlyph(current + word) { LoneSpace(current + word, t); }
    }
  }

  lemma LoneSpace(ts: seq<Token>, t: Token)
    requires t.whitespace && LoneGlyph(ts)
    ensures LoneGlyph(ts + [t])
  {
  }

  lemma NoWidth()
    ensures Width([]) == 0.0 && VisibleWidth([]) == 0.0
  {
  }

  lemma WrapLine(st: seq<Item>, w: real, n: nat, lines: seq<seq<Token>>, cuts: seq<Cut>, current: seq<Token>,
                 word: seq<Token>, lineWidth: real, wordWidth: real)
    requires Pending(st, w, n, lines, cuts, current, word, lineWidth, wordWidth) && n < |st| && st[n].Glyph?
    requires !st[n].token.whitespace
    requires current != [] && w > 0.0 && lineWidth + wordWidth + st[n].token.advance > w
    ensures Pending(st, w, n, lines + [current], cuts + [Cut(Resume(st, cuts), Resume(st, cuts) + |current|)], [],
                    word, 0.0, wordWidth)
    ensures Fitting(w, lines, current, word) && NonNegative(current) ==> Fitting(w, lines + [current], [], word)
  {
    hide Cutting, Width, VisibleWidth, LoneGlyph, Seg, AllFit;
    var t, from := st[n].token, Resume(st, cuts);
    var e := from + |current|;
    var c := Cut(from, e);
    SegParts(st, from, e, n);
    assert (current + word)[..|current|] == current && (current + word)[|current|..] == word;
    SegSnoc(st, from, n);
    SegSnoc(st, e, n);
    WidthConcat(current, word);
    WidthSnoc(current + word, t);
    SegLast(st, from, e);
    assert WrapsAt(st, w, c, n);
    CutMore(st, w, lines, cuts, current, c);
    NoWidth();
    if Fitting(w, lines, current, word) && NonNegative(current) {
      WidthNonNegative(current);
      FitMore(w, lines, current);
    }
  }

  lemma SegLast(st: seq<Item>, i: nat, j: nat)
    requires i < j <= |st|
    ensures Seg(st, i, j)[j - i - 1] == Tok(st[j - 1])
  {
  }

  lemma FitMore(w: real, lines: seq<seq<Token>>, line: seq<Token>)
    requires AllFit(lines, w) && Fits(line, w)
    ensures AllFit(lines + [line], w)
  {
    hide Fits;
  }

  lemma WrapWord(st: seq<Item>, w: real, n: nat, lines: seq<seq<Token>>, cuts: seq<Cut>, word: seq<Token>,
                 lineWidth: real, wordWidth: real)
    requires Pending(st, w, n, lines, cuts, [], word, lineWidth, wordWidth) && n < |st| && st[n].Glyph?
    requires !st[n].token.whitespace
    requires word != [] && w > 0.0 && wordWidth + st[n].token.advance > w
    ensures Pending(st, w, n, lines + [word], cuts + [Cut(Resume(st, cuts), n)], [], [], 0.0, 0.0)
    ensures Fitting(w, lines, [], word) ==> Fitting(w, lines + [word], [], [])
  {
    hide Cutting, Width, VisibleWidth, LoneGlyph, Seg, AllFit;
    var t, from := st[n].token, Resume(st, cuts);
    var c := Cut(from, n);
    assert [] + word == word;
    SegSnoc(st, from, n);
    SegSnoc(st, n, n);
    SegLast(st, from, n);
    WidthSnoc(word, t);
    EmptySeg(st, n);
    assert WrapsAt(st, w, c, n);
    CutMore(st, w, lines, cuts, word, c);
    NoWidth();
    if Fitting(w, lines, [], word) {
      CommitFits(w, lines, [], word);
      FitMore(w, lines, word);
    }
  }

  lemma EmptySeg(st: seq<Item>, n: nat)
    requires n <= |st|
    ensures Seg(st, n, n) == []
  {
  }

  lemma Push(st: seq<Item>, w: real, n: nat, lines: seq<seq<Token>>, cuts: seq<Cut>, current: seq<Token>,
             word: seq<Token>, lineWidth: real, wordWidth: real)
    requires Pending(st, w, n, lines, cuts, current, word, lineWidth, wordWidth) && n < |st| && st[n].Glyph?
    requires !st[n].token.whitespace
    ensures Pending(st, w, n + 1, lines, cuts, current, word + [st[n].token], lineWidth,
                    wordWidth + st[n].token.advance)
    ensures Fitting(w, lines, current, word)
            && (lineWidth + wordWidth + st[n].token.advance <= w || (current == [] && word == [])) ==>
              Fitting(w, lines, current, word + [st[n].token])
  {
    hide Cutting, Seg, VisibleWidth, Width, AllFit, LoneGlyph;
    var t, from := st[n].token, Resume(st, cuts);
    SegSnoc(st, from, n);
    assert (current + word) + [t] == current + (word + [t]);
    WidthSnoc(word, t);
    NoWidth();
  }

  // ---- The whole flow -------------------------------------------------------

  /** The finished cutting: every item accounted for, the last line ending with the stream. */
  ghost predicate Flowed(st: seq<Item>, w: real, lines: seq<seq<Token>>, cuts: seq<Cut>) {
    || (Cutting(st, w, lines, cuts) && Resume(st, cuts) == |st|)
    || (lines != [] && |cuts| == |lines| && Cutting(st, w, lines[..|lines| - 1], cuts[..|cuts| - 1])
        && cuts[|cuts| - 1] == Cut(Resume(st, cuts[..|cuts| - 1]), |st|) && cuts[|cuts| - 1].start < |st|
        && NoNewline(st, cuts[|cuts| - 1].start, |st|)
        && lines[|lines| - 1] == Seg(st, cuts[|cuts| - 1].start, |st|))
  }

  datatype Line = Line(tokens: seq<Token>, visibleWidth: real, glyphWidth: real, justifyGaps: nat, height: real)

  function TokensOf(lines: seq<Line>): (r: seq<seq<Token>>)
    ensures |r| == |lines|
  {
    seq(|lines|, i requires 0 <= i < |lines| => lines[i].tokens)
  }

  /** The size of the token's run, which is the token's own if the run's is not positive or there is none. */
  function LineHeightFor(runs: seq<Run>, t: Token): (height: real)
    ensures t.run < |runs| && t.size == SizeOf(runs[t.run]) ==> height == t.size
    ensures t.run >= |runs| ==> height == t.size
  {
    var size := if t.run < |runs| then runs[t.run].size else 0.0;
    if size > 0.0 then size else t.size
  }

  /** `height` is the tallest of the tokens, or the default when none is taller than zero. */
  predicate IsHeight(runs: seq<Run>, ts: seq<Token>, height: real) {
    || (height > 0.0 && (forall i :: 0 <= i < |ts| ==> LineHeightFor(runs, ts[i]) <= height)
        && exists i :: 0 <= i < |ts| && LineHeightFor(runs, ts[i]) == height)
    || (height == DEFAULT_LINE_HEIGHT && forall i :: 0 <= i < |ts| ==> LineHeightFor(runs, ts[i]) <= 0.0)
  }

  ghost predicate LineOk(runs: seq<Run>, l: Line) {
    && l.visibleWidth == VisibleWidth(l.tokens) && l.glyphWidth == GlyphWidth(l.tokens)
    && l.justifyGaps == |InnerSpaces(l.tokens)| && IsHeight(runs, l.tokens, l.height)
  }

  /** The white space strictly between two visible tokens. */
  ghost function InnerSpaces(ts: seq<Token>): set<nat> {
    set i: nat | i < |ts| && ts[i].whitespace && VisibleIn(ts, 0, i) && VisibleIn(ts, i, |ts|)
  }

  ghost predicate VisibleIn(ts: seq<Token>, i: nat, j: nat)
    requires i <= j <= |ts|
  {
    exists k :: i <= k < j && !ts[k].whitespace
  }

  lemma {:induction false} CountsVisible(ts: seq<Token>)
    ensures VisibleCount(ts) > 0 <==> VisibleIn(ts, 0, |ts|)
  {
    if ts != [] {
      var n := |ts| - 1;
      CountsVisible(ts[..n]);
      if VisibleIn(ts[..n], 0, n) {
        var k :| 0 <= k < n && !ts[..n][k].whitespace;
        assert !ts[k].whitespace;
      }
      if VisibleIn(ts, 0, n + 1) && ts[n].whitespace {
        var k :| 0 <= k < n + 1 && !ts[k].whitespace;
        assert !ts[..n][k].whitespace;
      }
    }
  }

  /** What the loop over a line has measured of the tokens it has seen. */
  ghost predicate Measuring(runs: seq<Run>, ts: seq<Token>, running: real, visibleWidth: real, glyphWidth: real,
                            justifyGaps: nat, pending: nat, seen: bool, height: real) {
    && running == Width(ts) && visibleWidth == VisibleWidth(ts) && glyphWidth == GlyphWidth(ts)
    && seen == (VisibleCount(ts) > 0) && justifyGaps == InnerGaps(ts) && justifyGaps + pending == Gaps(ts)
    && (!seen ==> justifyGaps == pending == 0)
    && TallestIs(runs, ts, height)
  }

  predicate TallestIs(runs: seq<Run>, ts: seq<Token>, height: real) {
    && height >= 0.0 && (forall k :: 0 <= k < |ts| ==> LineHeightFor(runs, ts[k]) <= height)
    && (height == 0.0 || exists k :: 0 <= k < |ts| && LineHeightFor(runs, ts[k]) == height)
  }

  lemma NothingMeasured(runs: seq<Run>)
    ensures Measuring(runs, [], 0.0, 0.0, 0.0, 0, 0, false, 0.0)
  {
  }

  lemma TallestStep(runs: seq<Run>, ts: seq<Token>, height: real, t: Token)
    requires TallestIs(runs, ts, height)
    ensures TallestIs(runs, ts + [t], MaxReal(height, LineHeightFor(runs, t)))
  {
    hide LineHeightFor;
    var all := ts + [t];
    forall k | 0 <= k < |ts| ensures all[k] == ts[k] {}
    assert all[|ts|] == t;
  }

  lemma MeasureStep(runs: seq<Run>, ts: seq<Token>, t: Token, running: real, visibleWidth: real, glyphWidth: real,
                    justifyGaps: nat, pending: nat, seen: bool, height: real)
    requires Measuring(runs, ts, running, visibleWidth, glyphWidth, justifyGaps, pending, seen, height)
    ensures var (now, tall) := (running + t.advance, MaxReal(height, LineHeightFor(runs, t)));
            if t.whitespace then
              Measuring(runs, ts + [t], now, visibleWidth, glyphWidth, justifyGaps,
                        if seen then pending + 1 else pending, seen, tall)
            else
              Measuring(runs, ts + [t], now, now, glyphWidth + t.advance,
                        if seen then justifyGaps + pending else justifyGaps, 0, true, tall)
  {
    WidthSnoc(ts, t);
    CountsSnoc(ts, t);
    TallestStep(runs, ts, height, t);
    hide Width, VisibleWidth, GlyphWidth, VisibleCount, Gaps, InnerGaps, TallestIs, LineHeightFor;
  }

  lemma HeightIs(runs: seq<Run>, ts: seq<Token>, height: real)
    requires TallestIs(runs, ts, height)
    ensures IsHeight(runs, ts, if height <= 0.0 then DEFAULT_LINE_HEIGHT else height)
  {
    hide LineHeightFor;
  }

  method FinalizeLine(tokens: seq<Token>, runs: seq<Run>) returns (line: Line)
    ensures line.tokens == tokens && LineOk(runs, line)
  {
    hide *;
    var visibleWidth, glyphWidth, running, height := 0.0, 0.0, 0.0, 0.0;
    var justifyGaps: nat, pending: nat, seen := 0, 0, false;
    assert tokens[..0] == [];
    NothingMeasured(runs);
    for i := 0 to |tokens|
      invariant Measuring(runs, tokens[..i], running, visibleWidth, glyphWidth, justifyGaps, pending, seen, height)
    {
      var t := tokens[i];
      assert tokens[..i + 1] == tokens[..i] + [t];
      MeasureStep(runs, tokens[..i], t, running, visibleWidth, glyphWidth, justifyGaps, pending, seen, height);
      height := MaxReal(height, LineHeightFor(runs, t));
      running := running + t.advance;
      if t.whitespace {
        if seen { pending := pending + 1; }
      } else {
        if seen { justifyGaps := justifyGaps + pending; }
        pending, seen, visibleWidth, glyphWidth := 0, true, running, glyphWidth + t.advance;
      }
    }
    assert tokens[..|tokens|] == tokens;
    LineMeasured(runs, tokens, running, visibleWidth, glyphWidth, justifyGaps, pending, seen, height);
    if height <= 0.0 { height := DEFAULT_LINE_HEIGHT; }
    line := Line(tokens, visibleWidth, glyphWidth, justifyGaps, height);
  }

  lemma LineMeasured(runs: seq<Run>, ts: seq<Token>, running: real, visibleWidth: real, glyphWidth: real,
                     justifyGaps: nat, pending: nat, seen: bool, height: real)
    requires Measuring(runs, ts, running, visibleWidth, glyphWidth, justifyGaps, pending, seen, height)
    ensures LineOk(runs, Line(ts, visibleWidth, glyphWidth, justifyGaps,
                              if height <= 0.0 then DEFAULT_LINE_HEIGHT else height))
  {
    hide IsHeight, InnerSpaces;
    InnerGapsAre(ts);
    HeightIs(runs, ts, height);
  }

  /** White space after a visible token. */
  ghost function LaterSpaces(ts: seq<Token>): set<nat> {
    set i: nat | i < |ts| && ts[i].whitespace && VisibleIn(ts, 0, i)
  }

  lemma PrefixVisible(ts: seq<Token>, n: nat, i: nat, j: nat)
    requires i <= j <= n <= |ts|
    ensures VisibleIn(ts[..n], i, j) <==> VisibleIn(ts, i, j)
  {
    forall k | i <= k < j ensures ts[..n][k] == ts[k] {}
  }

  lemma {:induction false} GapsAre(ts: seq<Token>)
    ensures Gaps(ts) == |LaterSpaces(ts)|
  {
    if ts != [] {
      GapsAre(ts[..|ts| - 1]);
      CountsVisible(ts[..|ts| - 1]);
      hide LaterSpaces;
      LaterSnoc(ts);
    }
  }

  lemma LaterSnoc(ts: seq<Token>)
    requires ts != []
    ensures var n := |ts| - 1; var front := ts[..n];
            |LaterSpaces(ts)| == |LaterSpaces(front)| + if ts[n].whitespace && VisibleIn(front, 0, n) then 1 else 0
  {
    var n := |ts| - 1;
    var front := ts[..n];
    forall i: nat | i <= n ensures VisibleIn(front, 0, i) <==> VisibleIn(ts, 0, i) { PrefixVisible(ts, n, 0, i); }
    hide VisibleIn;
    if ts[n].whitespace && VisibleIn(ts, 0, n) {
      assert LaterSpaces(ts) == LaterSpaces(front) + {n};
    } else {
      assert LaterSpaces(ts) == LaterSpaces(front);
    }
  }

  lemma {:induction false} InnerGapsAre(ts: seq<Token>)
    ensures InnerGaps(ts) == |InnerSpaces(ts)|
  {
    if ts != [] {
      var n := |ts| - 1;
      if ts[n].whitespace {
        InnerGapsAre(ts[..n]);
        forall i: nat | i < n ensures VisibleIn(ts[..n], 0, i) <==> VisibleIn(ts, 0, i) { PrefixVisible(ts, n, 0, i); }
        forall i: nat | i <= n ensures VisibleIn(ts, i, n + 1) <==> VisibleIn(ts[..n], i, n) { LastSpace(ts, i); }
        hide VisibleIn;
        NoneAfter(ts[..n]);
        assert InnerSpaces(ts) == InnerSpaces(ts[..n]);
      } else {
        GapsAre(ts);
        forall i: nat | i <= n ensures VisibleIn(ts, i, |ts|) { assert !ts[n].whitespace; }
        hide VisibleIn;
        assert InnerSpaces(ts) == LaterSpaces(ts);
      }
    }
  }

  lemma NoneAfter(ts: seq<Token>)
    ensures !VisibleIn(ts, |ts|, |ts|)
  {
  }

  lemma LastSpace(ts: seq<Token>, i: nat)
    requires i < |ts| && ts[|ts| - 1].whitespace
    ensures VisibleIn(ts, i, |ts|) <==> VisibleIn(ts[..|ts| - 1], i, |ts| - 1)
  {
    var n := |ts| - 1;
    PrefixVisible(ts, n, i, n);
    if VisibleIn(ts, i, n + 1) {
      var k :| i <= k < n + 1 && !ts[k].whitespace;
      assert k < n;
    }
  }

  lemma {:induction false} ItemAt(font: Font, runs: seq<Run>, r: nat, k: nat)
    requires r < |runs| && k < |runs[r].text|
    ensures |Items(font, runs[..r])| + |runs[r].text| <= |Items(font, runs)|
    ensures Items(font, runs)[|Items(font, runs[..r])| + k] == ItemOf(font, runs[r], r, runs[r].text[k])
    decreases |runs|
  {
    var n := |runs| - 1;
    if r < n {
      ItemAt(font, runs[..n], r, k);
      assert runs[..n][..r] == runs[..r];
    }
  }

  lemma {:induction false} ItemsLength(font: Font, runs: seq<Run>, r: nat)
    requires r < |runs|
    ensures |Items(font, runs[..r + 1])| == |Items(font, runs[..r])| + |runs[r].text|
  {
    assert runs[..r + 1][..r] == runs[..r];
  }

  /** Every advance is non-negative. */
  predicate Advances(st: seq<Item>) { forall i :: 0 <= i < |st| ==> Tok(st[i]).advance >= 0.0 }

  lemma SegAdvances(st: seq<Item>, i: nat, j: nat)
    requires i <= j <= |st| && Advances(st)
    ensures NonNegative(Seg(st, i, j))
  {
    forall k | 0 <= k < j - i ensures Seg(st, i, j)[k].advance >= 0.0 { assert Seg(st, i, j)[k] == Tok(st[i + k]); }
  }

  lemma PendingBound(st: seq<Item>, w: real, n: nat, lines: seq<seq<Token>>, cuts: seq<Cut>, current: seq<Token>,
                     word: seq<Token>, lineWidth: real, wordWidth: real)
    requires Pending(st, w, n, lines, cuts, current, word, lineWidth, wordWidth)
    ensures Advances(st) ==> NonNegative(current)
    ensures current == [] ==> lineWidth == 0.0
  {
    hide Cutting;
    if Advances(st) {
      SegAdvances(st, Resume(st, cuts), n);
      forall i | 0 <= i < |current| ensures current[i].advance >= 0.0 { assert (current + word)[i] == current[i]; }
    }
  }

  /** What holds between two characters: the pending state, with every finished line measured and fitting. */
  ghost predicate Flowing(runs: seq<Run>, st: seq<Item>, w: real, n: nat, lines: seq<Line>, cuts: seq<Cut>,
                          current: seq<Token>, word: seq<Token>, lineWidth: real, wordWidth: real) {
    && Pending(st, w, n, TokensOf(lines), cuts, current, word, lineWidth, wordWidth)
    && (forall i :: 0 <= i < |lines| ==> LineOk(runs, lines[i]))
    && (w > 0.0 && Advances(st) ==> Fitting(w, TokensOf(lines), current, word))
  }

  lemma TokensSnoc(lines: seq<Line>, line: Line)
    ensures TokensOf(lines + [line]) == TokensOf(lines) + [line.tokens]
  {
  }

  lemma OkSnoc(runs: seq<Run>, lines: seq<Line>, line: Line)
    requires (forall i :: 0 <= i < |lines| ==> LineOk(runs, lines[i])) && LineOk(runs, line)
    ensures forall i :: 0 <= i < |lines + [line]| ==> LineOk(runs, (lines + [line])[i])
  {
    hide LineOk;
  }

  /** The two wrapping checks and the push of one visible glyph. */
  method PlaceVisible(runs: seq<Run>, ghost st: seq<Item>, w: real, ghost n: nat, t: Token, lines0: seq<Line>,
                      ghost cuts0: seq<Cut>, current0: seq<Token>, word0: seq<Token>, lineWidth0: real,
                      wordWidth0: real)
      returns (lines: seq<Line>, ghost cuts: seq<Cut>, current: seq<Token>, word: seq<Token>, lineWidth: real,
               wordWidth: real)
    requires Flowing(runs, st, w, n, lines0, cuts0, current0, word0, lineWidth0, wordWidth0)
    requires n < |st| && st[n] == Glyph(t) && !t.whitespace
    ensures Flowing(runs, st, w, n + 1, lines, cuts, current, word, lineWidth, wordWidth)
  {
    hide Pending, LineOk, Fitting, Advances, TokensOf;
    lines, cuts, current, word, lineWidth, wordWidth := lines0, cuts0, current0, word0, lineWidth0, wordWidth0;
    PendingBound(st, w, n, TokensOf(lines), cuts, current, word, lineWidth, wordWidth);
    if current != [] && lineWidth + wordWidth + t.advance > w && w > 0.0 {
      var line := FinalizeLine(current, runs);
      WrapLine(st, w, n, TokensOf(lines), cuts, current, word, lineWidth, wordWidth);
      TokensSnoc(lines, line);
      OkSnoc(runs, lines, line);
      cuts := cuts + [Cut(Resume(st, cuts), Resume(st, cuts) + |current|)];
      lines, current, lineWidth := lines + [line], [], 0.0;
    }
    if current == [] && wordWidth + t.advance > w && w > 0.0 && word != [] {
      var line := FinalizeLine(word, runs);
      WrapWord(st, w, n, TokensOf(lines), cuts, word, lineWidth, wordWidth);
      TokensSnoc(lines, line);
      OkSnoc(runs, lines, line);
      cuts := cuts + [Cut(Resume(st, cuts), n)];
      lines, word, lineWidth, wordWidth := lines + [line], [], 0.0, 0.0;
    }
    PendingBound(st, w, n, TokensOf(lines), cuts, current, word, lineWidth, wordWidth);
    Push(st, w, n, TokensOf(lines), cuts, current, word, lineWidth, wordWidth);
    word, wordWidth := word + [t], wordWidth + t.advance;
  }

  /** One character of a run: a newline, white space, or a visible glyph. */
  method TakeChar(font: Font, runs: seq<Run>, ghost st: seq<Item>, w: real, ghost n: nat, r: nat, size: real, ch: char,
                  lines0: seq<Line>, ghost cuts0: seq<Cut>, current0: seq<Token>, word0: seq<Token>,
                  lineWidth0: real, wordWidth0: real)
      returns (lines: seq<Line>, ghost cuts: seq<Cut>, current: seq<Token>, word: seq<Token>, lineWidth: real,
               wordWidth: real)
    requires Flowing(runs, st, w, n, lines0, cuts0, current0, word0, lineWidth0, wordWidth0)
    requires r < |runs| && size == SizeOf(runs[r]) && n < |st| && st[n] == ItemOf(font, runs[r], r, ch)
    ensures Flowing(runs, st, w, n + 1, lines, cuts, current, word, lineWidth, wordWidth)
  {
    hide Pending, LineOk, Fitting, Advances, TokensOf;
    lines, cuts, current, word, lineWidth, wordWidth := lines0, cuts0, current0, word0, lineWidth0, wordWidth0;
    if ch == '\n' {
      HardBreak(st, w, n, TokensOf(lines), cuts, current, word, lineWidth, wordWidth);
      var line := FinalizeLine(current + word, runs);
      TokensSnoc(lines, line);
      OkSnoc(runs, lines, line);
      cuts := cuts + [Cut(Resume(st, cuts), n)];
      lines, current, word, lineWidth, wordWidth := lines + [line], [], [], 0.0, 0.0;
      return;
    }
    var t := Token(ch, font.advance(ch, size), size, r, font.space(ch));
    if t.whitespace {
      Space(st, w, n, TokensOf(lines), cuts, current, word, lineWidth, wordWidth);
      lineWidth := lineWidth + wordWidth;
      current, word, wordWidth := current + word, [], 0.0;
      current := current + [t];
      lineWidth := lineWidth + t.advance;
      return;
    }
    lines, cuts, current, word, lineWidth, wordWidth :=
      PlaceVisible(runs, st, w, n, t, lines, cuts, current, word, lineWidth, wordWidth);
  }

  method FlowLines(font: Font, runs: seq<Run>, w: real) returns (lines: seq<Line>, ghost cuts: seq<Cut>)
    ensures Flowed(Items(font, runs), w, TokensOf(lines), cuts)
    ensures forall i :: 0 <= i < |lines| ==> LineOk(runs, lines[i])
    ensures w > 0.0 && Advances(Items(font, runs)) ==> AllFit(TokensOf(lines), w)
  {
    hide *;
    ghost var st := Items(font, runs);
    lines, cuts := [], [];
    var current: seq<Token>, word: seq<Token> := [], [];
    var lineWidth, wordWidth := 0.0, 0.0;
    NothingRead(font, runs, st, w);
    assert runs[..0] == [];
    for r := 0 to |runs|
      invariant Flowing(runs, st, w, |Items(font, runs[..r])|, lines, cuts, current, word, lineWidth, wordWidth)
    {
      var run := runs[r];
      var size := SizeOf(run);
      ghost var base := |Items(font, runs[..r])|;
      for k := 0 to |run.text|
        invariant Flowing(runs, st, w, base + k, lines, cuts, current, word, lineWidth, wordWidth)
      {
        ItemAt(font, runs, r, k);
        lines, cuts, current, word, lineWidth, wordWidth :=
          TakeChar(font, runs, st, w, base + k, r, size, run.text[k], lines, cuts, current, word, lineWidth, wordWidth);
      }
      ItemsLength(font, runs, r);
    }
    assert runs[..|runs|] == runs;
    Drain(runs, st, w, lines, cuts, current, word, lineWidth, wordWidth);
    current := current + word;
    if current != [] {
      var line := FinalizeLine(current, runs);
      TokensSnoc(lines, line);
      OkSnoc(runs, lines, line);
      cuts := cuts + [Cut(Resume(st, cuts), |st|)];
      lines := lines + [line];
    }
  }

  lemma NothingRead(font: Font, runs: seq<Run>, st: seq<Item>, w: real)
    ensures Flowing(runs, st, w, |Items(font, [])|, [], [], [], [], 0.0, 0.0)
  {
  }

  lemma Drain(runs: seq<Run>, st: seq<Item>, w: real, lines: seq<Line>, cuts: seq<Cut>, current: seq<Token>,
              word: seq<Token>, lineWidth: real, wordWidth: real)
    requires Flowing(runs, st, w, |st|, lines, cuts, current, word, lineWidth, wordWidth)
    ensures forall i :: 0 <= i < |lines| ==> LineOk(runs, lines[i])
    ensures if current + word == [] then Flowed(st, w, TokensOf(lines), cuts)
            else Flowed(st, w, TokensOf(lines) + [current + word], cuts + [Cut(Resume(st, cuts), |st|)])
    ensures w > 0.0 && Advances(st) ==> AllFit(TokensOf(lines), w) && AllFit(TokensOf(lines) + [current + word], w)
  {
    hide Pending, LineOk, Fitting, Advances, TokensOf, Flowed, AllFit;
    DrainLines(st, w, TokensOf(lines), cuts, current, word, lineWidth, wordWidth);
  }

  lemma DrainLines(st: seq<Item>, w: real, lines: seq<seq<Token>>, cuts: seq<Cut>, current: seq<Token>,
                   word: seq<Token>, lineWidth: real, wordWidth: real)
    requires Pending(st, w, |st|, lines, cuts, current, word, lineWidth, wordWidth)
    ensures if current + word == [] then Flowed(st, w, lines, cuts)
            else Flowed(st, w, lines + [current + word], cuts + [Cut(Resume(st, cuts), |st|)])
    ensures Fitting(w, lines, current, word) ==> AllFit(lines, w) && AllFit(lines + [current + word], w)
  {
    if Fitting(w, lines, current, word) {
      CommitFits(w, lines, current, word);
      FitMore(w, lines, current + word);
    }
    hide Cutting;
    assert (lines + [current + word])[..|lines|] == lines;
    var c := Cut(Resume(st, cuts), |st|);
    assert |cuts + [c]| - 1 == |cuts| && (cuts + [c])[..|cuts|] == cuts;
    hide Seg, AllFit, Fits;
    CuttingCount(st, w, lines, cuts);
  }

  lemma CuttingCount(st: seq<Item>, w: real, lines: seq<seq<Token>>, cuts: seq<Cut>)
    requires Cutting(st, w, lines, cuts)
    ensures |lines| == |cuts|
  {
  }

  // ---- Conservation ---------------------------------------------------------

  /** The characters among the first `n` items that are no newlines. */
  function Strip(st: seq<Item>, n: nat): seq<Token>
    requires n <= |st|
  {
    if n == 0 then [] else if st[n - 1].Glyph? then Strip(st, n - 1) + [st[n - 1].token] else Strip(st, n - 1)
  }

  lemma {:induction false} StripSeg(st: seq<Item>, i: nat, j: nat)
    requires i <= j <= |st| && NoNewline(st, i, j)
    ensures Strip(st, j) == Strip(st, i) + Seg(st, i, j)
    decreases j
  {
    if i < j {
      StripSeg(st, i, j - 1);
      SegSnoc(st, i, j - 1);
    } else {
      EmptySeg(st, i);
    }
  }

  lemma {:induction false} CutsConserve(st: seq<Item>, w: real, lines: seq<seq<Token>>, cuts: seq<Cut>)
    requires Cutting(st, w, lines, cuts)
    ensures Resume(st, cuts) <= |st| && Flat(lines) == Strip(st, Resume(st, cuts))
    decreases |cuts|
  {
    hide *;
    if cuts == [] {
      NothingCut(st, w, lines);
    } else {
      CuttingFront(st, w, lines, cuts);
      var n := |cuts| - 1;
      CutsConserve(st, w, lines[..n], cuts[..n]);
      CutParts(st, w, lines[n], cuts[n], Resume(st, cuts[..n]));
      FlatSnoc(lines[..n], lines[n]);
      assert lines == lines[..n] + [lines[n]];
    }
  }

  lemma NothingCut(st: seq<Item>, w: real, lines: seq<seq<Token>>)
    requires Cutting(st, w, lines, [])
    ensures Resume(st, []) == 0 && lines == [] && Flat(lines) == Strip(st, 0)
  {
  }

  lemma CuttingFront(st: seq<Item>, w: real, lines: seq<seq<Token>>, cuts: seq<Cut>)
    requires Cutting(st, w, lines, cuts) && cuts != []
    ensures |lines| == |cuts|
    ensures var n := |cuts| - 1;
            && Cutting(st, w, lines[..n], cuts[..n]) && CutOk(st, w, lines[n], cuts[n], Resume(st, cuts[..n]))
            && Resume(st, cuts) == After(st, cuts[n])
  {
    hide CutOk;
    var n := |cuts| - 1;
    forall i | 0 <= i < n ensures CutOk(st, w, lines[..n][i], cuts[..n][i], Resume(st, cuts[..n][..i])) {
      assert cuts[..n][..i] == cuts[..i];
    }
    assert CutOk(st, w, lines[n], cuts[n], Resume(st, cuts[..n]));
  }

  lemma CutParts(st: seq<Item>, w: real, line: seq<Token>, c: Cut, from: nat)
    requires CutOk(st, w, line, c, from)
    ensures from <= After(st, c) <= |st| && Strip(st, After(st, c)) == Strip(st, from) + line
  {
    hide WrapsAt, NoNewline, Seg;
    StripSeg(st, c.start, c.end);
  }

  /** Every character but the newlines is on exactly one line, in reading order. */
  lemma NothingLost(st: seq<Item>, w: real, lines: seq<seq<Token>>, cuts: seq<Cut>)
    requires Flowed(st, w, lines, cuts)
    ensures Flat(lines) == Strip(st, |st|)
  {
    hide Cutting, Strip, Seg, NoNewline, Resume;
    if Cutting(st, w, lines, cuts) && Resume(st, cuts) == |st| {
      CutsConserve(st, w, lines, cuts);
    } else {
      var n := |lines| - 1;
      CutsConserve(st, w, lines[..n], cuts[..n]);
      StripSeg(st, cuts[n].start, |st|);
      FlatSnoc(lines[..n], lines[n]);
      assert lines == lines[..n] + [lines[n]];
    }
  }
}
