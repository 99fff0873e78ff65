/** The specification of line breaking leaves no choice: a text has one list of lines
    (crates/renderer-core/src/text_layout.rs, `flow_lines`). */
module LineBreaks {
  import opened LineFlow

  /** What the flow of a text promises of its lines. */
  ghost predicate Laid(runs: seq<Run>, st: seq<Item>, w: real, lines: seq<Line>, cuts: seq<Cut>) {
    && Flowed(st, w, TokensOf(lines), cuts)
    && (w > 0.0 ==> AllFit(TokensOf(lines), w))
    && forall i :: 0 <= i < |lines| ==> LineOk(runs, lines[i])
  }

  /** A line from `i` may end at `e`. */
  ghost predicate MayEnd(st: seq<Item>, w: real, i: nat, e: nat) {
    && i <= e <= |st| && i < |st| && NoNewline(st, i, e)
    && (w > 0.0 ==> Fits(Seg(st, i, e), w))
    && (e == |st| || Breaks(st, w, Cut(i, e)))
  }

  /** A visible token and all before it count for the visible width. */
  lemma {:induction false} VisibleAtLeast(ts: seq<Token>, k: nat)
    requires NonNegative(ts) && k < |ts| && !ts[k].whitespace
    ensures Width(ts[..k + 1]) <= VisibleWidth(ts)
  {
    var n := |ts| - 1;
    if ts[n].whitespace {
      VisibleAtLeast(ts[..n], k);
      assert ts[..n][..k + 1] == ts[..k + 1];
    } else {
      assert ts == ts[..k + 1] + ts[k + 1..];
      WidthConcat(ts[..k + 1], ts[k + 1..]);
      assert NonNegative(ts[k + 1..]);
      WidthNonNegative(ts[k + 1..]);
    }
  }

  /** A fitting line that goes on past a wrap ends before the glyph that did not fit. */
  lemma WrapStops(st: seq<Item>, w: real, c: Cut, f: nat, e: nat)
    requires Advances(st) && WrapsAt(st, w, c, f) && c.end < e <= |st| && Fits(Seg(st, c.start, e), w)
    ensures e <= f
  {
    if f < e {
      var ts, k := Seg(st, c.start, e), f - c.start;
      SegAdvances(st, c.start, e);
      SegParts(st, c.start, f + 1, e);
      VisibleTail(st, c.end, f);
      assert ts[k] == Tok(st[f]);
      hide Width, VisibleWidth, Seg;
      VisibleAtLeast(ts, k);
    }
  }

  lemma VisibleTail(st: seq<Item>, i: nat, f: nat)
    requires i <= f < |st| && AllVisible(Seg(st, i, f + 1))
    ensures forall k :: i <= k <= f ==> !Tok(st[k]).whitespace
  {
    forall k | i <= k <= f ensures !Tok(st[k]).whitespace { assert Seg(st, i, f + 1)[k - i] == Tok(st[k]); }
  }

  /** No line may end later than another may end. */
  lemma EndsOrder(st: seq<Item>, w: real, i: nat, e: nat, later: nat)
    requires w > 0.0 ==> Advances(st)
    requires MayEnd(st, w, i, e) && MayEnd(st, w, i, later)
    ensures later <= e
  {
    hide Advances, Width, VisibleWidth, LoneGlyph;
    if e < later {
      var c := Cut(i, e);
      assert st[e].Glyph?;
      var f: nat :| WrapsAt(st, w, c, f);
      WrapStops(st, w, c, f, later);
      VisibleTail(st, e, f);
      WrappedWord(st, w, c, f, later);
    }
  }

  /** Inside the word before which a line wraps no line may end. */
  lemma WrappedWord(st: seq<Item>, w: real, c: Cut, f: nat, e: nat)
    requires WrapsAt(st, w, c, f) && c.end < e <= f
    ensures !Breaks(st, w, Cut(c.start, e))
  {
    VisibleTail(st, c.end, f);
    var d := Cut(c.start, e);
    forall g: nat ensures !WrapsAt(st, w, d, g) {
      if c.start < e <= g < |st| && AllVisible(Seg(st, c.start, e)) { VisibleTail(st, c.start, e - 1); }
    }
  }

  lemma EndsOnce(st: seq<Item>, w: real, i: nat, e: nat, e': nat)
    requires w > 0.0 ==> Advances(st)
    requires MayEnd(st, w, i, e) && MayEnd(st, w, i, e')
    ensures e == e'
  {
    hide Advances, MayEnd;
    EndsOrder(st, w, i, e, e');
    EndsOrder(st, w, i, e', e);
  }

  /** Line `k` starts where the lines before it resume and ends where it may. */
  lemma LineEnds(st: seq<Item>, w: real, lines: seq<seq<Token>>, cuts: seq<Cut>, k: nat)
    requires Flowed(st, w, lines, cuts) && (w > 0.0 ==> AllFit(lines, w)) && k < |cuts|
    ensures |lines| == |cuts| && cuts[k].start == Resume(st, cuts[..k]) && MayEnd(st, w, cuts[k].start, cuts[k].end)
    ensures lines[k] == Seg(st, cuts[k].start, cuts[k].end)
  {
    hide Seg, Fits, WrapsAt, Resume;
    var n := |cuts| - 1;
    if k < n || Cutting(st, w, lines, cuts) {
      if !Cutting(st, w, lines, cuts) { FrontCut(st, w, lines, cuts, k); }
      assert CutOk(st, w, lines[k], cuts[k], Resume(st, cuts[..k]));
    }
  }

  lemma FrontCut(st: seq<Item>, w: real, lines: seq<seq<Token>>, cuts: seq<Cut>, k: nat)
    requires k < |cuts| - 1 && |lines| == |cuts| && Cutting(st, w, lines[..|lines| - 1], cuts[..|cuts| - 1])
    ensures CutOk(st, w, lines[k], cuts[k], Resume(st, cuts[..k]))
  {
    hide CutOk, Resume;
    var n := |cuts| - 1;
    assert CutOk(st, w, lines[..n][k], cuts[..n][k], Resume(st, cuts[..n][..k]));
    assert cuts[..n][..k] == cuts[..k];
  }

  lemma FlowedCount(st: seq<Item>, w: real, lines: seq<seq<Token>>, cuts: seq<Cut>)
    requires Flowed(st, w, lines, cuts)
    ensures |lines| == |cuts| && Resume(st, cuts) == |st|
  {
    hide Seg, CutOk;
  }

  /** Two flows of a text cut alike, line by line. */
  lemma {:induction false} SameCuts(st: seq<Item>, w: real, lines: seq<seq<Token>>, cuts: seq<Cut>,
                                    lines': seq<seq<Token>>, cuts': seq<Cut>, k: nat)
    requires w > 0.0 ==> Advances(st)
    requires Flowed(st, w, lines, cuts) && (w > 0.0 ==> AllFit(lines, w)) && k <= |cuts|
    requires Flowed(st, w, lines', cuts') && (w > 0.0 ==> AllFit(lines', w))
    ensures k <= |cuts'| && cuts[..k] == cuts'[..k]
  {
    hide *;
    if k > 0 {
      SameCuts(st, w, lines, cuts, lines', cuts', k - 1);
      LineEnds(st, w, lines, cuts, k - 1);
      FlowedCount(st, w, lines', cuts');
      MayEndInside(st, w, cuts[k - 1].start, cuts[k - 1].end);
      assert cuts'[..|cuts'|] == cuts';
      LineEnds(st, w, lines', cuts', k - 1);
      EndsOnce(st, w, cuts[k - 1].start, cuts[k - 1].end, cuts'[k - 1].end);
      assert cuts[..k] == cuts[..k - 1] + [cuts[k - 1]] && cuts'[..k] == cuts'[..k - 1] + [cuts'[k - 1]];
    }
  }

  lemma MayEndInside(st: seq<Item>, w: real, i: nat, e: nat)
    requires MayEnd(st, w, i, e)
    ensures i < |st|
  {
  }

  lemma HeightOnce(runs: seq<Run>, ts: seq<Token>, h: real, h': real)
    requires IsHeight(runs, ts, h) && IsHeight(runs, ts, h')
    ensures h == h'
  {
    hide LineHeightFor;
  }

  lemma LineOnce(runs: seq<Run>, l: Line, l': Line)
    requires LineOk(runs, l) && LineOk(runs, l') && l.tokens == l'.tokens
    ensures l == l'
  {
    HeightOnce(runs, l.tokens, l.height, l'.height);
    hide VisibleWidth, GlyphWidth, InnerSpaces, IsHeight;
  }

  /** The lines of a text are determined by the text, the font and the width. */
  lemma LinesAreDetermined(runs: seq<Run>, st: seq<Item>, w: real, lines: seq<Line>, cuts: seq<Cut>,
                           lines': seq<Line>, cuts': seq<Cut>)
    requires w > 0.0 ==> Advances(st)
    requires Laid(runs, st, w, lines, cuts) && Laid(runs, st, w, lines', cuts')
    ensures lines == lines' && cuts == cuts'
  {
    hide Flowed, AllFit, Advances, LineOk;
    var ts, ts' := TokensOf(lines), TokensOf(lines');
    FlowedCount(st, w, ts, cuts);
    FlowedCount(st, w, ts', cuts');
    SameCuts(st, w, ts, cuts, ts', cuts', |cuts|);
    SameCuts(st, w, ts', cuts', ts, cuts, |cuts'|);
    assert cuts[..|cuts|] == cuts && cuts'[..|cuts'|] == cuts';
    forall k | 0 <= k < |lines| ensures lines[k] == lines'[k] {
      LineEnds(st, w, ts, cuts, k);
      LineEnds(st, w, ts', cuts', k);
      assert lines[k].tokens == ts[k] == ts'[k] == lines'[k].tokens;
      LineOnce(runs, lines[k], lines'[k]);
    }
  }
}
