/** Where laid-out text goes: alignment, and the pen position of every visible character
    (crates/renderer-core/src/text_layout.rs, `layout_runs`). */
module TextPlacement {
  import opened Sequences
  import opened Buffers
  import opened LineFlow

  datatype Align = Start | Center | End | Justify
  datatype VAlign = Top | Middle | Bottom

  datatype Region = Region(minX: real, minY: real, maxX: real, maxY: real)

  datatype Placement = Placement(ch: char, x: real, y: real, size: real, run: nat)

  function RegionWidth(r: Region): real { MaxReal(r.maxX - r.minX, 0.0) }
  function RegionHeight(r: Region): real { MaxReal(r.maxY - r.minY, 0.0) }

  function LeftEdge(l: Line, r: Region, align: Align): real {
    var slack := MaxReal(RegionWidth(r) - l.visibleWidth, 0.0);
    match align
    case Start => r.minX
    case Justify => r.minX
    case Center => r.minX + slack * 0.5
    case End => r.minX + slack
  }

  /** What justified text adds to each gap; the last line of the text, and one without gaps, get none. */
  function Stretch(l: Line, r: Region, align: Align, last: bool): real {
    if align.Justify? && !last && l.justifyGaps > 0 then
      MaxReal(RegionWidth(r) - l.glyphWidth, 0.0) / l.justifyGaps as real
    else 0.0
  }

  function Heights(lines: seq<Line>): real {
    if lines == [] then 0.0 else Heights(lines[..|lines| - 1]) + lines[|lines| - 1].height
  }

  /** From the first line's top to the last line's metric box bottom. */
  function BlockHeight(lines: seq<Line>, boxRatio: real): real
    requires lines != []
  {
    var last := lines[|lines| - 1].height;
    Heights(lines) - last + last * boxRatio
  }

  function TopEdge(lines: seq<Line>, r: Region, valign: VAlign, boxRatio: real): real
    requires lines != []
  {
    match valign
    case Top => r.minY
    case Middle => r.minY + (RegionHeight(r) - BlockHeight(lines, boxRatio)) * 0.5
    case Bottom => r.maxY - BlockHeight(lines, boxRatio)
  }

  function Place(t: Token, x: real, y: real): Placement { Placement(t.ch, x, y, t.size, t.run) }

  /** How far `ts` moves the pen, when every gap after a visible token is `extra` wider. */
  function Pen(ts: seq<Token>, extra: real): real {
    if ts == [] then 0.0
    else
      var n := |ts| - 1;
      Pen(ts[..n], extra) + ts[n].advance + if ts[n].whitespace && VisibleCount(ts[..n]) > 0 then extra else 0.0
  }

  /** The visible tokens of a line, each at the pen position its predecessors leave. */
  function PlacedLine(ts: seq<Token>, x: real, y: real, extra: real): seq<Placement> {
    if ts == [] then []
    else
      var n := |ts| - 1;
      PlacedLine(ts[..n], x, y, extra) + if ts[n].whitespace then [] else [Place(ts[n], x + Pen(ts[..n], extra), y)]
  }

  function PlacedOne(l: Line, r: Region, align: Align, last: bool, y: real): seq<Placement> {
    PlacedLine(l.tokens, LeftEdge(l, r, align), y, Stretch(l, r, align, last))
  }

  /** The placements of `lines`, the first of `count` lines. */
  function Placed(lines: seq<Line>, count: nat, r: Region, align: Align, top: real): seq<Placement> {
    if lines == [] then []
    else
      var n := |lines| - 1;
      Placed(lines[..n], count, r, align, top)
        + PlacedOne(lines[n], r, align, n + 1 == count, top + Heights(lines[..n]))
  }

  lemma PenSnoc(ts: seq<Token>, t: Token, x: real, y: real, extra: real)
    ensures Pen(ts + [t], extra) == Pen(ts, extra) + t.advance + if t.whitespace && VisibleCount(ts) > 0 then extra
                                                                 else 0.0
    ensures PlacedLine(ts + [t], x, y, extra)
         == PlacedLine(ts, x, y, extra) + if t.whitespace then [] else [Place(t, x + Pen(ts, extra), y)]
  {
    assert (ts + [t])[..|ts|] == ts;
  }

  lemma {:induction false} CountUpTo(ts: seq<Token>, k: nat)
    requires k <= |ts|
    ensures VisibleCount(ts[..k]) <= VisibleCount(ts)
    decreases |ts|
  {
    if k < |ts| {
      CountUpTo(ts[..|ts| - 1], k);
      assert ts[..|ts| - 1][..k] == ts[..k];
    } else {
      assert ts[..k] == ts;
    }
  }

  lemma PenAtStart(x: real, y: real, extra: real)
    ensures Pen([], extra) == 0.0 && PlacedLine([], x, y, extra) == [] && VisibleCount([]) == 0
  {
  }

  method PlaceLine(ts: seq<Token>, x: real, y: real, extra: real, before: seq<Placement>)
      returns (placements: seq<Placement>)
    ensures placements == before + PlacedLine(ts, x, y, extra)
  {
    var visibleCount := VisibleCount(ts);
    var penX, emitted := x, 0;
    placements := before;
    assert ts[..0] == [];
    PenAtStart(x, y, extra);
    hide Pen, PlacedLine, VisibleCount;
    for k := 0 to |ts|
      invariant emitted == VisibleCount(ts[..k]) && placements == before + PlacedLine(ts[..k], x, y, extra)
      invariant emitted < visibleCount ==> penX == x + Pen(ts[..k], extra)
    {
      var t := ts[k];
      PenSnoc(ts[..k], t, x, y, extra);
      CountsSnoc(ts[..k], t);
      CountUpTo(ts, k + 1);
      assert ts[..k + 1] == ts[..k] + [t];
      if t.whitespace {
        penX := penX + t.advance;
        if 0 < emitted < visibleCount { penX := penX + extra; }
        continue;
      }
      placements := placements + [Place(t, penX, y)];
      penX := penX + t.advance;
      emitted := emitted + 1;
    }
    assert ts[..|ts|] == ts;
  }

  lemma NonePlacedYet(count: nat, r: Region, align: Align, top: real)
    ensures Placed([], count, r, align, top) == [] && Heights([]) == 0.0
  {
  }

  lemma PlacedSnoc(lines: seq<Line>, count: nat, r: Region, align: Align, top: real, i: nat)
    requires i < |lines|
    ensures Placed(lines[..i + 1], count, r, align, top)
         == Placed(lines[..i], count, r, align, top)
            + PlacedOne(lines[i], r, align, i + 1 == count, top + Heights(lines[..i]))
    ensures Heights(lines[..i + 1]) == Heights(lines[..i]) + lines[i].height
  {
    hide PlacedOne;
    assert lines[..i + 1][..i] == lines[..i];
  }

  // ---- Where the glyphs of a line are ---------------------------------------

  /** Placement `j` of a line is one of its visible tokens, at the pen position before it. */
  lemma {:induction false} PlacedIs(ts: seq<Token>, x: real, y: real, extra: real, j: nat) returns (i: nat)
    requires j < |PlacedLine(ts, x, y, extra)|
    ensures i < |ts| && !ts[i].whitespace && PlacedLine(ts, x, y, extra)[j] == Place(ts[i], x + Pen(ts[..i], extra), y)
  {
    var n := |ts| - 1;
    if j < |PlacedLine(ts[..n], x, y, extra)| {
      i := PlacedIs(ts[..n], x, y, extra, j);
      assert ts[..n][..i] == ts[..i];
    } else {
      i := n;
    }
  }

  /** Every placement is a visible token of some line: right of the line's left edge by the advances before it
      and one stretch per gap, and below the top by the heights of the lines before. */
  lemma {:induction false} LinesStack(lines: seq<Line>, count: nat, r: Region, align: Align, top: real, j: nat)
      returns (n: nat, i: nat)
    requires j < |Placed(lines, count, r, align, top)|
    ensures n < |lines| && i < |lines[n].tokens| && !lines[n].tokens[i].whitespace
    ensures var (l, t) := (lines[n], lines[n].tokens[i]);
            var stretch := Stretch(l, r, align, n + 1 == count);
            Placed(lines, count, r, align, top)[j]
              == Placement(t.ch,
                           LeftEdge(l, r, align) + Width(l.tokens[..i]) + Gaps(l.tokens[..i]) as real * stretch,
                           top + Heights(lines[..n]), t.size, t.run)
  {
    var m := |lines| - 1;
    if lines == [] { NonePlacedYet(count, r, align, top); }
    hide *;
    PlacedSnoc(lines, count, r, align, top, m);
    assert lines[..m + 1] == lines;
    var front := Placed(lines[..m], count, r, align, top);
    if j < |front| {
      n, i := LinesStack(lines[..m], count, r, align, top, j);
      assert lines[..m][..n] == lines[..n];
    } else {
      n := m;
      i := OneStacks(lines[m], r, align, m + 1 == count, top + Heights(lines[..m]), j - |front|);
    }
  }

  lemma OneStacks(l: Line, r: Region, align: Align, last: bool, y: real, j: nat) returns (i: nat)
    requires j < |PlacedOne(l, r, align, last, y)|
    ensures i < |l.tokens| && !l.tokens[i].whitespace
    ensures var t := l.tokens[i];
            PlacedOne(l, r, align, last, y)[j]
              == Placement(t.ch,
                           LeftEdge(l, r, align) + Width(l.tokens[..i])
                             + Gaps(l.tokens[..i]) as real * Stretch(l, r, align, last),
                           y, t.size, t.run)
  {
    var x, extra := LeftEdge(l, r, align), Stretch(l, r, align, last);
    OneIs(l, r, align, last, y);
    hide LeftEdge, Stretch, PlacedLine, PlacedOne, Pen, Width, Gaps;
    i := PlacedIs(l.tokens, x, y, extra, j);
    PenIs(l.tokens[..i], extra);
  }

  /** The pen after the last visible token. */
  function VisiblePen(ts: seq<Token>, extra: real): real {
    if ts == [] then 0.0 else if ts[|ts| - 1].whitespace then VisiblePen(ts[..|ts| - 1], extra) else Pen(ts, extra)
  }

  lemma {:induction false} PenIs(ts: seq<Token>, extra: real)
    ensures Pen(ts, extra) == Width(ts) + Gaps(ts) as real * extra
  {
    if ts != [] {
      var front := ts[..|ts| - 1];
      PenIs(front, extra);
      assert (Gaps(front) + 1) as real * extra == Gaps(front) as real * extra + extra;
    }
  }

  /** The pen after the last visible token: the visible width and one `extra` per inner gap. */
  lemma {:induction false} VisiblePenIs(ts: seq<Token>, extra: real)
    ensures VisiblePen(ts, extra) == VisibleWidth(ts) + InnerGaps(ts) as real * extra
  {
    if ts != [] {
      if ts[|ts| - 1].whitespace { VisiblePenIs(ts[..|ts| - 1], extra); } else { PenIs(ts, extra); }
    }
  }

  lemma {:induction false} PenRises(ts: seq<Token>, extra: real, i: nat)
    requires NonNegative(ts) && extra >= 0.0 && i <= |ts|
    ensures 0.0 <= Pen(ts[..i], extra) <= Pen(ts, extra)
    decreases |ts|
  {
    if ts == [] {
    } else if i < |ts| {
      var front := ts[..|ts| - 1];
      PenRises(front, extra, i);
      assert front[..i] == ts[..i];
    } else {
      var front := ts[..|ts| - 1];
      PenRises(front, extra, |front|);
      assert front[..|front|] == front && ts[..i] == ts;
    }
  }

  /** A visible token ends at or before the last visible one does. */
  lemma {:induction false} VisibleReach(ts: seq<Token>, extra: real, i: nat)
    requires NonNegative(ts) && extra >= 0.0 && i < |ts| && !ts[i].whitespace
    ensures 0.0 <= Pen(ts[..i], extra) && Pen(ts[..i], extra) + ts[i].advance <= VisiblePen(ts, extra)
  {
    var n := |ts| - 1;
    PenRises(ts, extra, i);
    if ts[n].whitespace {
      VisibleReach(ts[..n], extra, i);
      assert ts[..n][..i] == ts[..i];
    } else {
      assert ts[..i + 1][..i] == ts[..i];
      PenRises(ts, extra, i + 1);
    }
  }

  predicate LastVisible(ts: seq<Token>, i: nat) {
    i < |ts| && !ts[i].whitespace && forall k :: i < k < |ts| ==> ts[k].whitespace
  }

  /** The last placement of a line ends at the pen after its last visible token. */
  lemma {:induction false} LastPlaced(ts: seq<Token>, x: real, y: real, extra: real) returns (i: nat)
    requires VisibleCount(ts) > 0
    ensures LastVisible(ts, i) && Pen(ts[..i], extra) + ts[i].advance == VisiblePen(ts, extra)
    ensures var ps := PlacedLine(ts, x, y, extra); ps != [] && ps[|ps| - 1] == Place(ts[i], x + Pen(ts[..i], extra), y)
  {
    var n := |ts| - 1;
    if ts[n].whitespace {
      i := LastPlaced(ts[..n], x, y, extra);
      assert ts[..n][..i] == ts[..i];
    } else {
      i := n;
    }
  }

  lemma {:induction false} GlyphsHold(ts: seq<Token>, i: nat)
    requires NonNegative(ts) && i < |ts| && !ts[i].whitespace
    ensures ts[i].advance <= GlyphWidth(ts)
  {
    var n := |ts| - 1;
    GlyphsNonNegative(ts[..n]);
    if i < n { GlyphsHold(ts[..n], i); }
  }

  lemma {:induction false} GlyphsNonNegative(ts: seq<Token>)
    requires NonNegative(ts)
    ensures 0.0 <= GlyphWidth(ts) <= Width(ts)
  {
    if ts != [] { GlyphsNonNegative(ts[..|ts| - 1]); }
  }

  /** The visible tokens alone are no wider than the line up to the last of them. */
  lemma {:induction false} GlyphsWithin(ts: seq<Token>)
    requires NonNegative(ts)
    ensures GlyphWidth(ts) <= VisibleWidth(ts)
  {
    GlyphsNonNegative(ts);
    if ts != [] && ts[|ts| - 1].whitespace { GlyphsWithin(ts[..|ts| - 1]); }
  }

  lemma {:induction false} GapsNeedGlyph(ts: seq<Token>)
    ensures Gaps(ts) > 0 ==> VisibleCount(ts) > 0
    ensures InnerGaps(ts) > 0 ==> VisibleCount(ts) > 0
  {
    if ts != [] { GapsNeedGlyph(ts[..|ts| - 1]); }
  }

  lemma {:induction false} LoneHasNoGaps(ts: seq<Token>)
    requires LoneGlyph(ts)
    ensures InnerGaps(ts) == 0
  {
    if |ts| == 1 {
      assert ts[..0] == [] && Gaps(ts) == 0;
    } else {
      LoneHasNoGaps(ts[..|ts| - 1]);
    }
  }

  // ---- Staying inside the region --------------------------------------------

  predicate Measures(l: Line) {
    && l.visibleWidth == VisibleWidth(l.tokens) && l.glyphWidth == GlyphWidth(l.tokens)
    && l.justifyGaps == InnerGaps(l.tokens) && NonNegative(l.tokens)
  }

  /** The line is stretched: justified, not the last, with a gap to widen. */
  predicate Stretched(l: Line, align: Align, last: bool) { align.Justify? && !last && l.justifyGaps > 0 }

  lemma GapsFill(gaps: nat, slack: real)
    requires gaps > 0
    ensures gaps as real * (slack / gaps as real) == slack
  {
  }

  lemma ShareNonNegative(gaps: nat, slack: real)
    requires gaps > 0 && slack >= 0.0
    ensures slack / gaps as real >= 0.0
  {
  }

  /** Where the last glyph of a fitting line ends: a stretched line overruns the region by the width of
      its white space up to there. */
  lemma LineEnd(l: Line, r: Region, align: Align, last: bool)
    requires Measures(l) && r.minX < r.maxX && l.visibleWidth <= RegionWidth(r)
    ensures Stretch(l, r, align, last) >= 0.0
    ensures VisiblePen(l.tokens, Stretch(l, r, align, last))
         == if Stretched(l, align, last) then RegionWidth(r) + (l.visibleWidth - l.glyphWidth) else l.visibleWidth
  {
    var slack := RegionWidth(r) - l.glyphWidth;
    VisiblePenIs(l.tokens, Stretch(l, r, align, last));
    GlyphsWithin(l.tokens);
    hide VisiblePen, VisibleWidth, GlyphWidth, InnerGaps;
    if Stretched(l, align, last) {
      GapsFill(l.justifyGaps, slack);
      ShareNonNegative(l.justifyGaps, slack);
    }
  }

  /** A line that is not the last of a justified text fills the region exactly when, having gaps, it has no
      width of white space before its last glyph, or, having none, is as wide as the region anyway. */
  lemma JustifyFillsIff(l: Line, r: Region, y: real)
    requires Measures(l) && r.minX < r.maxX && l.visibleWidth <= RegionWidth(r) && VisibleCount(l.tokens) > 0
    ensures var ps := PlacedOne(l, r, Justify, false, y);
            && ps != []
            && exists i: nat ::
                 && LastVisible(l.tokens, i) && ps[|ps| - 1] == Place(l.tokens[i], ps[|ps| - 1].x, y)
                 && (ps[|ps| - 1].x + l.tokens[i].advance == r.maxX
                     <==> l.visibleWidth == if l.justifyGaps > 0 then l.glyphWidth else RegionWidth(r))
  {
    var extra := Stretch(l, r, Justify, false);
    LineEnd(l, r, Justify, false);
    var i := LastPlaced(l.tokens, r.minX, y, extra);
    hide VisiblePen, PlacedLine, Pen, Stretch;
    assert LastVisible(l.tokens, i);
  }

  /** `p` places token `i` within the region, or at its left edge when it alone is wider. */
  predicate Inside(l: Line, r: Region, p: Placement, i: nat, y: real) {
    && i < |l.tokens| && p == Place(l.tokens[i], p.x, y) && r.minX <= p.x
    && if l.visibleWidth <= RegionWidth(r) then p.x + l.tokens[i].advance <= r.maxX
       else p.x == r.minX && LoneGlyph(l.tokens)
  }

  /** A stretched line stays inside when it has no width of white space before its last glyph. */
  predicate Stays(l: Line, align: Align, last: bool) { Stretched(l, align, last) ==> l.visibleWidth == l.glyphWidth }

  /** Every alignment keeps every glyph of a fitting line inside the region, unless it stretches the line
      past it, and a lone glyph that is wider than the region starts at its left edge. */
  lemma GlyphsStayInside(l: Line, r: Region, align: Align, last: bool, y: real, j: nat)
    requires Measures(l) && r.minX < r.maxX && Fits(l.tokens, RegionWidth(r)) && Stays(l, align, last)
    requires j < |PlacedOne(l, r, align, last, y)|
    ensures exists i: nat :: Inside(l, r, PlacedOne(l, r, align, last, y)[j], i, y)
  {
    var x, extra := LeftEdge(l, r, align), Stretch(l, r, align, last);
    var i := PlacedIs(l.tokens, x, y, extra, j);
    hide PlacedLine;
    if l.visibleWidth > RegionWidth(r) {
      assert i == 0;
      assert l.tokens[..0] == [];
    } else {
      LineEnd(l, r, align, last);
      hide Stretch;
      VisibleReach(l.tokens, extra, i);
    }
    assert Inside(l, r, PlacedLine(l.tokens, x, y, extra)[j], i, y);
  }

  datatype Mark = Mark(ch: char, size: real, run: nat)

  function MarksOf(ps: seq<Placement>): seq<Mark> {
    seq(|ps|, i requires 0 <= i < |ps| => Mark(ps[i].ch, ps[i].size, ps[i].run))
  }

  /** The visible characters among `ts` with size and run. */
  function VisibleMarks(ts: seq<Token>): seq<Mark> {
    if ts == [] then []
    else
      var n := |ts| - 1;
      if ts[n].whitespace then VisibleMarks(ts[..n])
      else VisibleMarks(ts[..n]) + [Mark(ts[n].ch, ts[n].size, ts[n].run)]
  }

  lemma VisibleSnoc(ts: seq<Token>, t: Token)
    ensures VisibleMarks(ts + [t]) == VisibleMarks(ts) + if t.whitespace then [] else [Mark(t.ch, t.size, t.run)]
  {
    assert (ts + [t])[..|ts|] == ts;
  }

  lemma {:induction false} VisibleConcat(a: seq<Token>, b: seq<Token>)
    ensures VisibleMarks(a + b) == VisibleMarks(a) + VisibleMarks(b)
  {
    if b == [] {
      assert a + b == a;
    } else {
      var n := |b| - 1;
      VisibleConcat(a, b[..n]);
      VisibleSnoc(b[..n], b[n]);
      VisibleSnoc(a + b[..n], b[n]);
      hide VisibleMarks;
      assert b == b[..n] + [b[n]] && a + b == (a + b[..n]) + [b[n]];
    }
  }

  lemma {:induction false} PlacedLineMarks(ts: seq<Token>, x: real, y: real, extra: real)
    ensures MarksOf(PlacedLine(ts, x, y, extra)) == VisibleMarks(ts)
  {
    if ts != [] {
      var n := |ts| - 1;
      PlacedLineMarks(ts[..n], x, y, extra);
      if !ts[n].whitespace {
        MarksConcat(PlacedLine(ts[..n], x, y, extra), [Place(ts[n], x + Pen(ts[..n], extra), y)]);
      }
    }
  }

  lemma MarksConcat(a: seq<Placement>, b: seq<Placement>)
    ensures MarksOf(a + b) == MarksOf(a) + MarksOf(b)
  {
  }

  lemma NoMarks()
    ensures MarksOf([]) == [] && VisibleMarks([]) == [] && Flat<Token>([]) == [] && TokensOf([]) == []
  {
  }

  /** Placements are the visible characters of the lines, in order. */
  lemma {:induction false} PlacedMarks(lines: seq<Line>, count: nat, r: Region, align: Align, top: real)
    ensures MarksOf(Placed(lines, count, r, align, top)) == VisibleMarks(Flat(TokensOf(lines)))
  {
    hide VisibleMarks, Flat, PlacedLine, LeftEdge, Stretch, MarksOf;
    if lines == [] {
      NoMarks();
      assert TokensOf(lines) == [];
    } else {
      var n := |lines| - 1;
      PlacedMarks(lines[..n], count, r, align, top);
      var ps := PlacedOne(lines[n], r, align, n + 1 == count, top + Heights(lines[..n]));
      PlacedLineMarks(lines[n].tokens, LeftEdge(lines[n], r, align), top + Heights(lines[..n]),
                      Stretch(lines[n], r, align, n + 1 == count));
      MarksConcat(Placed(lines[..n], count, r, align, top), ps);
      assert TokensOf(lines) == TokensOf(lines[..n]) + [lines[n].tokens];
      FlatSnoc(TokensOf(lines[..n]), lines[n].tokens);
      VisibleConcat(Flat(TokensOf(lines[..n])), lines[n].tokens);
    }
  }

  /** Every token carries the font's advance, and none is negative. */
  predicate Measured(font: Font, ts: seq<Token>) {
    forall i :: 0 <= i < |ts| ==> ts[i].advance == font.advance(ts[i].ch, ts[i].size) && ts[i].advance >= 0.0
  }

  predicate ItemsMeasured(font: Font, st: seq<Item>) {
    forall i :: 0 <= i < |st| && st[i].Glyph? ==> st[i].token.advance == font.advance(st[i].token.ch, st[i].token.size)
  }

  lemma {:induction false} ItemsAreMeasured(font: Font, runs: seq<Run>)
    ensures ItemsMeasured(font, Items(font, runs))
  {
    if runs != [] { ItemsAreMeasured(font, runs[..|runs| - 1]); }
  }

  lemma {:induction false} StripMeasured(font: Font, st: seq<Item>, n: nat)
    requires n <= |st| && ItemsMeasured(font, st) && Advances(st)
    ensures Measured(font, Strip(st, n))
  {
    if n > 0 {
      StripMeasured(font, st, n - 1);
      if st[n - 1].Glyph? { assert Tok(st[n - 1]) == st[n - 1].token; }
    }
  }

  lemma PartMeasured(font: Font, parts: seq<seq<Token>>, i: nat)
    requires i < |parts| && Measured(font, Flat(parts))
    ensures Measured(font, parts[i]) && NonNegative(parts[i])
  {
    hide Flat;
    SliceOfFlat(parts, i);
    forall k | 0 <= k < |parts[i]| ensures parts[i][k] == Flat(parts)[Buffers.Start(parts, i) + k] {
      assert Flat(parts)[Buffers.Start(parts, i)..Buffers.Start(parts, i) + |parts[i]|][k] == parts[i][k];
    }
  }

  /** The glyph ends inside the region, or starts at its left edge. */
  predicate InRegion(font: Font, r: Region, p: Placement) {
    r.minX <= p.x && (p.x + font.advance(p.ch, p.size) <= r.maxX || p.x == r.minX)
  }

  predicate AllIn(font: Font, r: Region, ps: seq<Placement>) { forall p :: p in ps ==> InRegion(font, r, p) }

  lemma LineInRegion(font: Font, l: Line, r: Region, align: Align, last: bool, y: real)
    requires Measures(l) && Measured(font, l.tokens) && r.minX < r.maxX && Fits(l.tokens, RegionWidth(r))
    requires Stays(l, align, last)
    ensures AllIn(font, r, PlacedOne(l, r, align, last, y))
  {
    hide Measures, PlacedOne, Fits, LoneGlyph;
    var ps := PlacedOne(l, r, align, last, y);
    forall p | p in ps ensures InRegion(font, r, p) {
      var j :| 0 <= j < |ps| && ps[j] == p;
      GlyphsStayInside(l, r, align, last, y, j);
      var i: nat :| Inside(l, r, p, i, y);
    }
  }

  /** A stretched line with some width of white space before its last glyph overruns the region. */
  lemma LineOverruns(font: Font, l: Line, r: Region, align: Align, last: bool, y: real)
    requires Measures(l) && Measured(font, l.tokens) && r.minX < r.maxX && Fits(l.tokens, RegionWidth(r))
    requires !Stays(l, align, last)
    ensures !AllIn(font, r, PlacedOne(l, r, align, last, y))
  {
    if LoneGlyph(l.tokens) { LoneHasNoGaps(l.tokens); }
    GapsNeedGlyph(l.tokens);
    GlyphsWithin(l.tokens);
    hide Fits, LoneGlyph, InnerGaps, VisibleCount, VisibleWidth, GlyphWidth;
    LineEnd(l, r, align, last);
    var extra := Stretch(l, r, align, last);
    var i := LastPlaced(l.tokens, r.minX, y, extra);
    GlyphsHold(l.tokens, i);
    hide VisiblePen, PlacedLine, Pen, Stretch;
    var ps := PlacedLine(l.tokens, r.minX, y, extra);
    assert !InRegion(font, r, ps[|ps| - 1]);
  }

  predicate LinesGood(font: Font, lines: seq<Line>, w: real) {
    forall i :: 0 <= i < |lines| ==> LineGood(font, lines[i], w)
  }

  predicate LineGood(font: Font, l: Line, w: real) { Measures(l) && Measured(font, l.tokens) && Fits(l.tokens, w) }

  /** No line but perhaps the last of `count` is stretched past the region. */
  predicate AllStay(lines: seq<Line>, count: nat, align: Align) {
    forall i :: 0 <= i < |lines| ==> Stays(lines[i], align, i + 1 == count)
  }

  lemma AllInConcat(font: Font, r: Region, a: seq<Placement>, b: seq<Placement>)
    ensures AllIn(font, r, a + b) <==> AllIn(font, r, a) && AllIn(font, r, b)
  {
    if AllIn(font, r, a + b) {
      forall p | p in a ensures InRegion(font, r, p) { assert p in a + b; }
      forall p | p in b ensures InRegion(font, r, p) { assert p in a + b; }
    }
  }

  lemma AllStaySnoc(lines: seq<Line>, count: nat, align: Align)
    requires lines != []
    ensures AllStay(lines, count, align)
       <==> AllStay(lines[..|lines| - 1], count, align) && Stays(lines[|lines| - 1], align, |lines| == count)
  {
    var n := |lines| - 1;
    hide Stays;
    forall i | 0 <= i < n ensures lines[..n][i] == lines[i] {}
  }

  /** In a layout of fitting lines every glyph ends inside the region or starts at its left edge if and
      only if no line but the last is stretched past it. */
  lemma {:induction false} AllInRegionIff(font: Font, lines: seq<Line>, count: nat, r: Region, align: Align, top: real)
    requires LinesGood(font, lines, RegionWidth(r)) && r.minX < r.maxX
    ensures AllIn(font, r, Placed(lines, count, r, align, top)) <==> AllStay(lines, count, align)
  {
    hide AllIn, Stays, AllStay, PlacedOne, Measures, Measured, Fits;
    if lines == [] {
      NoneInside(font, count, r, align);
    } else {
      var n := |lines| - 1;
      assert LineGood(font, lines[n], RegionWidth(r));
      AllInRegionIff(font, lines[..n], count, r, align, top);
      AllStaySnoc(lines, count, align);
      var y := top + Heights(lines[..n]);
      AllInConcat(font, r, Placed(lines[..n], count, r, align, top), PlacedOne(lines[n], r, align, n + 1 == count, y));
      if Stays(lines[n], align, n + 1 == count) {
        LineInRegion(font, lines[n], r, align, n + 1 == count, y);
      } else {
        LineOverruns(font, lines[n], r, align, n + 1 == count, y);
      }
    }
  }

  lemma NoneInside(font: Font, count: nat, r: Region, align: Align)
    ensures AllIn(font, r, []) && AllStay([], count, align)
  {
  }

  lemma PlacedInRegion(font: Font, runs: seq<Run>, lines: seq<Line>, r: Region, align: Align, top: real, cuts: seq<Cut>)
    requires RegionWidth(r) > 0.0 && Advances(Items(font, runs))
    requires Flowed(Items(font, runs), RegionWidth(r), TokensOf(lines), cuts)
    requires AllFit(TokensOf(lines), RegionWidth(r)) && forall i :: 0 <= i < |lines| ==> LineOk(runs, lines[i])
    ensures AllIn(font, r, Placed(lines, |lines|, r, align, top)) <==> AllStay(lines, |lines|, align)
  {
    hide *;
    var st := Items(font, runs);
    ItemsAreMeasured(font, runs);
    NothingLost(st, RegionWidth(r), TokensOf(lines), cuts);
    StripMeasured(font, st, |st|);
    forall i | 0 <= i < |lines| ensures LineGood(font, lines[i], RegionWidth(r)) {
      PartMeasured(font, TokensOf(lines), i);
      FitOf(TokensOf(lines), RegionWidth(r), i);
      TokensAt(lines, i);
      assert LineOk(runs, lines[i]);
      IsGood(font, runs, lines[i], RegionWidth(r));
    }
    GoodLines(font, lines, RegionWidth(r));
    WideRegion(r);
    AllInRegionIff(font, lines, |lines|, r, align, top);
  }

  lemma TokensAt(lines: seq<Line>, i: nat)
    requires i < |lines|
    ensures TokensOf(lines)[i] == lines[i].tokens
  {
  }

  lemma FitOf(lines: seq<seq<Token>>, w: real, i: nat)
    requires i < |lines| && AllFit(lines, w)
    ensures Fits(lines[i], w)
  {
  }

  lemma IsGood(font: Font, runs: seq<Run>, l: Line, w: real)
    requires LineOk(runs, l) && Measured(font, l.tokens) && NonNegative(l.tokens) && Fits(l.tokens, w)
    ensures LineGood(font, l, w)
  {
    InnerGapsAre(l.tokens);
    hide VisibleWidth, GlyphWidth, InnerGaps, InnerSpaces, IsHeight;
  }

  lemma GoodLines(font: Font, lines: seq<Line>, w: real)
    requires forall i :: 0 <= i < |lines| ==> LineGood(font, lines[i], w)
    ensures LinesGood(font, lines, w)
  {
  }

  lemma WideRegion(r: Region)
    requires RegionWidth(r) > 0.0
    ensures r.minX < r.maxX
  {
  }

  method LayoutRuns(font: Font, runs: seq<Run>, r: Region, align: Align, valign: VAlign, lineBox: (real, real))
      returns (placements: seq<Placement>, ghost lines: seq<Line>, ghost cuts: seq<Cut>)
    ensures Flowed(Items(font, runs), RegionWidth(r), TokensOf(lines), cuts)
    ensures forall i :: 0 <= i < |lines| ==> LineOk(runs, lines[i])
    ensures RegionWidth(r) > 0.0 && Advances(Items(font, runs)) ==> AllFit(TokensOf(lines), RegionWidth(r))
    ensures lines == [] ==> placements == []
    ensures MarksOf(placements) == VisibleMarks(Strip(Items(font, runs), |Items(font, runs)|))
    ensures RegionWidth(r) > 0.0 && Advances(Items(font, runs)) ==>
              (AllIn(font, r, placements) <==> AllStay(lines, |lines|, align))
    ensures lines != [] ==>
              placements == Placed(lines, |lines|, r, align,
                                   TopEdge(lines, r, valign, MaxReal(lineBox.0 - lineBox.1, 0.0)))
  {
    hide *;
    var flowed;
    flowed, cuts := FlowLines(font, runs, RegionWidth(r));
    lines := flowed;
    placements := [];
    ghost var st := Items(font, runs);
    NothingLost(st, RegionWidth(r), TokensOf(flowed), cuts);
    if |flowed| == 0 {
      NoMarks();
      NoneInside(font, 0, r, align);
      return;
    }
    var boxRatio := MaxReal(lineBox.0 - lineBox.1, 0.0);
    var top := TopEdge(flowed, r, valign, boxRatio);
    var penY := top;
    assert flowed[..0] == [];
    NonePlacedYet(|flowed|, r, align, top);
    for i := 0 to |flowed|
      invariant penY == top + Heights(flowed[..i]) && placements == Placed(flowed[..i], |flowed|, r, align, top)
    {
      var line := flowed[i];
      var last := i == |flowed| - 1;
      placements := PlaceLine(line.tokens, LeftEdge(line, r, align), penY, Stretch(line, r, align, last), placements);
      PlacedSnoc(flowed, |flowed|, r, align, top, i);
      OneIs(line, r, align, last, penY);
      penY := penY + line.height;
    }
    assert flowed[..|flowed|] == flowed;
    PlacedMarks(flowed, |flowed|, r, align, top);
    if RegionWidth(r) > 0.0 && Advances(st) { PlacedInRegion(font, runs, flowed, r, align, top, cuts); }
  }

  lemma OneIs(l: Line, r: Region, align: Align, last: bool, y: real)
    ensures PlacedOne(l, r, align, last, y)
              == PlacedLine(l.tokens, LeftEdge(l, r, align), y, Stretch(l, r, align, last))
  {
  }

  /** What each alignment does with the slack of a fitting line. */
  lemma Margins(l: Line, r: Region)
    requires r.minX <= r.maxX && l.visibleWidth <= RegionWidth(r)
    ensures LeftEdge(l, r, Start) == r.minX
    ensures LeftEdge(l, r, End) + l.visibleWidth == r.maxX
    ensures LeftEdge(l, r, Center) - r.minX == r.maxX - (LeftEdge(l, r, Center) + l.visibleWidth)
  {
  }

  lemma VerticalMargins(lines: seq<Line>, r: Region, boxRatio: real)
    requires lines != [] && r.minY <= r.maxY
    ensures TopEdge(lines, r, Bottom, boxRatio) + BlockHeight(lines, boxRatio) == r.maxY
    ensures TopEdge(lines, r, Middle, boxRatio) - r.minY
              == r.maxY - (TopEdge(lines, r, Middle, boxRatio) + BlockHeight(lines, boxRatio))
    ensures var front, box := Heights(lines[..|lines| - 1]), lines[|lines| - 1].height * boxRatio;
            && TopEdge(lines, r, Top, boxRatio) == r.minY
            && TopEdge(lines, r, Bottom, boxRatio) + front + box == r.maxY
            && TopEdge(lines, r, Middle, boxRatio) - r.minY
                 == r.maxY - (TopEdge(lines, r, Middle, boxRatio) + front + box)
  {
  }
}
