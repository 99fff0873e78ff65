/** When justified text stays inside its region (crates/renderer-core/src/text_layout.rs): a line that is
    stretched over white space of some width overruns it. */
module JustifiedText {
  import opened LineFlow
  import opened LineBreaks
  import opened TextPlacement

  // ---- White space without width --------------------------------------------

  predicate ThinSpace(t: Token) { t.whitespace ==> t.advance == 0.0 }

  predicate ThinSpaces(st: seq<Item>) { forall i :: 0 <= i < |st| ==> ThinSpace(Tok(st[i])) }

  lemma {:induction false} ThinWidth(ts: seq<Token>)
    requires forall i :: 0 <= i < |ts| ==> ThinSpace(ts[i])
    ensures Width(ts) == GlyphWidth(ts) == VisibleWidth(ts)
  {
    if ts != [] {
      assert ThinSpace(ts[|ts| - 1]);
      ThinWidth(ts[..|ts| - 1]);
    }
  }

  /** A text whose white space has no width stays inside, however it is aligned. */
  lemma ThinTextStays(runs: seq<Run>, st: seq<Item>, w: real, lines: seq<Line>, cuts: seq<Cut>, align: Align)
    requires Laid(runs, st, w, lines, cuts) && ThinSpaces(st)
    ensures AllStay(lines, |lines|, align)
  {
    hide Flowed, AllFit, Seg, IsHeight, Width, GlyphWidth, VisibleWidth, InnerSpaces;
    FlowedCount(st, w, TokensOf(lines), cuts);
    forall i | 0 <= i < |lines| ensures Stays(lines[i], align, i + 1 == |lines|) {
      LineEnds(st, w, TokensOf(lines), cuts, i);
      SegThin(st, cuts[i].start, cuts[i].end);
      assert LineOk(runs, lines[i]);
      ThinWidth(lines[i].tokens);
    }
  }

  lemma SegThin(st: seq<Item>, i: nat, j: nat)
    requires i <= j <= |st| && ThinSpaces(st)
    ensures forall k :: 0 <= k < j - i ==> ThinSpace(Seg(st, i, j)[k])
  {
    forall k | 0 <= k < j - i ensures ThinSpace(Seg(st, i, j)[k]) { assert Seg(st, i, j)[k] == Tok(st[i + k]); }
  }

  // ---- The exact condition on the characters --------------------------------

  /** White space of some width with a visible token after it. */
  ghost predicate Wide(ts: seq<Token>, k: nat) {
    k < |ts| && ts[k].whitespace && ts[k].advance != 0.0 && VisibleIn(ts, k, |ts|)
  }

  lemma {:induction false} WidthIsGlyphsIff(ts: seq<Token>)
    requires NonNegative(ts)
    ensures GlyphWidth(ts) <= Width(ts)
    ensures Width(ts) == GlyphWidth(ts) <==> forall k :: 0 <= k < |ts| ==> ThinSpace(ts[k])
  {
    if ts != [] {
      var n := |ts| - 1;
      WidthIsGlyphsIff(ts[..n]);
      assert forall k :: 0 <= k < n ==> ts[..n][k] == ts[k];
    }
  }

  lemma {:induction false} VisibleIsGlyphsIff(ts: seq<Token>)
    requires NonNegative(ts)
    ensures VisibleWidth(ts) == GlyphWidth(ts) <==> !exists k: nat :: Wide(ts, k)
  {
    if ts != [] {
      var n := |ts| - 1;
      if ts[n].whitespace {
        VisibleIsGlyphsIff(ts[..n]);
        forall k: nat ensures Wide(ts, k) <==> Wide(ts[..n], k) {
          if k <= n { LastSpace(ts, k); }
          NoneAfter(ts[..n]);
        }
      } else {
        WidthIsGlyphsIff(ts);
        forall k: nat | k < |ts| ensures VisibleIn(ts, k, |ts|) { assert !ts[n].whitespace; }
        hide VisibleIn;
        assert (forall k :: 0 <= k < |ts| ==> ThinSpace(ts[k])) <==> !exists k: nat :: Wide(ts, k) by {
          forall k: nat | k < |ts| ensures ThinSpace(ts[k]) <==> !Wide(ts, k) {}
        }
      }
    }
  }

  /** A line of the text is stretched past the region: it has white space between two visible characters,
      and white space of some width before its last visible one. */
  ghost predicate Overruns(ts: seq<Token>) { InnerSpaces(ts) != {} && exists k: nat :: Wide(ts, k) }

  lemma StaysIff(runs: seq<Run>, l: Line, align: Align, last: bool)
    requires LineOk(runs, l) && NonNegative(l.tokens)
    ensures Stays(l, align, last) <==> !align.Justify? || last || !Overruns(l.tokens)
  {
    hide VisibleWidth, GlyphWidth, InnerSpaces, IsHeight, Wide, NonNegative;
    VisibleIsGlyphsIff(l.tokens);
    assert |InnerSpaces(l.tokens)| > 0 <==> InnerSpaces(l.tokens) != {};
  }

  /** Line `i` of the text, as the characters between two cuts. */
  ghost predicate CutOverruns(st: seq<Item>, cuts: seq<Cut>, i: nat) {
    i < |cuts| && cuts[i].start <= cuts[i].end <= |st| && Overruns(Seg(st, cuts[i].start, cuts[i].end))
  }

  /** Aligned in any way, all glyphs of a text stay inside the region if and only if it is not justified or no
      line of it but the last overruns, which its characters and their widths decide. */
  lemma TextStaysIff(font: Font, runs: seq<Run>, r: Region, lines: seq<Line>, cuts: seq<Cut>, align: Align, top: real)
    requires RegionWidth(r) > 0.0 && Advances(Items(font, runs))
    requires Laid(runs, Items(font, runs), RegionWidth(r), lines, cuts)
    ensures AllIn(font, r, Placed(lines, |lines|, r, align, top))
       <==> !align.Justify? || forall i: nat :: i + 1 < |cuts| ==> !CutOverruns(Items(font, runs), cuts, i)
  {
    hide *;
    var st, w := Items(font, runs), RegionWidth(r);
    LaidParts(runs, st, w, lines, cuts);
    PlacedInRegion(font, runs, lines, r, align, top, cuts);
    FlowedCount(st, w, TokensOf(lines), cuts);
    LinesCount(lines);
    forall i: nat | i < |lines|
      ensures Stays(lines[i], align, i + 1 == |lines|)
         <==> !align.Justify? || i + 1 == |lines| || !CutOverruns(st, cuts, i)
    {
      LineEnds(st, w, TokensOf(lines), cuts, i);
      TokensAt(lines, i);
      MayEndWhere(st, w, cuts[i].start, cuts[i].end);
      SegAdvances(st, cuts[i].start, cuts[i].end);
      StaysIff(runs, lines[i], align, i + 1 == |lines|);
      OverrunsAre(st, cuts, i);
    }
    AllStayIs(lines, |lines|, align);
  }

  lemma LaidParts(runs: seq<Run>, st: seq<Item>, w: real, lines: seq<Line>, cuts: seq<Cut>)
    requires Laid(runs, st, w, lines, cuts)
    ensures Flowed(st, w, TokensOf(lines), cuts) && (w > 0.0 ==> AllFit(TokensOf(lines), w))
    ensures forall i :: 0 <= i < |lines| ==> LineOk(runs, lines[i])
  {
  }

  lemma LinesCount(lines: seq<Line>)
    ensures |TokensOf(lines)| == |lines|
  {
  }

  lemma MayEndWhere(st: seq<Item>, w: real, i: nat, e: nat)
    requires MayEnd(st, w, i, e)
    ensures i <= e <= |st|
  {
  }

  lemma OverrunsAre(st: seq<Item>, cuts: seq<Cut>, i: nat)
    requires i < |cuts| && cuts[i].start <= cuts[i].end <= |st|
    ensures CutOverruns(st, cuts, i) <==> Overruns(Seg(st, cuts[i].start, cuts[i].end))
  {
  }

  lemma AllStayIs(lines: seq<Line>, count: nat, align: Align)
    ensures AllStay(lines, count, align) <==> forall i: nat :: i < |lines| ==> Stays(lines[i], align, i + 1 == count)
  {
    hide Stays;
  }

  // ---- Two words on a line --------------------------------------------------

  /** Three visible characters and a white-space one. */
  predicate Words(font: Font, a: char, space: char, b: char, c: char) {
    && a != '\n' && space != '\n' && b != '\n' && c != '\n'
    && font.space(space) && !font.space(a) && !font.space(b) && !font.space(c)
  }

  function TwoLineText(a: char, space: char, b: char, c: char): string { [a, space, b, '\n', c] }

  function TokenOf(font: Font, size: real, ch: char): Token {
    Token(ch, font.advance(ch, size), size, 0, font.space(ch))
  }

  function FirstTokens(font: Font, size: real, a: char, space: char, b: char): seq<Token> {
    [TokenOf(font, size, a), TokenOf(font, size, space), TokenOf(font, size, b)]
  }

  function LineWidth(font: Font, size: real, a: char, space: char, b: char): real {
    font.advance(a, size) + font.advance(space, size) + font.advance(b, size)
  }

  /** The lines of such a text in a region that holds the first. */
  function TwoLines(font: Font, size: real, a: char, space: char, b: char, c: char): seq<Line> {
    [Line(FirstTokens(font, size, a, space, b), LineWidth(font, size, a, space, b),
          font.advance(a, size) + font.advance(b, size), 1, size),
     Line([TokenOf(font, size, c)], font.advance(c, size), font.advance(c, size), 0, size)]
  }

  function TwoCuts(): seq<Cut> { [Cut(0, 3), Cut(4, 5)] }

  lemma OneRun(font: Font, run: Run)
    ensures Items(font, [run]) == RunItems(font, run, 0)
  {
    assert [run][..0] == [];
    hide RunItems;
  }

  lemma RunItemAt(font: Font, run: Run, k: nat)
    requires k < |run.text|
    ensures |RunItems(font, run, 0)| == |run.text| && RunItems(font, run, 0)[k] == ItemOf(font, run, 0, run.text[k])
  {
    hide ItemOf;
  }

  lemma GlyphItem(font: Font, run: Run, ch: char)
    requires run.size > 0.0 && ch != '\n'
    ensures ItemOf(font, run, 0, ch) == Glyph(TokenOf(font, run.size, ch))
  {
  }

  lemma NewlineItem(font: Font, run: Run)
    ensures ItemOf(font, run, 0, '\n') == Newline
  {
  }

  lemma TwoLineItems(font: Font, size: real, a: char, space: char, b: char, c: char)
    requires size > 0.0 && Words(font, a, space, b, c)
    ensures Items(font, [Run(TwoLineText(a, space, b, c), size)])
         == [Glyph(TokenOf(font, size, a)), Glyph(TokenOf(font, size, space)), Glyph(TokenOf(font, size, b)),
             Newline, Glyph(TokenOf(font, size, c))]
  {
    hide Items, RunItems, ItemOf, TokenOf;
    var run := Run(TwoLineText(a, space, b, c), size);
    OneRun(font, run);
    RunItemAt(font, run, 0); RunItemAt(font, run, 1); RunItemAt(font, run, 2); RunItemAt(font, run, 3);
    RunItemAt(font, run, 4);
    GlyphItem(font, run, a); GlyphItem(font, run, space); GlyphItem(font, run, b); GlyphItem(font, run, c);
    NewlineItem(font, run);
  }

  lemma ThreeTokens(x: Token, y: Token, z: Token)
    requires !x.whitespace && y.whitespace && !z.whitespace
    ensures VisibleWidth([x, y, z]) == x.advance + y.advance + z.advance
    ensures GlyphWidth([x, y, z]) == x.advance + z.advance && InnerGaps([x, y, z]) == 1
  {
    var none: seq<Token> := [];
    assert none + [x] == [x] && [x] + [y] == [x, y] && [x, y] + [z] == [x, y, z];
    WidthSnoc(none, x); CountsSnoc(none, x);
    WidthSnoc([x], y); CountsSnoc([x], y);
    WidthSnoc([x, y], z); CountsSnoc([x, y], z);
  }

  lemma OneToken(x: Token)
    requires !x.whitespace
    ensures VisibleWidth([x]) == x.advance && GlyphWidth([x]) == x.advance && InnerGaps([x]) == 0
  {
    var none: seq<Token> := [];
    assert none + [x] == [x];
    WidthSnoc(none, x); CountsSnoc(none, x);
  }

  lemma TwoLinesMeasured(font: Font, size: real, a: char, space: char, b: char, c: char)
    requires size > 0.0 && Words(font, a, space, b, c)
    ensures var lines, runs := TwoLines(font, size, a, space, b, c), [Run(TwoLineText(a, space, b, c), size)];
            LineOk(runs, lines[0]) && LineOk(runs, lines[1])
  {
    var lines, runs := TwoLines(font, size, a, space, b, c), [Run(TwoLineText(a, space, b, c), size)];
    ThreeTokens(TokenOf(font, size, a), TokenOf(font, size, space), TokenOf(font, size, b));
    OneToken(TokenOf(font, size, c));
    InnerGapsAre(lines[0].tokens);
    InnerGapsAre(lines[1].tokens);
    assert LineHeightFor(runs, lines[0].tokens[0]) == size && LineHeightFor(runs, lines[1].tokens[0]) == size;
    hide VisibleWidth, GlyphWidth, InnerGaps, InnerSpaces;
  }

  /** Such a text flows into those lines. */
  lemma TwoLinesLaid(font: Font, size: real, a: char, space: char, b: char, c: char, w: real)
    requires size > 0.0 && Words(font, a, space, b, c) && LineWidth(font, size, a, space, b) <= w
    ensures var runs := [Run(TwoLineText(a, space, b, c), size)];
            Laid(runs, Items(font, runs), w, TwoLines(font, size, a, space, b, c), TwoCuts())
  {
    var lines, runs := TwoLines(font, size, a, space, b, c), [Run(TwoLineText(a, space, b, c), size)];
    var st, cuts := Items(font, runs), TwoCuts();
    TwoLineItems(font, size, a, space, b, c);
    TwoLinesMeasured(font, size, a, space, b, c);
    hide Items, TwoLines, InnerSpaces, IsHeight;
    TwoLinesFlow(font, size, a, space, b, c, w, st);
  }

  lemma TwoLinesFlow(font: Font, size: real, a: char, space: char, b: char, c: char, w: real, st: seq<Item>)
    requires Words(font, a, space, b, c) && LineWidth(font, size, a, space, b) <= w
    requires st == [Glyph(TokenOf(font, size, a)), Glyph(TokenOf(font, size, space)), Glyph(TokenOf(font, size, b)),
                    Newline, Glyph(TokenOf(font, size, c))]
    ensures var lines := TwoLines(font, size, a, space, b, c);
            |lines| == 2 && Flowed(st, w, TokensOf(lines), TwoCuts()) && AllFit(TokensOf(lines), w)
  {
    var lines, cuts := TwoLines(font, size, a, space, b, c), TwoCuts();
    var ts := TokensOf(lines);
    assert ts == [FirstTokens(font, size, a, space, b), [TokenOf(font, size, c)]];
    assert ts[..1] == [FirstTokens(font, size, a, space, b)] && cuts[..1] == [Cut(0, 3)] && cuts[..1][..0] == [];
    assert Seg(st, 0, 3) == FirstTokens(font, size, a, space, b) && Seg(st, 4, 5) == [TokenOf(font, size, c)];
    assert CutOk(st, w, ts[..1][0], cuts[..1][0], Resume(st, cuts[..1][..0]));
    ThreeTokens(TokenOf(font, size, a), TokenOf(font, size, space), TokenOf(font, size, b));
    hide VisibleWidth;
  }

  lemma ThreePlaced(t: Token, u: Token, v: Token, x: real, y: real, extra: real)
    requires !t.whitespace && u.whitespace && !v.whitespace
    ensures PlacedLine([t, u, v], x, y, extra) == [Place(t, x, y), Place(v, x + t.advance + u.advance + extra, y)]
  {
    var none: seq<Token> := [];
    assert none + [t] == [t] && [t] + [u] == [t, u] && [t, u] + [v] == [t, u, v];
    PenSnoc(none, t, x, y, extra); CountsSnoc(none, t);
    PenSnoc([t], u, x, y, extra);
    PenSnoc([t, u], v, x, y, extra);
  }

  lemma OnePlaced(t: Token, x: real, y: real, extra: real)
    requires !t.whitespace
    ensures PlacedLine([t], x, y, extra) == [Place(t, x, y)]
  {
    var none: seq<Token> := [];
    assert none + [t] == [t];
    PenSnoc(none, t, x, y, extra);
  }

  /** Justified, its second glyph ends past the region by the width of the white space. */
  lemma TwoLinesPlaced(font: Font, size: real, a: char, space: char, b: char, c: char, r: Region, top: real)
    requires Words(font, a, space, b, c) && r.minX <= r.maxX
    requires font.advance(a, size) + font.advance(b, size) <= r.maxX - r.minX
    ensures Placed(TwoLines(font, size, a, space, b, c), 2, r, Justify, top)
         == [Placement(a, r.minX, top, size, 0),
             Placement(b, r.maxX + font.advance(space, size) - font.advance(b, size), top, size, 0),
             Placement(c, r.minX, top + size, size, 0)]
  {
    var lines := TwoLines(font, size, a, space, b, c);
    var extra := RegionWidth(r) - lines[0].glyphWidth;
    assert Stretch(lines[0], r, Justify, false) == extra && Stretch(lines[1], r, Justify, true) == 0.0;
    ThreePlaced(TokenOf(font, size, a), TokenOf(font, size, space), TokenOf(font, size, b), r.minX, top, extra);
    OnePlaced(TokenOf(font, size, c), r.minX, top + size, 0.0);
    PlacedSnoc(lines, 2, r, Justify, top, 0);
    PlacedSnoc(lines, 2, r, Justify, top, 1);
    NonePlacedYet(2, r, Justify, top);
    assert lines[..0] == [] && lines[..2] == lines;
    hide PlacedLine, Placed, Heights, Stretch;
  }

  // ---- A text that overruns -------------------------------------------------

  /** One unit wide glyphs, and a blank. */
  function UnitFont(): Font { Font((ch, size) => 1.0, ch => ch == ' ') }

  /** Whatever lines such a layout has, "a b" on a line before the last of a region ten wide is stretched
      so that the second glyph runs from ten to eleven. */
  lemma {:induction false} JustifiedLineOverruns(lines: seq<Line>, cuts: seq<Cut>)
    requires var runs := [Run("a b\nc", 16.0)]; Laid(runs, Items(UnitFont(), runs), 10.0, lines, cuts)
    ensures var r := Region(0.0, 0.0, 10.0, 100.0);
            && Placed(lines, |lines|, r, Justify, r.minY)
                 == [Placement('a', 0.0, 0.0, 16.0, 0), Placement('b', 10.0, 0.0, 16.0, 0),
                     Placement('c', 0.0, 16.0, 16.0, 0)]
            && !AllIn(UnitFont(), r, Placed(lines, |lines|, r, Justify, r.minY))
  {
    hide *;
    var font, runs, r := UnitFont(), [Run("a b\nc", 16.0)], Region(0.0, 0.0, 10.0, 100.0);
    UnitWords();
    TwoLineItems(font, 16.0, 'a', ' ', 'b', 'c');
    TwoLinesLaid(font, 16.0, 'a', ' ', 'b', 'c', 10.0);
    UnitAdvances();
    LinesAreDetermined(runs, Items(font, runs), 10.0, lines, cuts, TwoLines(font, 16.0, 'a', ' ', 'b', 'c'), TwoCuts());
    TwoLinesCount(font, 16.0, 'a', ' ', 'b', 'c');
    TwoLinesPlaced(font, 16.0, 'a', ' ', 'b', 'c', r, 0.0);
    PastTheEdge(Placed(lines, |lines|, r, Justify, r.minY));
  }

  lemma UnitWords()
    ensures Words(UnitFont(), 'a', ' ', 'b', 'c') && TwoLineText('a', ' ', 'b', 'c') == "a b\nc"
    ensures LineWidth(UnitFont(), 16.0, 'a', ' ', 'b') == 3.0
    ensures forall ch :: UnitFont().advance(ch, 16.0) == 1.0
  {
  }

  lemma UnitAdvances()
    ensures Advances(Items(UnitFont(), [Run("a b\nc", 16.0)]))
  {
    UnitWords();
    TwoLineItems(UnitFont(), 16.0, 'a', ' ', 'b', 'c');
    hide Items;
  }

  lemma PastTheEdge(ps: seq<Placement>)
    requires |ps| > 1 && ps[1] == Placement('b', 10.0, 0.0, 16.0, 0)
    ensures !AllIn(UnitFont(), Region(0.0, 0.0, 10.0, 100.0), ps)
  {
    assert ps[1] in ps;
    assert !InRegion(UnitFont(), Region(0.0, 0.0, 10.0, 100.0), ps[1]);
  }

  // ---- Which fonts justify every text ---------------------------------------

  /** Whatever the text and the region, every glyph of its justified layout ends inside the region or
      starts at its left edge. */
  ghost predicate JustifiesInside(font: Font) {
    forall runs, r, lines, cuts, top ::
      RegionWidth(r) > 0.0 && Laid(runs, Items(font, runs), RegionWidth(r), lines, cuts) ==>
        AllIn(font, r, Placed(lines, |lines|, r, Justify, top))
  }

  /** White space has no width at any size. */
  ghost predicate ThinFont(font: Font) {
    forall ch: char, size: real :: ch != '\n' && size > 0.0 && font.space(ch) ==> font.advance(ch, size) == 0.0
  }

  ghost predicate Advancing(font: Font) { forall ch: char, size: real :: font.advance(ch, size) >= 0.0 }

  lemma {:induction false} ItemsAdvance(font: Font, runs: seq<Run>)
    requires Advancing(font)
    ensures Advances(Items(font, runs)) && (ThinFont(font) ==> ThinSpaces(Items(font, runs)))
  {
    if runs != [] { ItemsAdvance(font, runs[..|runs| - 1]); }
  }

  lemma ThinFontStays(font: Font, runs: seq<Run>, r: Region, lines: seq<Line>, cuts: seq<Cut>, align: Align, top: real)
    requires Advancing(font) && ThinFont(font) && RegionWidth(r) > 0.0
    requires Laid(runs, Items(font, runs), RegionWidth(r), lines, cuts)
    ensures AllIn(font, r, Placed(lines, |lines|, r, align, top))
  {
    ItemsAdvance(font, runs);
    ThinTextStays(runs, Items(font, runs), RegionWidth(r), lines, cuts, align);
    hide ThinFont, Advancing, Items, Flowed, AllFit, Placed, AllIn, AllStay, Advances, ThinSpaces, LineOk;
    PlacedInRegion(font, runs, lines, r, align, top, cuts);
  }

  /** A font with a visible character justifies every text inside its region if and only if its white space
      has no width. */
  lemma JustifiesInsideIff(font: Font, a: char)
    requires Advancing(font) && a != '\n' && !font.space(a)
    ensures JustifiesInside(font) <==> ThinFont(font)
  {
    hide Laid, Items, Placed, TwoLines;
    if ThinFont(font) {
      forall runs, r, lines, cuts, top
        | RegionWidth(r) > 0.0 && Laid(runs, Items(font, runs), RegionWidth(r), lines, cuts)
        ensures AllIn(font, r, Placed(lines, |lines|, r, Justify, top))
      {
        ThinFontStays(font, runs, r, lines, cuts, Justify, top);
      }
    }
    if JustifiesInside(font) {
      forall ch: char, size: real | ch != '\n' && size > 0.0 && font.space(ch) ensures font.advance(ch, size) == 0.0 {
        WideSpaceOverruns(font, size, a, ch);
      }
    }
  }

  lemma WideSpaceOverruns(font: Font, size: real, a: char, space: char)
    requires Advancing(font) && size > 0.0 && Words(font, a, space, a, a) && JustifiesInside(font)
    ensures font.advance(space, size) == 0.0
  {
    var s, w := font.advance(space, size), LineWidth(font, size, a, space, a) + 1.0;
    var r, runs := Region(0.0, 0.0, w, 1.0), [Run(TwoLineText(a, space, a, a), size)];
    var lines := TwoLines(font, size, a, space, a, a);
    assert font.advance(a, size) >= 0.0 && s >= 0.0;
    TwoLinesLaid(font, size, a, space, a, a, w);
    TwoLinesPlaced(font, size, a, space, a, a, r, 0.0);
    TwoLinesCount(font, size, a, space, a, a);
    hide Laid, Items, Placed, TwoLines;
    assert RegionWidth(r) == w;
    assert AllIn(font, r, Placed(lines, |lines|, r, Justify, 0.0));
    var p := Placement(a, w + s - font.advance(a, size), 0.0, size, 0);
    assert p == Placed(lines, 2, r, Justify, 0.0)[1];
    assert InRegion(font, r, p);
  }

  lemma TwoLinesCount(font: Font, size: real, a: char, space: char, b: char, c: char)
    ensures |TwoLines(font, size, a, space, b, c)| == 2
  {
  }
}
