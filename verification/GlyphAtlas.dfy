/** The shelf-packed glyph atlas (crates/renderer-core/src/text_layout.rs, `MsdfAtlasPlan`): glyphs are
    packed in rows into one flat texel buffer and registered under their key. */
module GlyphAtlas {
  import opened Sequences

  datatype Key = Key(font: nat, glyph: nat, px: nat, coverage: bool)

  datatype Texel = Texel(r: nat, g: nat, b: nat, a: nat)

  const CLEAR: Texel := Texel(0, 0, 0, 0)

  function Gray(v: nat): Texel { Texel(v, v, v, v) }

  datatype Rect = Rect(x: nat, y: nat, w: nat, h: nat)

  datatype Entry = Entry(left: real, top: real, right: real, bottom: real, bearingX: real, bearingY: real,
                         width: real, height: real, coverage: bool)

  /** What a registered non-empty glyph owns: its cell and the texels written there. */
  datatype Slot = Slot(cell: Rect, texels: seq<seq<Texel>>)

  predicate Shaped<T>(m: seq<seq<T>>, w: nat, h: nat) { |m| == h && forall row :: 0 <= row < h ==> |m[row]| == w }

  // ---- The shelf allocator --------------------------------------------------

  datatype Cursor = Cursor(x: nat, y: nat, row: nat)

  function Wrapped(c: Cursor, aw: nat, w: nat): Cursor {
    if c.x + w >= aw then Cursor(1, c.y + c.row + 1, 0) else c
  }

  /** The cursor after asking for a `w` by `h` cell, and the cell if there is room. A refused request
      may still have started a new row. */
  function Allocate(c: Cursor, aw: nat, ah: nat, w: nat, h: nat): (Cursor, Option<Rect>) {
    if w >= aw || h >= ah then (c, None)
    else
      var d := Wrapped(c, aw, w);
      if d.y + h >= ah then (d, None)
      else (Cursor(d.x + w + 1, d.y, Max(d.row, h)), Some(Rect(d.x, d.y, w, h)))
  }

  /** The cell lies on a finished row, or to the left on the current one. */
  predicate Shelved(r: Rect, c: Cursor) {
    r.y + r.h + 1 <= c.y || (r.y == c.y && r.x + r.w + 1 <= c.x && r.h <= c.row)
  }

  predicate InAtlas(r: Rect, aw: nat, ah: nat) { 1 <= r.x && r.x + r.w <= aw && 1 <= r.y && r.y + r.h < ah }

  /** At least one texel lies between the cells on some axis. */
  predicate Apart(a: Rect, b: Rect) {
    a.x + a.w + 1 <= b.x || b.x + b.w + 1 <= a.x || a.y + a.h + 1 <= b.y || b.y + b.h + 1 <= a.y
  }

  predicate Within(r: Rect, y: int, x: int) { r.y <= y < r.y + r.h && r.x <= x < r.x + r.w }

  /** A new cell is in bounds and apart from every cell shelved before, and all stay shelved. */
  lemma AllocateKeeps(c: Cursor, aw: nat, ah: nat, w: nat, h: nat, was: Rect)
    requires c.x >= 1 && c.y >= 1 && Shelved(was, c)
    ensures var (d, cell) := Allocate(c, aw, ah, w, h);
            && d.x >= 1 && d.y >= 1 && Shelved(was, d)
            && (cell.Some? ==> InAtlas(cell.value, aw, ah) && Shelved(cell.value, d) && Apart(was, cell.value)
                               && cell.value.w == w && cell.value.h == h)
  {
  }

  /** Cells that are apart share no texel. */
  lemma ApartShareNothing(a: Rect, b: Rect, y: int, x: int)
    requires Apart(a, b) && Within(a, y, x)
    ensures !Within(b, y, x)
  {
  }

  /** The cells a run of requests is given. */
  function Cells(c: Cursor, aw: nat, ah: nat, sizes: seq<(nat, nat)>): seq<Rect>
    decreases |sizes|
  {
    if sizes == [] then []
    else
      var (d, cell) := Allocate(c, aw, ah, sizes[0].0, sizes[0].1);
      (if cell.Some? then [cell.value] else []) + Cells(d, aw, ah, sizes[1..])
  }

  lemma {:induction false} CellsAreNew(c: Cursor, aw: nat, ah: nat, sizes: seq<(nat, nat)>, was: Rect)
    requires c.x >= 1 && c.y >= 1 && Shelved(was, c)
    ensures forall r :: r in Cells(c, aw, ah, sizes) ==> InAtlas(r, aw, ah) && Apart(was, r)
    decreases |sizes|
  {
    if sizes != [] {
      AllocateKeeps(c, aw, ah, sizes[0].0, sizes[0].1, was);
      CellsAreNew(Allocate(c, aw, ah, sizes[0].0, sizes[0].1).0, aw, ah, sizes[1..], was);
    }
  }

  /** Over any run of requests, granted or refused, all cells are in bounds and pairwise apart. */
  lemma {:induction false} RunStaysApart(c: Cursor, aw: nat, ah: nat, sizes: seq<(nat, nat)>)
    requires c.x >= 1 && c.y >= 1
    ensures forall r :: r in Cells(c, aw, ah, sizes) ==> InAtlas(r, aw, ah)
    ensures forall i, j ::
              0 <= i < j < |Cells(c, aw, ah, sizes)| ==> Apart(Cells(c, aw, ah, sizes)[i], Cells(c, aw, ah, sizes)[j])
    decreases |sizes|
  {
    if sizes != [] {
      var (d, cell) := Allocate(c, aw, ah, sizes[0].0, sizes[0].1);
      var rest := Cells(d, aw, ah, sizes[1..]);
      RunStaysApart(d, aw, ah, sizes[1..]);
      if cell.Some? {
        AllocateKeeps(c, aw, ah, sizes[0].0, sizes[0].1, Rect(0, 0, 0, 0));
        CellsAreNew(d, aw, ah, sizes[1..], cell.value);
        assert Cells(c, aw, ah, sizes) == [cell.value] + rest;
      } else {
        assert Cells(c, aw, ah, sizes) == rest;
      }
    }
  }

  // ---- How tightly a run packs ----------------------------------------------

  /** The height of the tallest cell of the row at `y`. */
  function RowHeight(cells: seq<Rect>, y: nat): nat {
    if cells == [] then 0
    else
      var r := cells[|cells| - 1];
      Max(RowHeight(cells[..|cells| - 1], y), if r.y == y then r.h else 0)
  }

  lemma {:induction false} RowHeightIs(cells: seq<Rect>, y: nat)
    ensures forall r :: r in cells && r.y == y ==> r.h <= RowHeight(cells, y)
    ensures RowHeight(cells, y) == 0 || exists r :: r in cells && r.y == y && r.h == RowHeight(cells, y)
  {
    if cells != [] {
      RowHeightIs(cells[..|cells| - 1], y);
      assert cells == cells[..|cells| - 1] + [cells[|cells| - 1]];
    }
  }

  /** Where a cell `w` wide goes after the cells so far: one texel right of the last one, or at the left edge
      one texel below its row's tallest. */
  function Spot(cells: seq<Rect>, aw: nat, w: nat): (nat, nat)
    requires cells != []
  {
    var r := cells[|cells| - 1];
    if r.x + r.w + 1 + w < aw then (r.x + r.w + 1, r.y) else (1, r.y + RowHeight(cells, r.y) + 1)
  }

  /** The cursor stands after the last cell, and no cell lies on a later row. */
  ghost predicate StandsAfter(c: Cursor, cells: seq<Rect>) {
    cells != [] && var r := cells[|cells| - 1];
      && c == Cursor(r.x + r.w + 1, r.y, RowHeight(cells, r.y))
      && forall q :: q in cells ==> q.y <= r.y
  }

  /** A request that fits the atlas is refused only if its spot leaves too little height below it. */
  lemma GrantedIff(c: Cursor, cells: seq<Rect>, aw: nat, ah: nat, w: nat, h: nat)
    requires StandsAfter(c, cells)
    ensures var cell := Allocate(c, aw, ah, w, h).1;
            && (cell.Some? <==> w < aw && h < ah && Spot(cells, aw, w).1 + h < ah)
            && (cell.Some? ==> cell == Some(Rect(Spot(cells, aw, w).0, Spot(cells, aw, w).1, w, h)))
  {
    hide RowHeight;
  }

  lemma GrantedStandsAfter(c: Cursor, cells: seq<Rect>, aw: nat, ah: nat, w: nat, h: nat)
    requires StandsAfter(c, cells)
    ensures var (d, cell) := Allocate(c, aw, ah, w, h);
            cell.Some? ==> StandsAfter(d, cells + [cell.value])
  {
    var (d, cell) := Allocate(c, aw, ah, w, h);
    if cell.Some? {
      assert (cells + [cell.value])[..|cells|] == cells;
      RowHeightIs(cells, cell.value.y);
    }
  }

  /** The first cell goes to the corner; one that needs the whole width takes a new row even then. */
  lemma FirstCell(aw: nat, ah: nat, w: nat, h: nat)
    ensures var (d, cell) := Allocate(Cursor(1, 1, 0), aw, ah, w, h);
            && (cell.Some? <==> w < aw && h < ah && (if w + 1 < aw then 1 else 2) + h < ah)
            && (cell.Some? ==> cell == Some(Rect(1, if w + 1 < aw then 1 else 2, w, h)) && StandsAfter(d, [cell.value]))
  {
    assert [Rect(1, if w + 1 < aw then 1 else 2, w, h)][..0] == [];
  }

  /** In a run without refusals every cell takes the spot the cells before it leave. */
  lemma {:induction false} RunIsTight(before: seq<Rect>, c: Cursor, aw: nat, ah: nat, sizes: seq<(nat, nat)>, i: nat)
    requires StandsAfter(c, before) && |Cells(c, aw, ah, sizes)| == |sizes| && i < |sizes|
    ensures var cells := Cells(c, aw, ah, sizes);
            cells[i] == Rect(Spot(before + cells[..i], aw, sizes[i].0).0, Spot(before + cells[..i], aw, sizes[i].0).1,
                             sizes[i].0, sizes[i].1)
    decreases |sizes|
  {
    hide Spot, StandsAfter, Allocate;
    var (d, cell) := Allocate(c, aw, ah, sizes[0].0, sizes[0].1);
    var cells, rest := Cells(c, aw, ah, sizes), Cells(d, aw, ah, sizes[1..]);
    NoMoreCells(d, aw, ah, sizes[1..]);
    assert cells == [cell.value] + rest;
    GrantedIff(c, before, aw, ah, sizes[0].0, sizes[0].1);
    if i == 0 {
      assert before + cells[..0] == before;
    } else {
      GrantedStandsAfter(c, before, aw, ah, sizes[0].0, sizes[0].1);
      RunIsTight(before + [cell.value], d, aw, ah, sizes[1..], i - 1);
      assert before + cells[..i] == before + [cell.value] + rest[..i - 1];
    }
  }

  lemma {:induction false} NoMoreCells(c: Cursor, aw: nat, ah: nat, sizes: seq<(nat, nat)>)
    ensures |Cells(c, aw, ah, sizes)| <= |sizes|
    decreases |sizes|
  {
    if sizes != [] { NoMoreCells(Allocate(c, aw, ah, sizes[0].0, sizes[0].1).0, aw, ah, sizes[1..]); }
  }

  // ---- The flat texel buffer ------------------------------------------------

  function Index(aw: nat, y: nat, x: nat): nat { y * aw + x }

  lemma IndexInBounds(aw: nat, ah: nat, y: nat, x: nat)
    requires y < ah && x < aw
    ensures Index(aw, y, x) < ah * aw
  {
    assert (y + 1) * aw <= ah * aw;
  }

  lemma IndexInjective(aw: nat, y: nat, x: nat, v: nat, u: nat)
    requires x < aw && u < aw && Index(aw, y, x) == Index(aw, v, u)
    ensures y == v && x == u
  {
    RowsApart(aw, y, v);
    RowsApart(aw, v, y);
  }

  lemma RowsApart(aw: nat, y: nat, v: nat)
    ensures y < v ==> y * aw + aw <= v * aw
  {
    if y < v { Rows(y, v - y - 1, aw); }
  }

  lemma Rows(y: nat, d: nat, aw: nat)
    ensures (y + 1 + d) * aw >= y * aw + aw
  {
    assert (y + 1 + d) * aw == y * aw + aw + d * aw;
  }

  function At(pixels: seq<Texel>, aw: nat, y: nat, x: nat): Texel {
    if Index(aw, y, x) < |pixels| then pixels[Index(aw, y, x)] else CLEAR
  }

  /** The buffer shows `texels` in `cell`. */
  ghost predicate Shows(pixels: seq<Texel>, aw: nat, cell: Rect, texels: seq<seq<Texel>>) {
    && Shaped(texels, cell.w, cell.h)
    && forall row, col ::
         0 <= row < cell.h && 0 <= col < cell.w ==> At(pixels, aw, cell.y + row, cell.x + col) == texels[row][col]
  }

  /** Buffers that agree outside `cell`. */
  ghost predicate SameOutside(a: seq<Texel>, b: seq<Texel>, aw: nat, cell: Rect) {
    |a| == |b| && forall y: nat, x: nat :: x < aw && !Within(cell, y, x) ==> At(a, aw, y, x) == At(b, aw, y, x)
  }

  /** Writing one cell leaves what another, apart from it, shows. */
  lemma OthersShow(a: seq<Texel>, b: seq<Texel>, aw: nat, ah: nat, cell: Rect, other: Rect, texels: seq<seq<Texel>>)
    requires SameOutside(a, b, aw, cell) && Apart(other, cell) && InAtlas(other, aw, ah) && Shows(a, aw, other, texels)
    ensures Shows(b, aw, other, texels)
  {
    hide At;
    forall row, col | 0 <= row < other.h && 0 <= col < other.w
      ensures At(b, aw, other.y + row, other.x + col) == texels[row][col]
    {
      ApartShareNothing(other, cell, other.y + row, other.x + col);
    }
  }

  method Blit(pixels: array<Texel>, aw: nat, ah: nat, cell: Rect, texels: seq<seq<Texel>>)
    requires pixels.Length == ah * aw && InAtlas(cell, aw, ah) && Shaped(texels, cell.w, cell.h)
    modifies pixels
    ensures Shows(pixels[..], aw, cell, texels) && SameOutside(old(pixels[..]), pixels[..], aw, cell)
  {
    for row := 0 to cell.h
      invariant Painted(pixels[..], aw, cell, texels, row, 0) && SameOutside(old(pixels[..]), pixels[..], aw, cell)
    {
      for col := 0 to cell.w
        invariant Painted(pixels[..], aw, cell, texels, row, col) && SameOutside(old(pixels[..]), pixels[..], aw, cell)
      {
        IndexInBounds(aw, ah, cell.y + row, cell.x + col);
        ghost var before := pixels[..];
        pixels[Index(aw, cell.y + row, cell.x + col)] := texels[row][col];
        OneWrite(before, aw, cell, texels, row, col);
        Transit(old(pixels[..]), before, pixels[..], aw, cell);
      }
    }
  }

  /** All rows before `row`, and that row's columns before `col`, are written. */
  ghost predicate Painted(pixels: seq<Texel>, aw: nat, cell: Rect, texels: seq<seq<Texel>>, row: nat, col: nat) {
    && Shaped(texels, cell.w, cell.h)
    && forall r, c :: 0 <= r < cell.h && 0 <= c < cell.w && (r < row || (r == row && c < col)) ==>
         At(pixels, aw, cell.y + r, cell.x + c) == texels[r][c]
  }

  lemma OneWrite(before: seq<Texel>, aw: nat, cell: Rect, texels: seq<seq<Texel>>, row: nat, col: nat)
    requires cell.x + cell.w <= aw && row < cell.h && col < cell.w && Painted(before, aw, cell, texels, row, col)
    requires Index(aw, cell.y + row, cell.x + col) < |before|
    ensures var after := before[Index(aw, cell.y + row, cell.x + col) := texels[row][col]];
            Painted(after, aw, cell, texels, row, col + 1) && SameOutside(before, after, aw, cell)
  {
    var y, x := cell.y + row, cell.x + col;
    var after := before[Index(aw, y, x) := texels[row][col]];
    forall v: nat, u: nat | u < aw && (v != y || u != x) ensures At(after, aw, v, u) == At(before, aw, v, u) {
      if Index(aw, v, u) == Index(aw, y, x) { IndexInjective(aw, v, u, y, x); }
    }
    assert At(after, aw, y, x) == texels[row][col];
    hide At, Index;
  }

  lemma Transit(a: seq<Texel>, b: seq<Texel>, c: seq<Texel>, aw: nat, cell: Rect)
    requires SameOutside(a, b, aw, cell) && SameOutside(b, c, aw, cell)
    ensures SameOutside(a, c, aw, cell)
  {
    hide At;
  }

  // ---- The atlas ------------------------------------------------------------

  function UvEntry(aw: nat, ah: nat, cell: Rect, bearingX: real, bearingY: real, oversample: real,
                   coverage: bool): Entry
    requires aw > 0 && ah > 0
  {
    var inv := 1.0 / MaxReal(oversample, 1.0);
    Entry(cell.x as real / aw as real, cell.y as real / ah as real,
          (cell.x + cell.w) as real / aw as real, (cell.y + cell.h) as real / ah as real,
          bearingX * inv, bearingY * inv, cell.w as real * inv, cell.h as real * inv, coverage)
  }

  /** The entry's corners are the cell's. */
  predicate Frames(e: Entry, aw: nat, ah: nat, cell: Rect)
    requires aw > 0 && ah > 0
  {
    && e.left * aw as real == cell.x as real && e.right * aw as real == (cell.x + cell.w) as real
    && e.top * ah as real == cell.y as real && e.bottom * ah as real == (cell.y + cell.h) as real
  }

  /** Sizes and bearings are the cell's and the raster's divided by the oversampling, which is never below one. */
  lemma EntryScales(aw: nat, ah: nat, cell: Rect, bearingX: real, bearingY: real, oversample: real, coverage: bool)
    requires aw > 0 && ah > 0
    ensures var e := UvEntry(aw, ah, cell, bearingX, bearingY, oversample, coverage);
            && (oversample >= 1.0 ==> e.width * oversample == cell.w as real && e.height * oversample == cell.h as real
                                      && e.bearingX * oversample == bearingX && e.bearingY * oversample == bearingY)
            && (oversample <= 1.0 ==> e.width == cell.w as real && e.height == cell.h as real
                                      && e.bearingX == bearingX && e.bearingY == bearingY)
            && e.coverage == coverage
  {
    var o := MaxReal(oversample, 1.0);
    InverseCancels(cell.w as real, o);
    InverseCancels(cell.h as real, o);
    InverseCancels(bearingX, o);
    InverseCancels(bearingY, o);
  }

  lemma InverseCancels(v: real, o: real)
    requires o >= 1.0
    ensures v * (1.0 / o) * o == v && (o == 1.0 ==> v * (1.0 / o) == v)
  {
    assert 1.0 / o * o == 1.0;
  }

  lemma UvFrames(aw: nat, ah: nat, cell: Rect, bearingX: real, bearingY: real, oversample: real, coverage: bool)
    requires aw > 0 && ah > 0
    ensures var e := UvEntry(aw, ah, cell, bearingX, bearingY, oversample, coverage);
            && Frames(e, aw, ah, cell)
            && e.left * aw as real == cell.x as real && e.right * aw as real == (cell.x + cell.w) as real
            && e.top * ah as real == cell.y as real && e.bottom * ah as real == (cell.y + cell.h) as real
  {
  }

  /** A glyph to bake: its coverage raster in rows, and the distance field of its padded cell. */
  datatype GlyphCoverage = GlyphCoverage(key: Key, coverage: seq<nat>, width: nat, height: nat,
                                         bearingX: real, bearingY: real, oversample: real, field: Field)

  /** Three channels from the outline, or the one channel from the coverage. */
  datatype Field = Multi(rgb: seq<seq<(nat, nat, nat)>>) | Single(values: seq<seq<nat>>)

  function Median3(r: nat, g: nat, b: nat): nat { Min(Max(r, g), Max(b, Min(r, g))) }

  /** The median is one of the three, with one no greater and one no smaller beside it. */
  lemma Median3Is(r: nat, g: nat, b: nat)
    ensures multiset{Median3(r, g, b), Min(r, Min(g, b)), Max(r, Max(g, b))} == multiset{r, g, b}
  {
  }

  lemma MedianFits()
    ensures forall r: nat, g: nat, b: nat ::
              multiset{Median3(r, g, b), Min(r, Min(g, b)), Max(r, Max(g, b))} == multiset{r, g, b}
  {
    forall r: nat, g: nat, b: nat
      ensures multiset{Median3(r, g, b), Min(r, Min(g, b)), Max(r, Max(g, b))} == multiset{r, g, b}
    {
      Median3Is(r, g, b);
    }
  }

  predicate FieldShaped(f: Field, w: nat, h: nat) {
    match f
    case Multi(rgb) => Shaped(rgb, w, h)
    case Single(values) => Shaped(values, w, h)
  }

  function FieldTexels(f: Field, w: nat, h: nat): (t: seq<seq<Texel>>)
    requires FieldShaped(f, w, h)
    ensures Shaped(t, w, h)
    ensures f.Multi? ==> forall row, col :: 0 <= row < h && 0 <= col < w ==>
      var (c, u) := (f.rgb[row][col], t[row][col]);
      (u.r, u.g, u.b) == c && multiset{u.a, Min(u.r, Min(u.g, u.b)), Max(u.r, Max(u.g, u.b))} == multiset{u.r, u.g, u.b}
    ensures f.Single? ==> forall row, col :: 0 <= row < h && 0 <= col < w ==>
      var v := f.values[row][col];
      t[row][col] == Texel(v, v, v, v)
  {
    MedianFits();
    match f
    case Multi(rgb) =>
      seq(h, row requires 0 <= row < h => seq(w, col requires 0 <= col < w =>
        var c := rgb[row][col];
        Texel(c.0, c.1, c.2, Median3(c.0, c.1, c.2))))
    case Single(values) =>
      seq(h, row requires 0 <= row < h => seq(w, col requires 0 <= col < w => Gray(values[row][col])))
  }

  /** The coverage raster as texels: alpha in all four channels. */
  function CoverageTexels(coverage: seq<nat>, w: nat, h: nat): (t: seq<seq<Texel>>)
    requires |coverage| >= w * h
    ensures Shaped(t, w, h)
    ensures forall row, col :: 0 <= row < h && 0 <= col < w ==>
      Index(w, row, col) < |coverage| && t[row][col] == Gray(coverage[Index(w, row, col)])
  {
    assert forall row: nat, col: nat :: row < h && col < w ==> Index(w, row, col) < |coverage| by {
      forall row: nat, col: nat | row < h && col < w ensures Index(w, row, col) < |coverage| {
        IndexInBounds(w, h, row, col);
      }
    }
    seq(h, row requires 0 <= row < h => seq(w, col requires 0 <= col < w => Gray(coverage[Index(w, row, col)])))
  }

  /** No slot's cell covers the texel. */
  ghost predicate Uncovered(slots: map<Key, Slot>, y: nat, x: nat) {
    forall k :: k in slots ==> !Within(slots[k].cell, y, x)
  }

  /** Every texel outside the cells is as the atlas started, so sampling at a cell's border meets nothing of a
      neighbour. */
  ghost predicate ClearAround(pixels: seq<Texel>, aw: nat, slots: map<Key, Slot>) {
    forall y: nat, x: nat :: x < aw && Uncovered(slots, y, x) ==> At(pixels, aw, y, x) == CLEAR
  }

  lemma StaysClear(a: seq<Texel>, b: seq<Texel>, aw: nat, slots: map<Key, Slot>, key: Key, slot: Slot)
    requires key !in slots && ClearAround(a, aw, slots) && SameOutside(a, b, aw, slot.cell)
    ensures ClearAround(b, aw, slots[key := slot])
  {
    var more := slots[key := slot];
    forall y: nat, x: nat | x < aw && Uncovered(more, y, x) ensures At(b, aw, y, x) == CLEAR {
      assert key in more && more[key] == slot;
      forall k | k in slots ensures !Within(slots[k].cell, y, x) { assert k in more && more[k] == slots[k]; }
      assert Uncovered(slots, y, x);
    }
  }

  class MsdfAtlas {
    const width: nat
    const height: nat
    /** `ceil(distance_range)`, at least one. */
    const pad: nat
    const pixels: array<Texel>
    var entries: map<Key, Entry>
    var cursor: Cursor
    /** The cell and texels of every generated non-empty glyph. */
    ghost var slots: map<Key, Slot>

    ghost predicate Valid()
      reads this, pixels
    {
      && width >= 4 && height >= 4 && pad >= 1 && pixels.Length == height * width && cursor.x >= 1 && cursor.y >= 1
      && (forall k :: k in slots ==> SlotOk(k))
      && (forall k, l :: k in slots && l in slots && k != l ==> Apart(slots[k].cell, slots[l].cell))
    }

    ghost predicate SlotOk(k: Key)
      requires k in slots && width > 0 && height > 0
      reads this, pixels
    {
      && k in entries && Frames(entries[k], width, height, slots[k].cell)
      && InAtlas(slots[k].cell, width, height) && Shelved(slots[k].cell, cursor)
      && Shows(pixels[..], width, slots[k].cell, slots[k].texels)
    }

    constructor (atlasWidth: nat, atlasHeight: nat, pad: nat)
      requires pad >= 1
      ensures Valid() && slots == map[] && entries == map[] && fresh(pixels)
      ensures width == Max(atlasWidth, 4) && height == Max(atlasHeight, 4) && this.pad == pad
      ensures ClearAround(pixels[..], width, slots) && forall i :: 0 <= i < pixels.Length ==> pixels[i] == CLEAR
    {
      var w: nat, h: nat := Max(atlasWidth, 4), Max(atlasHeight, 4);
      width, height, this.pad := w, h, pad;
      pixels := new Texel[h * w](i => CLEAR);
      entries, slots, cursor := map[], map[], Cursor(1, 1, 0);
    }

    method AllocateCell(w: nat, h: nat) returns (cell: Option<Rect>)
      requires Valid()
      modifies this`cursor
      ensures Valid() && (cursor, cell) == Allocate(old(cursor), width, height, w, h)
      ensures cell.Some? ==>
                cell.value.w == w && cell.value.h == h && InAtlas(cell.value, width, height)
                && Shelved(cell.value, cursor)
      ensures cell.Some? ==> forall k :: k in slots ==> Apart(slots[k].cell, cell.value)
    {
      hide Frames, Shows;
      AllocateKeeps(cursor, width, height, w, h, Rect(0, 0, 0, 0));
      ghost var (after, given) := Allocate(cursor, width, height, w, h);
      forall k | k in slots
        ensures SlotOk(k) && Shelved(slots[k].cell, after) && (given.Some? ==> Apart(slots[k].cell, given.value))
      {
        assert SlotOk(k);
        AllocateKeeps(cursor, width, height, w, h, slots[k].cell);
      }
      hide Shelved, Apart, InAtlas;
      if w >= width || h >= height {
        return None;
      }
      if cursor.x + w >= width {
        cursor := Cursor(1, cursor.y + cursor.row + 1, 0);
      }
      if cursor.y + h >= height {
        cell := None;
      } else {
        cell := Some(Rect(cursor.x, cursor.y, w, h));
        cursor := Cursor(cursor.x + w + 1, cursor.y, Max(cursor.row, h));
      }
      assert cursor == after;
      forall k | k in slots ensures SlotOk(k) { assert old(SlotOk(k)); }
    }

    /** Writes the texels into their cell and registers the entry. */
    method Finalize(key: Key, cell: Rect, ghost texels: seq<seq<Texel>>, entry: Entry)
      requires Valid() && key !in slots && InAtlas(cell, width, height) && Shelved(cell, cursor)
      requires forall k :: k in slots ==> Apart(slots[k].cell, cell)
      requires Shows(pixels[..], width, cell, texels) && Frames(entry, width, height, cell)
      modifies this`entries, this`slots
      ensures Valid() && entries == old(entries)[key := entry] && slots == old(slots)[key := Slot(cell, texels)]
    {
      hide Frames, Shows, Shelved, InAtlas;
      forall k | k in slots ensures SlotOk(k) && Apart(cell, slots[k].cell) { ApartTurns(slots[k].cell, cell); }
      entries, slots := entries[key := entry], slots[key := Slot(cell, texels)];
      assert SlotOk(key);
    }

    /** Packs one glyph: allocate, write, register. A refusal leaves texels and entries alone. */
    method Pack(key: Key, w: nat, h: nat, texels: seq<seq<Texel>>, bearingX: real, bearingY: real, oversample: real,
                coverage: bool) returns (entry: Option<Entry>)
      requires Valid() && key !in slots && Shaped(texels, w, h)
      modifies this, pixels
      ensures Valid()
      ensures var (after, cell) := Allocate(old(cursor), width, height, w, h);
              && cursor == after && (entry.Some? <==> cell.Some?)
              && (cell.Some? ==> slots == old(slots)[key := Slot(cell.value, texels)]
                                 && entry.value
                                      == UvEntry(width, height, cell.value, bearingX, bearingY, oversample, coverage)
                                 && entries == old(entries)[key := entry.value])
      ensures entry.None? ==> slots == old(slots) && entries == old(entries) && pixels[..] == old(pixels[..])
      ensures old(ClearAround(pixels[..], width, slots)) ==> ClearAround(pixels[..], width, slots)
    {
      hide SameOutside, Shows, Uncovered;
      var cell := AllocateCell(w, h);
      if cell.None? {
        return None;
      }
      ghost var before := pixels[..];
      WriteCell(cell.value, texels);
      var e := UvEntry(width, height, cell.value, bearingX, bearingY, oversample, coverage);
      UvFrames(width, height, cell.value, bearingX, bearingY, oversample, coverage);
      if ClearAround(before, width, slots) {
        StaysClear(before, pixels[..], width, slots, key, Slot(cell.value, texels));
      }
      Finalize(key, cell.value, texels, e);
      entry := Some(e);
    }

    method WriteCell(cell: Rect, texels: seq<seq<Texel>>)
      requires Valid()
      requires InAtlas(cell, width, height) && Shaped(texels, cell.w, cell.h)
      requires forall k :: k in slots ==> Apart(slots[k].cell, cell)
      modifies pixels
      ensures Valid() && Shows(pixels[..], width, cell, texels)
      ensures SameOutside(old(pixels[..]), pixels[..], width, cell)
    {
      hide Frames, SameOutside, Shelved, Shows, Shaped, InAtlas;
      ghost var before := pixels[..];
      Blit(pixels, width, height, cell, texels);
      forall k | k in slots ensures SlotOk(k) {
        assert old(SlotOk(k));
        OthersShow(before, pixels[..], width, height, cell, slots[k].cell, slots[k].texels);
      }
    }

    method GenerateCoverageGlyph(g: GlyphCoverage) returns (entry: Option<Entry>)
      requires Valid() && |g.coverage| >= g.width * g.height
      modifies this, pixels
      ensures Valid() && forall k :: k in old(slots) ==> k in slots && slots[k] == old(slots[k])
      ensures forall k :: k in old(entries) ==> k in entries && entries[k] == old(entries[k])
      ensures g.key in old(entries) ==>
        && entry == Some(old(entries[g.key])) && slots == old(slots) && entries == old(entries)
        && cursor == old(cursor) && pixels[..] == old(pixels[..])
      ensures g.key !in old(entries) && (g.width == 0 || g.height == 0 || g.coverage == []) ==>
        && slots == old(slots) && cursor == old(cursor)
        && entry == Some(Entry(0.0, 0.0, 0.0, 0.0, g.bearingX, g.bearingY, 0.0, 0.0, true))
        && entries == old(entries)[g.key := entry.value]
      ensures g.key !in old(entries) && g.width > 0 && g.height > 0 && g.coverage != [] ==>
        var (after, cell) := Allocate(old(cursor), width, height, g.width, g.height);
        && cursor == after && (entry.Some? <==> cell.Some?)
        && (cell.Some? ==>
              && entry.value == UvEntry(width, height, cell.value, g.bearingX, g.bearingY, g.oversample, true)
              && entries == old(entries)[g.key := entry.value]
              && slots == old(slots)[g.key := Slot(cell.value, CoverageTexels(g.coverage, g.width, g.height))])
      ensures entry.None? ==> entries == old(entries) && slots == old(slots) && pixels[..] == old(pixels[..])
      ensures old(ClearAround(pixels[..], width, slots)) ==> ClearAround(pixels[..], width, slots)
    {
      hide ClearAround, Allocate, UvEntry, Frames, Shows, InAtlas, Shelved, Apart;
      SlotsRegistered();
      if g.key in entries {
        return Some(entries[g.key]);
      }
      if g.width == 0 || g.height == 0 || g.coverage == [] {
        var blank := Entry(0.0, 0.0, 0.0, 0.0, g.bearingX, g.bearingY, 0.0, 0.0, true);
        RegisterBlank(g.key, blank);
        return Some(blank);
      }
      entry := Pack(g.key, g.width, g.height, CoverageTexels(g.coverage, g.width, g.height), g.bearingX, g.bearingY,
                    g.oversample, true);
    }

    method GenerateGlyph(g: GlyphCoverage) returns (entry: Option<Entry>)
      requires Valid() && FieldShaped(g.field, g.width + pad * 2, g.height + pad * 2)
      modifies this, pixels
      ensures Valid() && forall k :: k in old(slots) ==> k in slots && slots[k] == old(slots[k])
      ensures forall k :: k in old(entries) ==> k in entries && entries[k] == old(entries[k])
      ensures g.key in old(entries) ==>
        && entry == Some(old(entries[g.key])) && slots == old(slots) && entries == old(entries)
        && cursor == old(cursor) && pixels[..] == old(pixels[..])
      ensures g.key !in old(entries) && (g.width == 0 || g.height == 0 || g.coverage == []) ==>
        && slots == old(slots) && cursor == old(cursor)
        && entry == Some(Entry(0.0, 0.0, 0.0, 0.0, g.bearingX, g.bearingY, 0.0, 0.0, g.key.coverage))
        && entries == old(entries)[g.key := entry.value]
      ensures g.key !in old(entries) && g.width > 0 && g.height > 0 && g.coverage != [] ==>
        var (w, h) := (g.width + pad * 2, g.height + pad * 2);
        var (after, cell) := Allocate(old(cursor), width, height, w, h);
        && cursor == after && (entry.Some? <==> cell.Some?)
        && (cell.Some? ==>
              && entry.value == UvEntry(width, height, cell.value, g.bearingX - pad as real, g.bearingY - pad as real,
                                        g.oversample, false)
              && entries == old(entries)[g.key := entry.value]
              && slots == old(slots)[g.key := Slot(cell.value, FieldTexels(g.field, w, h))])
      ensures entry.None? ==> entries == old(entries) && slots == old(slots) && pixels[..] == old(pixels[..])
      ensures old(ClearAround(pixels[..], width, slots)) ==> ClearAround(pixels[..], width, slots)
    {
      hide ClearAround, Allocate, UvEntry, Frames, Shows, InAtlas, Shelved, Apart;
      SlotsRegistered();
      if g.key in entries {
        return Some(entries[g.key]);
      }
      if g.width == 0 || g.height == 0 || g.coverage == [] {
        var blank := Entry(0.0, 0.0, 0.0, 0.0, g.bearingX, g.bearingY, 0.0, 0.0, g.key.coverage);
        RegisterBlank(g.key, blank);
        return Some(blank);
      }
      var cellW, cellH := g.width + pad * 2, g.height + pad * 2;
      entry := Pack(g.key, cellW, cellH, FieldTexels(g.field, cellW, cellH),
                    g.bearingX - pad as real, g.bearingY - pad as real, g.oversample, false);
    }

    lemma SlotsRegistered()
      requires Valid()
      ensures forall k :: k in slots ==> k in entries
    {
      forall k | k in slots ensures k in entries { assert SlotOk(k); }
    }

    method RegisterBlank(key: Key, entry: Entry)
      requires Valid() && key !in slots
      modifies this`entries
      ensures Valid() && entries == old(entries)[key := entry]
    {
      hide Frames, Shows, Shelved, InAtlas;
      forall k | k in slots ensures SlotOk(k) {}
      entries := entries[key := entry];
    }
  }

  lemma ApartTurns(a: Rect, b: Rect)
    requires Apart(a, b)
    ensures Apart(b, a)
  {
  }
}
