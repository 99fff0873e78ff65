/** The two-sweep dead-reckoning distance transform (crates/renderer-core/src/text_layout.rs).
    Distances are compared squared, and each texel's four values live in one grid cell. */
module DistanceField {
  import opened Sequences

  /** The mask, the sub-texel offset of each texel, and which side is measured. */
  datatype Input = Input(h: nat, w: nat, mask: seq<seq<bool>>, frac: seq<seq<real>>, target: bool)

  predicate Shaped(inp: Input) {
    && |inp.mask| == |inp.frac| == inp.h
    && forall y :: 0 <= y < inp.h ==> |inp.mask[y]| == |inp.frac[y]| == inp.w
  }

  predicate In(inp: Input, y: int, x: int) { 0 <= y < inp.h && 0 <= x < inp.w }

  /** A texel of the opposite side. */
  predicate Feature(inp: Input, y: int, x: int)
    requires Shaped(inp)
  {
    In(inp, y, x) && inp.mask[y][x] != inp.target
  }

  /** Offsets to the nearest known feature, its sub-texel offset, and the squared distance. */
  datatype Cell = Cell(dx: nat, dy: nat, frac: real, dist: nat)

  /** The square of the source's infinity. */
  const UNREACHED: nat := 1000000000000000000

  /** The longest offset a relaxation can start from and stay below that. */
  const REACH: nat := 999999997

  const BLANK: Cell := Cell(0, 0, 0.0, UNREACHED)

  function Abs(a: int): nat { if a < 0 then -a else a }
  function Sq(c: Cell): nat { c.dx * c.dx + c.dy * c.dy }
  function Manhattan(y: int, x: int, fy: int, fx: int): nat { Abs(y - fy) + Abs(x - fx) }
  function Euclid2(y: int, x: int, fy: int, fx: int): nat { Abs(y - fy) * Abs(y - fy) + Abs(x - fx) * Abs(x - fx) }

  /** What offsets are measured from: features, and the corner, whose blank offset is never tested. */
  predicate Source(inp: Input, y: int, x: int)
    requires Shaped(inp)
  {
    In(inp, y, x) && (Feature(inp, y, x) || (y == 0 && x == 0))
  }

  predicate Exact(c: Cell) { c.dist == Sq(c) }

  function SourceFrac(inp: Input, y: int, x: int): real
    requires Shaped(inp) && Source(inp, y, x)
  {
    if Feature(inp, y, x) then inp.frac[y][x] else 0.0
  }

  function Seed(inp: Input, y: int, x: int): Cell
    requires Shaped(inp) && In(inp, y, x)
  {
    if Feature(inp, y, x) then Cell(0, 0, inp.frac[y][x], 0) else BLANK
  }

  /** Relaxing `c` against neighbour `n` at offset `(ox, oy)`. */
  function Relaxed(c: Cell, n: Cell, ox: nat, oy: nat): Cell {
    var cand := (n.dx + ox) * (n.dx + ox) + (n.dy + oy) * (n.dy + oy);
    if cand < c.dist then Cell(n.dx + ox, n.dy + oy, n.frac, cand) else c
  }

  // ---- What a cell knows ----------------------------------------------------

  predicate Reaches(inp: Input, c: Cell, y: int, x: int, fy: int, fx: int)
    requires Shaped(inp)
  {
    Source(inp, fy, fx) && Abs(y - fy) <= c.dy && Abs(x - fx) <= c.dx && c.frac == SourceFrac(inp, fy, fx)
  }

  /** Some source lies within the offset on each axis, and its sub-texel offset is carried. */
  ghost predicate Witnessed(inp: Input, c: Cell, y: int, x: int)
    requires Shaped(inp)
  {
    exists fy: int, fx: int :: Reaches(inp, c, y, x, fy, fx)
  }

  /** The stored distance is that of the offset; only a corner that is no feature may still be blank. */
  predicate Measured(inp: Input, c: Cell, y: int, x: int)
    requires Shaped(inp)
  {
    Exact(c) || (c == BLANK && y == 0 && x == 0 && !Feature(inp, 0, 0))
  }

  /** Diagonal steps of a shortest way in king's moves, and straight ones. */
  function Diagonal(y: int, x: int, fy: int, fx: int): nat {
    if Abs(y - fy) < Abs(x - fx) then Abs(y - fy) else Abs(x - fx)
  }

  function Straight(y: int, x: int, fy: int, fx: int): nat { Abs(Abs(y - fy) - Abs(x - fx)) }

  /** No less than the square root of two. */
  predicate Root2(r: real) { r >= 0.0 && r * r >= 2.0 }

  /** The octile distance: straight steps count one, diagonal ones `r`. */
  function Octile(r: real, y: int, x: int, fy: int, fx: int): real {
    r * Diagonal(y, x, fy, fx) as real + Straight(y, x, fy, fx) as real
  }

  predicate Within(s: nat, b: real) { s as real <= b * b }

  /** No farther than the octile distance, however closely the root of two is approached from above. */
  ghost predicate Near(c: Cell, y: int, x: int, fy: int, fx: int) {
    forall r: real :: Root2(r) ==> Within(Sq(c), Octile(r, y, x, fy, fx))
  }

  /** Above, and no farther to the right than above: what the forward sweep has seen. */
  predicate Behind(y: int, x: int, fy: int, fx: int) { fy <= y && fx - x <= y - fy }

  /** No farther than any source behind. */
  ghost predicate NearBehind(inp: Input, c: Cell, y: int, x: int)
    requires Shaped(inp)
  {
    forall fy: int, fx: int :: Source(inp, fy, fx) && Behind(y, x, fy, fx) ==> Near(c, y, x, fy, fx)
  }

  predicate Binding(inp: Input, y: int, x: int, fy: int, fx: int)
    requires Shaped(inp)
  {
    Source(inp, fy, fx) && (Feature(inp, fy, fx) || y != 0 || x != 0)
  }

  /** No farther than any source at all; the corner is not its own source. */
  ghost predicate NearAll(inp: Input, c: Cell, y: int, x: int)
    requires Shaped(inp)
  {
    forall fy: int, fx: int :: Binding(inp, y, x, fy, fx) ==> Near(c, y, x, fy, fx)
  }

  predicate Small(c: Cell, m: nat) { Sq(c) <= m * m }

  /** Height and width together stay below the source's infinity. */
  predicate InScale(inp: Input) { inp.h + inp.w <= REACH + 2 }

  ghost predicate Known(inp: Input, c: Cell, y: int, x: int)
    requires Shaped(inp)
  {
    Witnessed(inp, c, y, x) && Measured(inp, c, y, x)
  }

  // ---- One relaxation -------------------------------------------------------

  lemma RelaxKnown(inp: Input, c: Cell, y: int, x: int, n: Cell, ny: int, nx: int, ox: nat, oy: nat)
    requires Shaped(inp) && Known(inp, c, y, x) && Known(inp, n, ny, nx)
    requires Abs(y - ny) == oy && Abs(x - nx) == ox
    ensures Known(inp, Relaxed(c, n, ox, oy), y, x)
    ensures Sq(Relaxed(c, n, ox, oy)) <= Sq(c) || c == BLANK
  {
    hide Shaped, Witnessed, Feature, Abs;
    if (n.dx + ox) * (n.dx + ox) + (n.dy + oy) * (n.dy + oy) < c.dist {
      Moved(inp, n, ny, nx, y, x, ox, oy, Relaxed(c, n, ox, oy));
    }
  }

  /** A step away from a witnessed cell has the same witness. */
  lemma Moved(inp: Input, n: Cell, ny: int, nx: int, y: int, x: int, ox: nat, oy: nat, r: Cell)
    requires Shaped(inp) && Witnessed(inp, n, ny, nx) && Abs(y - ny) == oy && Abs(x - nx) == ox
    requires r.dx == n.dx + ox && r.dy == n.dy + oy && r.frac == n.frac
    ensures Witnessed(inp, r, y, x)
  {
    hide Source, SourceFrac, Shaped;
    var fy: int, fx: int :| Reaches(inp, n, ny, nx, fy, fx);
    assert Reaches(inp, r, y, x, fy, fx);
  }

  /** The first relaxation of a blank cell always takes. */
  lemma RelaxBlank(inp: Input, y: int, x: int, n: Cell, ny: int, nx: int, ox: nat, oy: nat)
    requires Shaped(inp) && Known(inp, n, ny, nx) && Small(n, REACH)
    requires Abs(y - ny) == oy <= 1 && Abs(x - nx) == ox <= 1
    ensures Known(inp, Relaxed(BLANK, n, ox, oy), y, x)
    ensures Exact(Relaxed(BLANK, n, ox, oy))
  {
    hide Shaped, Witnessed, Feature, Abs;
    StepBelow(n, ox, oy);
    Moved(inp, n, ny, nx, y, x, ox, oy, Relaxed(BLANK, n, ox, oy));
  }

  /** One more step stays below the source's infinity. */
  lemma StepBelow(n: Cell, ox: nat, oy: nat)
    requires Small(n, REACH) && ox <= 1 && oy <= 1
    ensures (n.dx + ox) * (n.dx + ox) + (n.dy + oy) * (n.dy + oy) < UNREACHED
  {
    RootBound(n.dx, Sq(n), REACH);
    RootBound(n.dy, Sq(n), REACH);
    SquareBound(n.dx + ox, n.dx + 1);
    SquareBound(n.dy + oy, n.dy + 1);
    assert (n.dx + 1) * (n.dx + 1) == n.dx * n.dx + 2 * n.dx + 1;
    assert (n.dy + 1) * (n.dy + 1) == n.dy * n.dy + 2 * n.dy + 1;
  }

  lemma SquareBound(a: nat, b: nat)
    requires a <= b
    ensures a * a <= b * b
  {
  }

  /** Any other cell was blank or known before, and is known after. */
  lemma RelaxAny(inp: Input, c: Cell, y: int, x: int, n: Cell, ny: int, nx: int, ox: nat, oy: nat)
    requires Shaped(inp) && (c == BLANK || Known(inp, c, y, x)) && Known(inp, n, ny, nx) && Small(n, REACH)
    requires Abs(y - ny) == oy <= 1 && Abs(x - nx) == ox <= 1
    ensures Known(inp, Relaxed(c, n, ox, oy), y, x) && Exact(Relaxed(c, n, ox, oy))
  {
    hide Witnessed;
    if c == BLANK {
      RelaxBlank(inp, y, x, n, ny, nx, ox, oy);
    } else {
      RelaxKnown(inp, c, y, x, n, ny, nx, ox, oy);
    }
  }

  lemma Positive(a: real, b: real)
    requires a > 0.0 && b > 0.0
    ensures a * b > 0.0
  {
  }

  /** The octile distance is at most the Manhattan one. */
  lemma NearManhattan(c: Cell, y: int, x: int, fy: int, fx: int)
    requires Near(c, y, x, fy, fx)
    ensures Sq(c) <= Manhattan(y, x, fy, fx) * Manhattan(y, x, fy, fx)
  {
    var m := Manhattan(y, x, fy, fx);
    var b := Octile(1.5, y, x, fy, fx);
    assert Root2(1.5) && Within(Sq(c), b);
    OctileNonNeg(1.5, y, x, fy, fx);
    assert b <= m as real;
    hide Near, Octile, Manhattan, Diagonal, Straight, Sq;
    RealSquares(b, m as real);
  }

  lemma RealSquares(a: real, b: real)
    requires 0.0 <= a <= b
    ensures a * a <= b * b
  {
    assert (b - a) * (b + a) >= 0.0;
    assert (b - a) * (b + a) == b * b - a * a;
  }

  /** What a step adds to the octile distance. */
  function StepLength(r: real, ox: nat, oy: nat): real { if ox == 1 && oy == 1 then r else 1.0 }

  /** One step farther from the source: one straight step more, or one diagonal step more. */
  predicate StepAway(y: int, x: int, ny: int, nx: int, ox: nat, oy: nat, fy: int, fx: int) {
    || (ox + oy == 1 && Straight(y, x, fy, fx) == Straight(ny, nx, fy, fx) + 1
        && Diagonal(y, x, fy, fx) == Diagonal(ny, nx, fy, fx))
    || (ox == 1 && oy == 1 && Diagonal(y, x, fy, fx) == Diagonal(ny, nx, fy, fx) + 1
        && Straight(y, x, fy, fx) == Straight(ny, nx, fy, fx))
  }

  lemma NearAt(c: Cell, y: int, x: int, fy: int, fx: int, r: real)
    requires Near(c, y, x, fy, fx) && Root2(r)
    ensures Within(Sq(c), Octile(r, y, x, fy, fx))
  {
    hide Octile, Within, Sq;
  }

  lemma NearWhen(c: Cell, y: int, x: int, fy: int, fx: int)
    requires forall r: real :: Root2(r) ==> Within(Sq(c), Octile(r, y, x, fy, fx))
    ensures Near(c, y, x, fy, fx)
  {
    hide Octile, Within, Sq;
  }

  lemma WithinLess(s: nat, t: nat, b: real)
    requires s <= t && Within(t, b)
    ensures Within(s, b)
  {
  }

  lemma SqIs(c: Cell)
    ensures Sq(c) == c.dx * c.dx + c.dy * c.dy
  {
  }

  /** A step adds its length to the octile bound. */
  lemma RelaxNear(c: Cell, y: int, x: int, n: Cell, ny: int, nx: int, ox: nat, oy: nat, fy: int, fx: int)
    requires StepAway(y, x, ny, nx, ox, oy, fy, fx) && Near(n, ny, nx, fy, fx)
    requires Exact(Relaxed(c, n, ox, oy))
    ensures Near(Relaxed(c, n, ox, oy), y, x, fy, fx)
  {
    hide *;
    var cand := (n.dx + ox) * (n.dx + ox) + (n.dy + oy) * (n.dy + oy);
    RelaxedAtMost(c, n, ox, oy);
    SqIs(n);
    forall r: real | Root2(r) ensures Within(Sq(Relaxed(c, n, ox, oy)), Octile(r, y, x, fy, fx)) {
      OctileStep(r, y, x, ny, nx, ox, oy, fy, fx);
      OctileNonNeg(r, ny, nx, fy, fx);
      NearAt(n, ny, nx, fy, fx, r);
      StepBound(n.dx, n.dy, ox, oy, r, Octile(r, ny, nx, fy, fx));
      WithinLess(Sq(Relaxed(c, n, ox, oy)), cand, Octile(r, y, x, fy, fx));
    }
    NearWhen(Relaxed(c, n, ox, oy), y, x, fy, fx);
  }

  lemma RelaxedAtMost(c: Cell, n: Cell, ox: nat, oy: nat)
    requires Exact(Relaxed(c, n, ox, oy))
    ensures Sq(Relaxed(c, n, ox, oy)) <= (n.dx + ox) * (n.dx + ox) + (n.dy + oy) * (n.dy + oy)
  {
  }

  lemma OctileStep(r: real, y: int, x: int, ny: int, nx: int, ox: nat, oy: nat, fy: int, fx: int)
    requires StepAway(y, x, ny, nx, ox, oy, fy, fx)
    ensures ox <= 1 && oy <= 1 && ox + oy >= 1
    ensures Octile(r, y, x, fy, fx) == Octile(r, ny, nx, fy, fx) + StepLength(r, ox, oy)
  {
    hide Diagonal, Straight;
    var m := Diagonal(ny, nx, fy, fx) as real;
    assert r * (m + 1.0) == r * m + r;
  }

  lemma OctileNonNeg(r: real, y: int, x: int, fy: int, fx: int)
    requires Root2(r)
    ensures Octile(r, y, x, fy, fx) >= 0.0
  {
    hide Diagonal, Straight;
    assert r * Diagonal(y, x, fy, fx) as real >= 0.0;
  }

  /** The triangle inequality for one step. */
  lemma StepBound(a: nat, b: nat, ox: nat, oy: nat, r: real, m: real)
    requires Root2(r) && m >= 0.0 && Within(a * a + b * b, m) && ox <= 1 && oy <= 1 && ox + oy >= 1
    ensures Within((a + ox) * (a + ox) + (b + oy) * (b + oy), m + StepLength(r, ox, oy))
  {
    if ox == 1 && oy == 1 {
      DiagonalBound(a, b, r, m);
    } else if ox == 1 {
      StraightBound(a, b, m);
    } else {
      StraightBound(b, a, m);
    }
  }

  lemma StraightBound(a: nat, b: nat, m: real)
    requires m >= 0.0 && Within(a * a + b * b, m)
    ensures Within((a + 1) * (a + 1) + b * b, m + 1.0)
  {
    assert (a * a) as real == a as real * a as real;
    RealRoot(a as real, m);
    assert (a + 1) * (a + 1) == a * a + 2 * a + 1;
    assert (m + 1.0) * (m + 1.0) == m * m + 2.0 * m + 1.0;
  }

  function Squared(a: real): real { a * a }

  lemma DiagonalBound(a: nat, b: nat, r: real, m: real)
    requires Root2(r) && m >= 0.0 && Within(a * a + b * b, m)
    ensures Within((a + 1) * (a + 1) + (b + 1) * (b + 1), m + r)
  {
    var u, v := a as real, b as real;
    WithinSquared(a * a + b * b, m);
    WithinSquared((a + 1) * (a + 1) + (b + 1) * (b + 1), m + r);
    Root2Squared(r);
    NextSquare(a);
    NextSquare(b);
    SumOfRoots(u, v, r, m);
    SquaredSum(m, r);
    hide Within, Root2, Squared;
  }

  lemma WithinSquared(s: nat, b: real)
    ensures Within(s, b) <==> s as real <= Squared(b)
  {
  }

  lemma Root2Squared(r: real)
    ensures Root2(r) <==> r >= 0.0 && Squared(r) >= 2.0
  {
  }

  lemma NextSquare(a: nat)
    ensures (a * a) as real == Squared(a as real)
    ensures ((a + 1) * (a + 1)) as real == Squared(a as real) + 2.0 * a as real + 1.0
  {
    assert (a + 1) * (a + 1) == a * a + 2 * a + 1;
  }

  lemma SquaredSum(m: real, r: real)
    ensures Squared(m + r) == Squared(m) + 2.0 * (r * m) + Squared(r)
  {
  }

  lemma SquaredProduct(r: real, m: real)
    ensures Squared(r * m) == Squared(r) * Squared(m)
  {
    assert (r * m) * (r * m) == (r * r) * (m * m);
  }

  lemma SquaredSumAtMost(u: real, v: real)
    ensures Squared(u + v) <= 2.0 * (Squared(u) + Squared(v))
  {
    SquareOfSum(u, v);
  }

  lemma SquaredRoot(a: real, m: real)
    requires m >= 0.0 && Squared(a) <= Squared(m)
    ensures a <= m
  {
    RealRoot(a, m);
  }

  lemma SquaredNonNeg(a: real)
    ensures Squared(a) >= 0.0
  {
  }

  /** Two sides of a right angle sum to at most the root of two times the third. */
  lemma SumOfRoots(u: real, v: real, r: real, m: real)
    requires r >= 0.0 && Squared(r) >= 2.0 && m >= 0.0 && Squared(u) + Squared(v) <= Squared(m)
    ensures u + v <= r * m
  {
    SquaredSumAtMost(u, v);
    SquaredProduct(r, m);
    SquaredNonNeg(m);
    TimesMono(Squared(r), 2.0, Squared(m));
    NonNegProduct(r, m);
    hide Squared;
    SquaredRoot(u + v, r * m);
  }

  lemma NonNegProduct(a: real, b: real)
    requires a >= 0.0 && b >= 0.0
    ensures a * b >= 0.0
  {
  }

  lemma SquareOfSum(u: real, v: real)
    ensures (u + v) * (u + v) <= 2.0 * (u * u + v * v)
  {
    assert (u - v) * (u - v) >= 0.0;
    assert (u + v) * (u + v) + (u - v) * (u - v) == 2.0 * (u * u + v * v);
  }

  lemma TimesMono(a: real, b: real, q: real)
    requires a >= b && q >= 0.0
    ensures a * q >= b * q
  {
    assert (a - b) * q >= 0.0;
  }

  lemma RealRoot(a: real, m: real)
    requires m >= 0.0 && a * a <= m * m
    ensures a <= m
  {
    if a > m { SquaresRise(m, a); }
  }

  lemma SquaresRise(a: real, b: real)
    requires 0.0 <= a < b
    ensures a * a < b * b
  {
    Positive(b - a, b + a);
    SquaresDiffer(b, a);
  }

  lemma SquaresDiffer(a: real, b: real)
    ensures a * a - b * b == (a - b) * (a + b)
  {
  }

  lemma RootBound(a: nat, s: nat, m: nat)
    requires a * a <= s <= m * m
    ensures a <= m
  {
    if a > m { SquareBound(m + 1, a); }
  }

  ghost predicate Seen(inp: Input, c: Cell, y: int, x: int)
    requires Shaped(inp)
  {
    c == BLANK || (Known(inp, c, y, x) && Exact(c))
  }

  function RelaxIf(b: bool, c: Cell, n: Cell, ox: nat, oy: nat): Cell { if b then Relaxed(c, n, ox, oy) else c }

  /** A neighbour fit to relax against. */
  ghost predicate Fit(inp: Input, n: Cell, y: int, x: int, ny: int, nx: int, ox: nat, oy: nat)
    requires Shaped(inp)
  {
    Known(inp, n, ny, nx) && Small(n, REACH) && Abs(y - ny) == oy <= 1 && Abs(x - nx) == ox <= 1
  }

  lemma RelaxIfSeen(inp: Input, b: bool, c: Cell, y: int, x: int, n: Cell, ny: int, nx: int, ox: nat, oy: nat)
    requires Shaped(inp) && Seen(inp, c, y, x) && (b ==> Fit(inp, n, y, x, ny, nx, ox, oy))
    ensures Seen(inp, RelaxIf(b, c, n, ox, oy), y, x)
    ensures b || c != BLANK ==> RelaxIf(b, c, n, ox, oy) != BLANK
    ensures c != BLANK ==> Sq(RelaxIf(b, c, n, ox, oy)) <= Sq(c)
  {
    if b {
      RelaxAny(inp, c, y, x, n, ny, nx, ox, oy);
      NotBlank(Relaxed(c, n, ox, oy));
    }
    hide Known;
  }

  lemma NotBlank(c: Cell)
    requires Exact(c)
    ensures c != BLANK
  {
  }

  lemma NearMono(c: Cell, r: Cell, y: int, x: int, fy: int, fx: int)
    requires Near(c, y, x, fy, fx) && Sq(r) <= Sq(c)
    ensures Near(r, y, x, fy, fx)
  {
  }

  // ---- One texel of each sweep ----------------------------------------------

  ghost predicate AfterForward(inp: Input, c: Cell, y: int, x: int)
    requires Shaped(inp)
  {
    Known(inp, c, y, x) && NearBehind(inp, c, y, x) && (In(inp, 0, 0) && y == 0 && x == 0 ==> c == Seed(inp, 0, 0))
  }

  ghost predicate AfterBoth(inp: Input, c: Cell, y: int, x: int)
    requires Shaped(inp)
  {
    Known(inp, c, y, x) && NearAll(inp, c, y, x) && CornerHonest(inp, c, y, x)
  }

  /** `c` is not below the true distance to the nearest feature. */
  ghost predicate Honest(inp: Input, c: Cell, y: int, x: int)
    requires Shaped(inp)
  {
    exists fy: int, fx: int :: FeatureWithin(inp, y, x, fy, fx, c.dist)
  }

  predicate FeatureWithin(inp: Input, y: int, x: int, fy: int, fx: int, d: nat)
    requires Shaped(inp)
  {
    Feature(inp, fy, fx) && Euclid2(y, x, fy, fx) <= d
  }

  /** A corner that is no feature reads at least two steps, or the truth. */
  ghost predicate CornerHonest(inp: Input, c: Cell, y: int, x: int)
    requires Shaped(inp)
  {
    y == 0 && x == 0 && !Feature(inp, 0, 0) ==> c.dist >= 4 || Honest(inp, c, 0, 0)
  }

  lemma NearZero(c: Cell, y: int, x: int, fy: int, fx: int)
    requires Sq(c) == 0
    ensures Near(c, y, x, fy, fx)
  {
    hide Octile, Sq;
    forall r: real | Root2(r) ensures Within(0, Octile(r, y, x, fy, fx)) { SquareNonNeg(Octile(r, y, x, fy, fx)); }
  }

  lemma SquareNonNeg(b: real)
    ensures b * b >= 0.0
  {
  }

  lemma SeedKnown(inp: Input, y: int, x: int)
    requires Shaped(inp) && In(inp, y, x)
    ensures Source(inp, y, x) ==> Known(inp, Seed(inp, y, x), y, x)
    ensures Sq(Seed(inp, y, x)) == 0
    ensures Feature(inp, y, x) ==> Seed(inp, y, x) != BLANK && Exact(Seed(inp, y, x))
    ensures !Feature(inp, y, x) ==> Seed(inp, y, x) == BLANK
  {
    if Source(inp, y, x) { assert Reaches(inp, Seed(inp, y, x), y, x, y, x); }
  }

  lemma AfterForwardWhen(inp: Input, c: Cell, y: int, x: int)
    requires Shaped(inp) && Known(inp, c, y, x) && forall fy: int, fx: int :: Near(c, y, x, fy, fx)
    requires In(inp, 0, 0) && y == 0 && x == 0 ==> c == Seed(inp, 0, 0)
    ensures AfterForward(inp, c, y, x)
  {
    hide Known, Near, Seed;
  }

  lemma SourceIs(inp: Input, y: int, x: int)
    requires Shaped(inp)
    ensures Source(inp, y, x) <==> In(inp, y, x) && (Feature(inp, y, x) || (y == 0 && x == 0))
  {
  }

  lemma SeenIs(inp: Input, c: Cell, y: int, x: int)
    requires Shaped(inp)
    ensures Seen(inp, c, y, x) <==> c == BLANK || (Known(inp, c, y, x) && Exact(c))
  {
  }

  lemma SeedSeen(inp: Input, y: int, x: int)
    requires Shaped(inp) && In(inp, y, x)
    ensures Seen(inp, Seed(inp, y, x), y, x)
    ensures Feature(inp, y, x) || (y == 0 && x == 0) ==> AfterForward(inp, Seed(inp, y, x), y, x)
    ensures Feature(inp, y, x) ==> Seed(inp, y, x) != BLANK && Sq(Seed(inp, y, x)) == 0
  {
    hide *;
    SeedKnown(inp, y, x);
    SourceIs(inp, y, x);
    SeenIs(inp, Seed(inp, y, x), y, x);
    if Source(inp, y, x) {
      forall fy: int, fx: int ensures Near(Seed(inp, y, x), y, x, fy, fx) { NearZero(Seed(inp, y, x), y, x, fy, fx); }
      AfterForwardWhen(inp, Seed(inp, y, x), y, x);
    }
  }

  /** West, north, north-west, north-east: what the forward sweep makes of one texel. */
  function Forward(c: Cell, y: nat, x: nat, w: nat, west: Cell, north: Cell, northWest: Cell, northEast: Cell): Cell {
    var c1 := RelaxIf(x > 0, c, west, 1, 0);
    var c2 := RelaxIf(y > 0, c1, north, 0, 1);
    var c3 := RelaxIf(y > 0 && x > 0, c2, northWest, 1, 1);
    RelaxIf(y > 0 && x + 1 < w, c3, northEast, 1, 1)
  }

  lemma ForwardStep(inp: Input, y: nat, x: nat, west: Cell, north: Cell, northWest: Cell, northEast: Cell)
    requires Shaped(inp) && In(inp, y, x)
    requires x > 0 ==> AfterForward(inp, west, y, x - 1) && Small(west, REACH)
    requires y > 0 ==> AfterForward(inp, north, y - 1, x) && Small(north, REACH)
    requires y > 0 && x > 0 ==> AfterForward(inp, northWest, y - 1, x - 1) && Small(northWest, REACH)
    requires y > 0 && x + 1 < inp.w ==> AfterForward(inp, northEast, y - 1, x + 1) && Small(northEast, REACH)
    ensures AfterForward(inp, Forward(Seed(inp, y, x), y, x, inp.w, west, north, northWest, northEast), y, x)
  {
    hide Known, Small, Near, Relaxed, Seed, Sq, Measured, RelaxIf, Behind, StepAway;
    var c := Seed(inp, y, x);
    SeedSeen(inp, y, x);
    var c1 := RelaxIf(x > 0, c, west, 1, 0);
    RelaxIfSeen(inp, x > 0, c, y, x, west, y, x - 1, 1, 0);
    var c2 := RelaxIf(y > 0, c1, north, 0, 1);
    RelaxIfSeen(inp, y > 0, c1, y, x, north, y - 1, x, 0, 1);
    var c3 := RelaxIf(y > 0 && x > 0, c2, northWest, 1, 1);
    RelaxIfSeen(inp, y > 0 && x > 0, c2, y, x, northWest, y - 1, x - 1, 1, 1);
    var c4 := RelaxIf(y > 0 && x + 1 < inp.w, c3, northEast, 1, 1);
    RelaxIfSeen(inp, y > 0 && x + 1 < inp.w, c3, y, x, northEast, y - 1, x + 1, 1, 1);
    if y == 0 && x == 0 {
      NoRelax(c, west, 1, 0); NoRelax(c, north, 0, 1); NoRelax(c, northWest, 1, 1); NoRelax(c, northEast, 1, 1);
    } else {
      forall fy: int, fx: int | Source(inp, fy, fx) && Behind(y, x, fy, fx) ensures Near(c4, y, x, fy, fx) {
        SourceIn(inp, fy, fx);
        BackStep(y, x, fy, fx);
        if fy == y && fx < x {
          NearStep(c, y, x, west, y, x - 1, 1, 0, fy, fx);
          NearMono(c1, c4, y, x, fy, fx);
        } else if fy < y && fx == x {
          NearStep(c1, y, x, north, y - 1, x, 0, 1, fy, fx);
          NearMono(c2, c4, y, x, fy, fx);
        } else if fy < y && fx < x {
          NearStep(c2, y, x, northWest, y - 1, x - 1, 1, 1, fy, fx);
          NearMono(c3, c4, y, x, fy, fx);
        } else if fy < y {
          NearStep(c3, y, x, northEast, y - 1, x + 1, 1, 1, fy, fx);
        } else {
          NearSelf(c4, y, x);
        }
      }
    }
  }

  /** Which neighbour a source behind is seen through. */
  lemma BackStep(y: int, x: int, fy: int, fx: int)
    requires Behind(y, x, fy, fx)
    ensures fy == y && fx < x ==> StepAway(y, x, y, x - 1, 1, 0, fy, fx) && Behind(y, x - 1, fy, fx)
    ensures fy < y && fx == x ==> StepAway(y, x, y - 1, x, 0, 1, fy, fx) && Behind(y - 1, x, fy, fx)
    ensures fy < y && fx < x ==> StepAway(y, x, y - 1, x - 1, 1, 1, fy, fx) && Behind(y - 1, x - 1, fy, fx)
    ensures fy < y && fx > x ==> StepAway(y, x, y - 1, x + 1, 1, 1, fy, fx) && Behind(y - 1, x + 1, fy, fx)
    ensures fy <= y && (fy == y ==> fx <= x)
  {
  }

  /** And one that is not. */
  lemma AheadStep(y: int, x: int, fy: int, fx: int)
    requires !Behind(y, x, fy, fx)
    ensures fy <= y ==> fx > x && StepAway(y, x, y, x + 1, 1, 0, fy, fx)
    ensures fy > y && fx == x ==> StepAway(y, x, y + 1, x, 0, 1, fy, fx)
    ensures fy > y && fx > x ==> StepAway(y, x, y + 1, x + 1, 1, 1, fy, fx)
    ensures fy > y && fx < x ==> StepAway(y, x, y + 1, x - 1, 1, 1, fy, fx)
  {
  }

  lemma NoRelax(c: Cell, n: Cell, ox: nat, oy: nat)
    ensures RelaxIf(false, c, n, ox, oy) == c
  {
  }

  lemma NearSelf(c: Cell, y: int, x: int)
    requires Sq(c) == 0
    ensures Near(c, y, x, y, x)
  {
  }

  /** A step away from the source keeps the octile bound. */
  lemma NearStep(c: Cell, y: int, x: int, n: Cell, ny: int, nx: int, ox: nat, oy: nat, fy: int, fx: int)
    requires StepAway(y, x, ny, nx, ox, oy, fy, fx) && Near(n, ny, nx, fy, fx)
    requires Exact(RelaxIf(true, c, n, ox, oy))
    ensures Near(RelaxIf(true, c, n, ox, oy), y, x, fy, fx)
  {
    hide Near, StepAway;
    RelaxNear(c, y, x, n, ny, nx, ox, oy, fy, fx);
  }

  /** East, south, south-east, south-west. */
  function Backward(c: Cell, y: nat, x: nat, h: nat, w: nat, east: Cell, south: Cell, southEast: Cell,
                    southWest: Cell): Cell {
    var c1 := RelaxIf(x + 1 < w, c, east, 1, 0);
    var c2 := RelaxIf(y + 1 < h, c1, south, 0, 1);
    var c3 := RelaxIf(y + 1 < h && x + 1 < w, c2, southEast, 1, 1);
    RelaxIf(y + 1 < h && x > 0, c3, southWest, 1, 1)
  }

  lemma BackwardStep(inp: Input, c: Cell, y: nat, x: nat, east: Cell, south: Cell, southEast: Cell, southWest: Cell)
    requires Shaped(inp) && In(inp, y, x) && AfterForward(inp, c, y, x)
    requires x + 1 < inp.w ==> AfterBoth(inp, east, y, x + 1) && Small(east, REACH)
    requires y + 1 < inp.h ==> AfterBoth(inp, south, y + 1, x) && Small(south, REACH)
    requires y + 1 < inp.h && x + 1 < inp.w ==> AfterBoth(inp, southEast, y + 1, x + 1) && Small(southEast, REACH)
    requires y + 1 < inp.h && x > 0 ==> AfterBoth(inp, southWest, y + 1, x - 1) && Small(southWest, REACH)
    ensures Known(inp, Backward(c, y, x, inp.h, inp.w, east, south, southEast, southWest), y, x)
    ensures NearAll(inp, Backward(c, y, x, inp.h, inp.w, east, south, southEast, southWest), y, x)
  {
    KnownSeen(inp, c, y, x);
    hide Known, Small, Near, Relaxed, Sq, Measured, RelaxIf, Binding, CornerHonest, NearAll, NearBehind, Seen, Feature,
      Behind, StepAway;
    var c1 := RelaxIf(x + 1 < inp.w, c, east, 1, 0);
    RelaxIfSeen(inp, x + 1 < inp.w, c, y, x, east, y, x + 1, 1, 0);
    var c2 := RelaxIf(y + 1 < inp.h, c1, south, 0, 1);
    RelaxIfSeen(inp, y + 1 < inp.h, c1, y, x, south, y + 1, x, 0, 1);
    var c3 := RelaxIf(y + 1 < inp.h && x + 1 < inp.w, c2, southEast, 1, 1);
    RelaxIfSeen(inp, y + 1 < inp.h && x + 1 < inp.w, c2, y, x, southEast, y + 1, x + 1, 1, 1);
    var c4 := RelaxIf(y + 1 < inp.h && x > 0, c3, southWest, 1, 1);
    RelaxIfSeen(inp, y + 1 < inp.h && x > 0, c3, y, x, southWest, y + 1, x - 1, 1, 1);
    forall fy: int, fx: int | Binding(inp, y, x, fy, fx) ensures Near(c4, y, x, fy, fx) {
      BindingIn(inp, y, x, fy, fx);
      if Behind(y, x, fy, fx) {
        CornerSet(inp, c, y, x, fy, fx);
        NearMono(c, c4, y, x, fy, fx);
      } else {
        AheadStep(y, x, fy, fx);
        if fy <= y {
          FromLater(inp, east, y, x, y, x + 1, fy, fx);
          SeenExact(inp, c1, y, x);
          NearStep(c, y, x, east, y, x + 1, 1, 0, fy, fx);
          NearMono(c1, c4, y, x, fy, fx);
        } else if fx == x {
          FromLater(inp, south, y, x, y + 1, x, fy, fx);
          SeenExact(inp, c2, y, x);
          NearStep(c1, y, x, south, y + 1, x, 0, 1, fy, fx);
          NearMono(c2, c4, y, x, fy, fx);
        } else if fx > x {
          FromLater(inp, southEast, y, x, y + 1, x + 1, fy, fx);
          SeenExact(inp, c3, y, x);
          NearStep(c2, y, x, southEast, y + 1, x + 1, 1, 1, fy, fx);
          NearMono(c3, c4, y, x, fy, fx);
        } else {
          FromLater(inp, southWest, y, x, y + 1, x - 1, fy, fx);
          SeenExact(inp, c4, y, x);
          NearStep(c3, y, x, southWest, y + 1, x - 1, 1, 1, fy, fx);
        }
      }
    }
    SeenKnown(inp, c, c4, y, x);
    NearAllIs(inp, c4, y, x);
  }

  lemma BackwardDone(inp: Input, c: Cell, y: nat, x: nat, east: Cell, south: Cell, southEast: Cell, southWest: Cell)
    requires Shaped(inp) && In(inp, y, x) && AfterForward(inp, c, y, x)
    requires x + 1 < inp.w ==> AfterBoth(inp, east, y, x + 1) && Small(east, REACH)
    requires y + 1 < inp.h ==> AfterBoth(inp, south, y + 1, x) && Small(south, REACH)
    requires y + 1 < inp.h && x + 1 < inp.w ==> AfterBoth(inp, southEast, y + 1, x + 1) && Small(southEast, REACH)
    requires y + 1 < inp.h && x > 0 ==> AfterBoth(inp, southWest, y + 1, x - 1) && Small(southWest, REACH)
    ensures AfterBoth(inp, Backward(c, y, x, inp.h, inp.w, east, south, southEast, southWest), y, x)
  {
    BackwardStep(inp, c, y, x, east, south, southEast, southWest);
    if y == 0 && x == 0 { BackwardCorner(inp, c, east, south, southEast, southWest); }
    hide Known, NearAll, Backward, Feature, Small, Honest;
  }

  /** One relaxation of the corner. */
  lemma RelaxCorner(inp: Input, b: bool, c: Cell, n: Cell, ox: nat, oy: nat)
    requires Shaped(inp) && !Feature(inp, 0, 0) && CornerHonest(inp, c, 0, 0)
    requires ox <= 1 && oy <= 1 && ox + oy >= 1 && (b ==> Known(inp, n, oy, ox))
    ensures CornerHonest(inp, RelaxIf(b, c, n, ox, oy), 0, 0)
  {
    if b && Relaxed(c, n, ox, oy) != c {
      var sy: int, sx: int :| Reaches(inp, n, oy, ox, sy, sx);
      hide Shaped, Feature, SourceFrac, Known;
      SourceIn(inp, sy, sx);
      SquareBound(sy, n.dy + oy);
      SquareBound(sx, n.dx + ox);
      if n.dx + ox >= 2 { SquareBound(2, n.dx + ox); }
      if n.dy + oy >= 2 { SquareBound(2, n.dy + oy); }
      if sy != 0 || sx != 0 { assert FeatureWithin(inp, 0, 0, sy, sx, Relaxed(c, n, ox, oy).dist); }
    }
  }

  lemma SourceIn(inp: Input, y: int, x: int)
    requires Shaped(inp) && Source(inp, y, x)
    ensures In(inp, y, x) && (y != 0 || x != 0 ==> Feature(inp, y, x))
  {
  }

  lemma FeatureCorner(inp: Input, c: Cell)
    requires Shaped(inp) && Feature(inp, 0, 0)
    ensures CornerHonest(inp, c, 0, 0)
  {
  }

  lemma BackwardIs(c: Cell, y: nat, x: nat, h: nat, w: nat, east: Cell, south: Cell, southEast: Cell, southWest: Cell)
    ensures var c1 := RelaxIf(x + 1 < w, c, east, 1, 0);
            var c2 := RelaxIf(y + 1 < h, c1, south, 0, 1);
            var c3 := RelaxIf(y + 1 < h && x + 1 < w, c2, southEast, 1, 1);
            Backward(c, y, x, h, w, east, south, southEast, southWest)
              == RelaxIf(y + 1 < h && x > 0, c3, southWest, 1, 1)
  {
  }

  lemma CornerBlank(inp: Input, c: Cell)
    requires Shaped(inp) && In(inp, 0, 0) && AfterForward(inp, c, 0, 0) && !Feature(inp, 0, 0)
    ensures CornerHonest(inp, c, 0, 0)
  {
    hide Known;
  }

  lemma BackwardCorner(inp: Input, c: Cell, east: Cell, south: Cell, southEast: Cell, southWest: Cell)
    requires Shaped(inp) && In(inp, 0, 0) && AfterForward(inp, c, 0, 0)
    requires 1 < inp.w ==> Known(inp, east, 0, 1)
    requires 1 < inp.h ==> Known(inp, south, 1, 0)
    requires 1 < inp.h && 1 < inp.w ==> Known(inp, southEast, 1, 1)
    ensures CornerHonest(inp, Backward(c, 0, 0, inp.h, inp.w, east, south, southEast, southWest), 0, 0)
  {
    hide *;
    if Feature(inp, 0, 0) {
      FeatureCorner(inp, Backward(c, 0, 0, inp.h, inp.w, east, south, southEast, southWest));
    } else {
      CornerBlank(inp, c);
      BackwardIs(c, 0, 0, inp.h, inp.w, east, south, southEast, southWest);
      RelaxCorner(inp, 1 < inp.w, c, east, 1, 0);
      var c1 := RelaxIf(1 < inp.w, c, east, 1, 0);
      RelaxCorner(inp, 1 < inp.h, c1, south, 0, 1);
      var c2 := RelaxIf(1 < inp.h, c1, south, 0, 1);
      RelaxCorner(inp, 1 < inp.h && 1 < inp.w, c2, southEast, 1, 1);
      NoRelax(RelaxIf(1 < inp.h && 1 < inp.w, c2, southEast, 1, 1), southWest, 1, 1);
    }
  }

  lemma BindingIn(inp: Input, y: int, x: int, fy: int, fx: int)
    requires Shaped(inp) && Binding(inp, y, x, fy, fx)
    ensures In(inp, fy, fx)
  {
  }

  lemma FromLater(inp: Input, n: Cell, y: nat, x: nat, ny: nat, nx: nat, fy: int, fx: int)
    requires Shaped(inp) && AfterBoth(inp, n, ny, nx) && Binding(inp, y, x, fy, fx) && (ny != 0 || nx != 0)
    ensures Near(n, ny, nx, fy, fx)
  {
    hide Near, Known;
    assert Binding(inp, ny, nx, fy, fx);
  }

  lemma SeenExact(inp: Input, c: Cell, y: int, x: int)
    requires Shaped(inp) && Seen(inp, c, y, x) && c != BLANK
    ensures Exact(c)
  {
  }

  lemma SeenKnown(inp: Input, c: Cell, r: Cell, y: int, x: int)
    requires Shaped(inp) && Known(inp, c, y, x) && Seen(inp, r, y, x) && (r == BLANK ==> c == BLANK)
    ensures Known(inp, r, y, x)
  {
  }

  lemma NearAllIs(inp: Input, c: Cell, y: int, x: int)
    requires Shaped(inp) && forall fy: int, fx: int :: Binding(inp, y, x, fy, fx) ==> Near(c, y, x, fy, fx)
    ensures NearAll(inp, c, y, x)
  {
  }

  /** A cell with a binding source behind it has been measured. */
  lemma CornerSet(inp: Input, c: Cell, y: nat, x: nat, fy: int, fx: int)
    requires Shaped(inp) && AfterForward(inp, c, y, x) && Binding(inp, y, x, fy, fx) && Behind(y, x, fy, fx)
    ensures c != BLANK && Near(c, y, x, fy, fx)
  {
    hide Witnessed, Exact, Near;
    SourceIn(inp, fy, fx);
    BlankIsOpen();
    assert Measured(inp, c, y, x);
  }

  lemma BlankIsOpen()
    ensures !Exact(BLANK)
  {
  }

  lemma KnownSeen(inp: Input, c: Cell, y: int, x: int)
    requires Shaped(inp) && Known(inp, c, y, x)
    ensures Seen(inp, c, y, x)
  {
  }

  // ---- The two sweeps -------------------------------------------------------

  method Relax(g: array2<Cell>, y: nat, x: nat, ny: nat, nx: nat, ox: nat, oy: nat)
    requires y < g.Length0 && x < g.Length1 && ny < g.Length0 && nx < g.Length1
    modifies g
    ensures g[y, x] == Relaxed(old(g[y, x]), old(g[ny, nx]), ox, oy)
    ensures forall r, q :: 0 <= r < g.Length0 && 0 <= q < g.Length1 && (r != y || q != x) ==> g[r, q] == old(g[r, q])
  {
    var candX, candY := g[ny, nx].dx + ox, g[ny, nx].dy + oy;
    var cand := candX * candX + candY * candY;
    if cand < g[y, x].dist {
      g[y, x] := Cell(candX, candY, g[ny, nx].frac, cand);
    }
  }

  predicate Earlier(r: int, q: int, y: int, x: int) { r < y || (r == y && q < x) }

  function At(g: array2<Cell>, y: int, x: int): Cell
    reads g
  {
    if 0 <= y < g.Length0 && 0 <= x < g.Length1 then g[y, x] else BLANK
  }

  method ForwardTexel(g: array2<Cell>, y: nat, x: nat)
    requires y < g.Length0 && x < g.Length1
    modifies g
    ensures g[y, x] == Forward(old(g[y, x]), y, x, g.Length1, old(At(g, y, x - 1)), old(At(g, y - 1, x)),
                               old(At(g, y - 1, x - 1)), old(At(g, y - 1, x + 1)))
    ensures forall r, q :: 0 <= r < g.Length0 && 0 <= q < g.Length1 && (r != y || q != x) ==> g[r, q] == old(g[r, q])
  {
    hide Relaxed;
    ghost var c0 := g[y, x];
    if x > 0 { Relax(g, y, x, y, x - 1, 1, 0); }
    if y > 0 {
      Relax(g, y, x, y - 1, x, 0, 1);
      if x > 0 { Relax(g, y, x, y - 1, x - 1, 1, 1); }
      if x + 1 < g.Length1 { Relax(g, y, x, y - 1, x + 1, 1, 1); }
    }
  }

  method BackwardTexel(g: array2<Cell>, y: nat, x: nat)
    requires y < g.Length0 && x < g.Length1
    modifies g
    ensures g[y, x] == Backward(old(g[y, x]), y, x, g.Length0, g.Length1, old(At(g, y, x + 1)), old(At(g, y + 1, x)),
                                old(At(g, y + 1, x + 1)), old(At(g, y + 1, x - 1)))
    ensures forall r, q :: 0 <= r < g.Length0 && 0 <= q < g.Length1 && (r != y || q != x) ==> g[r, q] == old(g[r, q])
  {
    hide Relaxed;
    if x + 1 < g.Length1 { Relax(g, y, x, y, x + 1, 1, 0); }
    if y + 1 < g.Length0 {
      Relax(g, y, x, y + 1, x, 0, 1);
      if x + 1 < g.Length1 { Relax(g, y, x, y + 1, x + 1, 1, 1); }
      if x > 0 { Relax(g, y, x, y + 1, x - 1, 1, 1); }
    }
  }

  lemma SmallMono(c: Cell, a: nat, b: nat)
    requires Small(c, a) && a <= b
    ensures Small(c, b)
  {
    SquareBound(a, b);
  }

  /** What a finished texel holds is no farther than the corner. */
  lemma ForwardSmall(inp: Input, c: Cell, y: nat, x: nat)
    requires Shaped(inp) && InScale(inp) && In(inp, y, x) && AfterForward(inp, c, y, x)
    ensures Small(c, REACH)
  {
    hide Known, Shaped;
    if y != 0 || x != 0 {
      assert Source(inp, 0, 0);
      assert Behind(y, x, 0, 0) && Near(c, y, x, 0, 0);
      NearManhattan(c, y, x, 0, 0);
      SmallMono(c, y + x, REACH);
    }
  }

  lemma BackwardSmall(inp: Input, c: Cell, y: nat, x: nat)
    requires Shaped(inp) && InScale(inp) && In(inp, y, x) && AfterBoth(inp, c, y, x) && (y != 0 || x != 0)
    ensures Small(c, REACH)
  {
    hide Known, Shaped;
    assert Binding(inp, y, x, 0, 0);
    assert Near(c, y, x, 0, 0);
    NearManhattan(c, y, x, 0, 0);
    SmallMono(c, y + x, REACH);
  }

  /** Forward sweep under way at `(y, x)`. */
  ghost predicate ForwardAt(inp: Input, g: array2<Cell>, y: int, x: int)
    requires Shaped(inp)
    reads g
  {
    && g.Length0 == inp.h && g.Length1 == inp.w
    && (forall r, q :: In(inp, r, q) && Earlier(r, q, y, x) ==> AfterForward(inp, g[r, q], r, q))
    && (forall r, q :: In(inp, r, q) && !Earlier(r, q, y, x) ==> g[r, q] == Seed(inp, r, q))
  }

  /** Backward sweep under way, down to `(y, x)`. */
  ghost predicate BackwardAt(inp: Input, g: array2<Cell>, y: int, x: int)
    requires Shaped(inp)
    reads g
  {
    && g.Length0 == inp.h && g.Length1 == inp.w
    && (forall r, q :: In(inp, r, q) && !Earlier(r, q, y, x) ==> AfterBoth(inp, g[r, q], r, q))
    && (forall r, q :: In(inp, r, q) && Earlier(r, q, y, x) ==> AfterForward(inp, g[r, q], r, q))
  }

  lemma NextRow(inp: Input, g: array2<Cell>, y: nat)
    requires Shaped(inp)
    ensures ForwardAt(inp, g, y, inp.w) ==> ForwardAt(inp, g, y + 1, 0)
    ensures BackwardAt(inp, g, y + 1, 0) ==> BackwardAt(inp, g, y, inp.w)
  {
    hide Seed, AfterForward, AfterBoth;
    assert forall r, q :: In(inp, r, q) ==> (Earlier(r, q, y, inp.w) <==> Earlier(r, q, y + 1, 0));
  }

  method SeedAll(inp: Input) returns (g: array2<Cell>)
    requires Shaped(inp)
    ensures fresh(g) && ForwardAt(inp, g, 0, 0)
  {
    hide AfterForward, Seed, Small;
    g := new Cell[inp.h, inp.w]((y, x) => BLANK);
    for y := 0 to inp.h
      invariant forall r, q :: 0 <= r < y && 0 <= q < inp.w ==> g[r, q] == Seed(inp, r, q)
      invariant forall r, q :: y <= r < inp.h && 0 <= q < inp.w ==> g[r, q] == BLANK
    {
      for x := 0 to inp.w
        invariant forall r, q :: In(inp, r, q) && Earlier(r, q, y, x) ==> g[r, q] == Seed(inp, r, q)
        invariant forall r, q :: In(inp, r, q) && !Earlier(r, q, y, x) ==> g[r, q] == BLANK
      {
        SeedIs(inp, y, x);
        if inp.mask[y][x] != inp.target {
          g[y, x] := Cell(0, 0, inp.frac[y][x], 0);
        }
      }
    }
  }

  method ForwardAdvance(inp: Input, g: array2<Cell>, y: nat, x: nat)
    requires Shaped(inp) && InScale(inp) && In(inp, y, x) && ForwardAt(inp, g, y, x)
    modifies g
    ensures ForwardAt(inp, g, y, x + 1)
  {
    hide Forward, AfterForward, Seed, Small;
    LoopForward(inp, g, y, x);
    ForwardTexel(g, y, x);
  }

  method BackwardAdvance(inp: Input, g: array2<Cell>, y: nat, x: nat)
    requires Shaped(inp) && InScale(inp) && In(inp, y, x) && BackwardAt(inp, g, y, x + 1)
    modifies g
    ensures BackwardAt(inp, g, y, x)
  {
    hide Backward, AfterForward, AfterBoth, Small;
    LoopBackward(inp, g, y, x);
    BackwardTexel(g, y, x);
  }

  /** Both sweeps, in place over the seeded grid. */
  method Sweep(inp: Input) returns (g: array2<Cell>)
    requires Shaped(inp) && InScale(inp)
    ensures g.Length0 == inp.h && g.Length1 == inp.w
    ensures forall y, x :: 0 <= y < inp.h && 0 <= x < inp.w ==> AfterBoth(inp, g[y, x], y, x)
  {
    hide AfterForward, AfterBoth, ForwardAt, BackwardAt, InScale;
    g := SeedAll(inp);
    for y := 0 to inp.h
      invariant ForwardAt(inp, g, y, 0)
    {
      for x := 0 to inp.w
        invariant ForwardAt(inp, g, y, x)
      {
        ForwardAdvance(inp, g, y, x);
      }
      NextRow(inp, g, y);
    }
    Turn(inp, g);
    for y := inp.h downto 0
      invariant BackwardAt(inp, g, y, 0)
    {
      NextRow(inp, g, y);
      for x := inp.w downto 0
        invariant BackwardAt(inp, g, y, x)
      {
        BackwardAdvance(inp, g, y, x);
      }
    }
    Finished(inp, g);
  }

  lemma Turn(inp: Input, g: array2<Cell>)
    requires Shaped(inp) && ForwardAt(inp, g, inp.h, 0)
    ensures BackwardAt(inp, g, inp.h, 0)
  {
    hide AfterForward, AfterBoth, Seed;
  }

  lemma Finished(inp: Input, g: array2<Cell>)
    requires Shaped(inp) && BackwardAt(inp, g, 0, 0)
    ensures g.Length0 == inp.h && g.Length1 == inp.w
    ensures forall y, x :: 0 <= y < inp.h && 0 <= x < inp.w ==> AfterBoth(inp, g[y, x], y, x)
  {
    hide AfterForward, AfterBoth;
  }

  lemma SeedIs(inp: Input, y: nat, x: nat)
    requires Shaped(inp) && In(inp, y, x)
    ensures Seed(inp, y, x) == if inp.mask[y][x] != inp.target then Cell(0, 0, inp.frac[y][x], 0) else BLANK
  {
  }

  /** The neighbours the forward sweep reads are done. */
  lemma LoopForward(inp: Input, g: array2<Cell>, y: nat, x: nat)
    requires Shaped(inp) && InScale(inp) && In(inp, y, x) && g.Length0 == inp.h && g.Length1 == inp.w
    requires forall r, q :: In(inp, r, q) && Earlier(r, q, y, x) ==> AfterForward(inp, g[r, q], r, q)
    requires g[y, x] == Seed(inp, y, x)
    ensures AfterForward(inp, Forward(g[y, x], y, x, inp.w, At(g, y, x - 1), At(g, y - 1, x), At(g, y - 1, x - 1),
                                      At(g, y - 1, x + 1)), y, x)
  {
    hide AfterForward, Forward, Seed;
    forall r, q | 0 <= r < inp.h && 0 <= q < inp.w && Earlier(r, q, y, x)
      ensures Small(g[r, q], REACH)
    {
      ForwardSmall(inp, g[r, q], r, q);
    }
    ForwardStep(inp, y, x, At(g, y, x - 1), At(g, y - 1, x), At(g, y - 1, x - 1), At(g, y - 1, x + 1));
  }

  lemma LoopBackward(inp: Input, g: array2<Cell>, y: nat, x: nat)
    requires Shaped(inp) && InScale(inp) && In(inp, y, x) && g.Length0 == inp.h && g.Length1 == inp.w
    requires forall r, q :: In(inp, r, q) && !Earlier(r, q, y, x + 1) ==> AfterBoth(inp, g[r, q], r, q)
    requires AfterForward(inp, g[y, x], y, x)
    ensures AfterBoth(inp, Backward(g[y, x], y, x, inp.h, inp.w, At(g, y, x + 1), At(g, y + 1, x), At(g, y + 1, x + 1),
                                    At(g, y + 1, x - 1)), y, x)
  {
    hide AfterForward, AfterBoth, Backward;
    forall r, q | 0 <= r < inp.h && 0 <= q < inp.w && !Earlier(r, q, y, x + 1)
      ensures Small(g[r, q], REACH)
    {
      BackwardSmall(inp, g[r, q], r, q);
    }
    BackwardDone(inp, g[y, x], y, x, At(g, y, x + 1), At(g, y + 1, x), At(g, y + 1, x + 1), At(g, y + 1, x - 1));
  }

  // ---- What the result means ------------------------------------------------

  /** No cell but perhaps the corner is farther from any feature than the octile distance, however closely
      the root of two is approached from above. */
  lemma AtMostOctile(inp: Input, c: Cell, y: nat, x: nat, fy: int, fx: int, r: real)
    requires Shaped(inp) && In(inp, y, x) && AfterBoth(inp, c, y, x) && Feature(inp, fy, fx) && Root2(r)
    requires y != 0 || x != 0 || Feature(inp, 0, 0)
    ensures Within(c.dist, Octile(r, y, x, fy, fx))
  {
    FeatureNear(inp, c, y, x, fy, fx);
    hide Octile, AfterBoth;
  }

  lemma FeatureNear(inp: Input, c: Cell, y: nat, x: nat, fy: int, fx: int)
    requires Shaped(inp) && In(inp, y, x) && AfterBoth(inp, c, y, x) && Feature(inp, fy, fx)
    requires y != 0 || x != 0 || Feature(inp, 0, 0)
    ensures c.dist == Sq(c) && Near(c, y, x, fy, fx)
  {
    hide Near, Witnessed;
    assert Measured(inp, c, y, x);
    assert Binding(inp, y, x, fy, fx);
  }

  /** A ratio whose square exceeds two by at most four parts in `n`. */
  lemma CloseRoot(n: nat) returns (r: real)
    requires n > 0
    ensures Root2(r) && (r * r - 2.0) * n as real <= 4.0
  {
    var m := LeastAbove(2 * (n * n), 0, 2 * n);
    LeastIsClose(n, m);
    r := m as real / n as real;
    RatioRoot(m, n, r);
  }

  lemma LeastIsClose(n: nat, m: nat)
    requires m <= 2 * n && (m > 0 ==> (m - 1) * (m - 1) < 2 * (n * n))
    ensures m * m <= 2 * (n * n) + 4 * n
  {
    assert (m - 1) * (m - 1) == m * m - 2 * m + 1;
  }

  lemma RatioRoot(m: nat, n: nat, r: real)
    requires n > 0 && 2 * (n * n) <= m * m <= 2 * (n * n) + 4 * n && r * n as real == m as real && r >= 0.0
    ensures Root2(r) && (r * r - 2.0) * n as real <= 4.0
  {
    var q := n as real;
    SquareAsReal(m);
    SquareAsReal(n);
    RatioSquared(r, q, m as real);
    Positive(q, q);
    Regrouped(r * r - 2.0, q);
    RootExcess(r * r, q, q * q, m as real * m as real, (r * r - 2.0) * q);
  }

  lemma SquareAsReal(m: nat)
    ensures (m * m) as real == m as real * m as real
  {
  }

  lemma Regrouped(a: real, q: real)
    ensures (a * q) * q == a * (q * q)
  {
  }

  lemma RatioSquared(r: real, q: real, m: real)
    requires r * q == m
    ensures r * r * (q * q) == m * m
  {
    assert r * r * (q * q) == (r * q) * (r * q);
  }

  lemma RootExcess(e: real, q: real, qq: real, mm: real, f: real)
    requires q > 0.0 && qq > 0.0 && e * qq == mm && f * q == (e - 2.0) * qq
    requires 2.0 * qq <= mm <= 2.0 * qq + 4.0 * q
    ensures e >= 2.0 && f <= 4.0
  {
    TimesDiffers(e, 2.0, qq);
    TimesDiffers(f, 4.0, q);
    if e < 2.0 { Positive(2.0 - e, qq); }
    if f > 4.0 { Positive(f - 4.0, q); }
  }

  lemma TimesDiffers(a: real, b: real, q: real)
    ensures (a - b) * q == a * q - b * q && (b - a) * q == b * q - a * q
  {
  }

  /** The least number whose square is at least `n`. */
  lemma {:induction false} LeastAbove(n: nat, k: nat, top: nat) returns (m: nat)
    requires k <= top && n <= top * top && (k > 0 ==> (k - 1) * (k - 1) < n)
    ensures m <= top && m * m >= n && (m > 0 ==> (m - 1) * (m - 1) < n)
    decreases top - k
  {
    if k * k >= n {
      m := k;
    } else {
      m := LeastAbove(n, k + 1, top);
    }
  }

  /** Along a diagonal the distance is at most the true one. */
  lemma DiagonalAtMost(inp: Input, c: Cell, y: nat, x: nat, fy: int, fx: int, k: nat)
    requires Shaped(inp) && In(inp, y, x) && AfterBoth(inp, c, y, x) && Feature(inp, fy, fx)
    requires Abs(y - fy) == k && Abs(x - fx) == k && (y != 0 || x != 0 || Feature(inp, 0, 0))
    ensures c.dist <= 2 * k * k
  {
    hide *;
    var n := 4 * (k * k) + 1;
    var r := CloseRoot(n);
    AtMostOctile(inp, c, y, x, fy, fx, r);
    OnDiagonal(r, y, x, fy, fx, k);
    DiagonalSquare(r, k, c.dist);
    assert 2 * (k * k) == 2 * k * k;
  }

  lemma DiagonalSquare(r: real, k: nat, d: nat)
    requires Root2(r) && (r * r - 2.0) * (4 * (k * k) + 1) as real <= 4.0 && Within(d, r * k as real)
    ensures d <= 2 * (k * k)
  {
    var q := k as real;
    NextSquare(k);
    SquaredProduct(r, q);
    SquaredNonNeg(q);
    WithinSquared(d, r * q);
    Root2Squared(r);
    assert Squared(r) == r * r;
    assert (4 * (k * k) + 1) as real == 4.0 * Squared(q) + 1.0;
    hide Squared, Within, Root2;
    CloseToTwo(Squared(r), Squared(q), 4.0 * Squared(q) + 1.0, d, 2 * (k * k));
  }

  lemma OnDiagonal(r: real, y: int, x: int, fy: int, fx: int, k: nat)
    requires Abs(y - fy) == k && Abs(x - fx) == k
    ensures Octile(r, y, x, fy, fx) == r * k as real
  {
  }

  lemma CloseToTwo(e: real, s: real, n: real, d: nat, t: nat)
    requires e >= 2.0 && (e - 2.0) * n <= 4.0 && n == 4.0 * s + 1.0 && s >= 0.0
    requires d as real <= e * s && t as real == 2.0 * s
    ensures d <= t
  {
    assert (e - 2.0) * n == 4.0 * ((e - 2.0) * s) + (e - 2.0);
    assert e * s == (e - 2.0) * s + 2.0 * s;
    assert e == 2.0 ==> (e - 2.0) * s == 0.0;
  }

  /** With a feature in the corner every distance is finite, lies between the true distance to
      some feature and the octile distance to each, and carries that feature's offset. */
  lemma DistanceIsSandwiched(inp: Input, c: Cell, y: nat, x: nat)
    requires Shaped(inp) && In(inp, y, x) && Feature(inp, 0, 0) && AfterBoth(inp, c, y, x)
    ensures exists fy: int, fx: int :: FeatureWithin(inp, y, x, fy, fx, c.dist)
                                       && Abs(y - fy) <= c.dy && Abs(x - fx) <= c.dx && c.frac == inp.frac[fy][fx]
    ensures forall fy: int, fx: int, r: real ::
              Feature(inp, fy, fx) && Root2(r) ==> Within(c.dist, Octile(r, y, x, fy, fx))
    ensures forall fy: int, fx: int ::
              Feature(inp, fy, fx) ==> c.dist <= Manhattan(y, x, fy, fx) * Manhattan(y, x, fy, fx)
    ensures c.dist == Sq(c)
  {
    hide Manhattan, Octile, Near;
    var fy: int, fx: int :| Reaches(inp, c, y, x, fy, fx);
    FeatureNear(inp, c, y, x, fy, fx);
    SquareBound(Abs(y - fy), c.dy);
    SquareBound(Abs(x - fx), c.dx);
    assert FeatureWithin(inp, y, x, fy, fx, c.dist);
    hide AfterBoth;
    forall gy: int, gx: int | Feature(inp, gy, gx)
      ensures c.dist <= Manhattan(y, x, gy, gx) * Manhattan(y, x, gy, gx)
    {
      FeatureNear(inp, c, y, x, gy, gx);
      NearManhattan(c, y, x, gy, gx);
    }
    forall gy: int, gx: int, r: real | Feature(inp, gy, gx) && Root2(r)
      ensures Within(c.dist, Octile(r, y, x, gy, gx))
    {
      AtMostOctile(inp, c, y, x, gy, gx, r);
    }
  }

  // ---- Exactly when no distance is below the truth ---------------------------

  /** No cell of `g` reads below the true distance to its nearest feature. */
  ghost predicate AllHonest(inp: Input, g: seq<seq<Cell>>)
    requires Shaped(inp) && IsResult(inp, g)
  {
    forall y, x :: 0 <= y < inp.h && 0 <= x < inp.w ==> Honest(inp, g[y][x], y, x)
  }

  /** What both sweeps leave, row by row. */
  ghost predicate IsResult(inp: Input, g: seq<seq<Cell>>)
    requires Shaped(inp)
  {
    && |g| == inp.h
    && forall y :: 0 <= y < inp.h ==> |g[y]| == inp.w && forall x :: 0 <= x < inp.w ==> AfterBoth(inp, g[y][x], y, x)
  }

  /** The texel has a feature at distance at most one. */
  ghost predicate Beside(inp: Input, y: int, x: int)
    requires Shaped(inp)
  {
    exists fy: int, fx: int :: FeatureWithin(inp, y, x, fy, fx, 1)
  }

  /** The corner is a feature, or both its neighbours, where the grid has them, have one beside them. */
  ghost predicate CornerCovered(inp: Input)
    requires Shaped(inp)
  {
    || Feature(inp, 0, 0)
    || ((inp.h > 1 || inp.w > 1) && (inp.w > 1 ==> Beside(inp, 0, 1)) && (inp.h > 1 ==> Beside(inp, 1, 0)))
  }

  /** A neighbour of a corner that is no feature reads at most one step. */
  lemma NeighbourReadsOne(inp: Input, c: Cell, y: nat, x: nat)
    requires Shaped(inp) && In(inp, y, x) && y + x == 1 && AfterBoth(inp, c, y, x)
    ensures Honest(inp, c, y, x) ==> Beside(inp, y, x)
  {
    hide Witnessed;
    assert Binding(inp, y, x, 0, 0);
    assert Near(c, y, x, 0, 0);
    NearManhattan(c, y, x, 0, 0);
    assert Measured(inp, c, y, x);
    hide Near, NearAll;
    if Honest(inp, c, y, x) {
      var fy: int, fx: int :| FeatureWithin(inp, y, x, fy, fx, c.dist);
      assert FeatureWithin(inp, y, x, fy, fx, 1);
    }
  }

  /** A feature beside the right neighbour of the corner is no farther than the corner from any cell
      to the right, and likewise below. */
  lemma BesideBeatsCorner(inp: Input, y: nat, x: nat, fy: int, fx: int)
    requires Shaped(inp) && !Feature(inp, 0, 0)
    requires (x >= 1 && FeatureWithin(inp, 0, 1, fy, fx, 1)) || (y >= 1 && FeatureWithin(inp, 1, 0, fy, fx, 1))
    ensures FeatureWithin(inp, y, x, fy, fx, y * y + x * x)
  {
    hide Shaped;
    assert In(inp, fy, fx);
    StepOne(Abs(if x >= 1 && FeatureWithin(inp, 0, 1, fy, fx, 1) then fy else 1 - fy),
            Abs(if x >= 1 && FeatureWithin(inp, 0, 1, fy, fx, 1) then 1 - fx else fx));
    if x >= 1 && FeatureWithin(inp, 0, 1, fy, fx, 1) {
      assert (fy == 0 && fx == 1) || (fy == 0 && fx == 2) || (fy == 1 && fx == 1);
      Shorter(y, x, fy, fx);
    } else {
      assert (fy == 1 && fx == 0) || (fy == 2 && fx == 0) || (fy == 1 && fx == 1);
      Shorter(x, y, fx, fy);
    }
  }

  lemma StepOne(a: nat, b: nat)
    requires a * a + b * b <= 1
    ensures a + b <= 1
  {
    if a >= 2 { SquareBound(2, a); }
    if b >= 2 { SquareBound(2, b); }
  }

  lemma Shorter(y: nat, x: nat, fy: int, fx: int)
    requires x >= 1 && ((fy == 0 && fx == 1) || (fy == 0 && fx == 2) || (fy == 1 && fx == 1))
    ensures Euclid2(y, x, fy, fx) <= y * y + x * x
  {
    assert Euclid2(y, x, fy, fx) == (y - fy) * (y - fy) + (x - fx) * (x - fx);
    assert (x - fx) * (x - fx) == x * x - 2 * x * fx + fx * fx;
    assert (y - fy) * (y - fy) == y * y - 2 * y * fy + fy * fy;
  }

  /** Away from the corner a covered corner costs nothing. */
  lemma CoveredIsHonest(inp: Input, c: Cell, y: nat, x: nat)
    requires Shaped(inp) && In(inp, y, x) && CornerCovered(inp) && AfterBoth(inp, c, y, x)
    ensures Honest(inp, c, y, x)
  {
    if y == 0 && x == 0 && !Feature(inp, 0, 0) {
      CoveredCorner(inp, c);
    } else {
      var sy: int, sx: int :| Reaches(inp, c, y, x, sy, sx);
      hide Shaped, SourceFrac, NearAll, CornerHonest;
      assert Exact(c);
      SquareBound(Abs(y - sy), c.dy);
      SquareBound(Abs(x - sx), c.dx);
      if Feature(inp, sy, sx) {
        assert FeatureWithin(inp, y, x, sy, sx, c.dist);
      } else {
        assert sy == 0 && sx == 0 && y * y + x * x <= c.dist;
        hide Feature;
        var fy: int, fx: int :| if x >= 1 then FeatureWithin(inp, 0, 1, fy, fx, 1)
                                else FeatureWithin(inp, 1, 0, fy, fx, 1);
        BesideBeatsCorner(inp, y, x, fy, fx);
        assert FeatureWithin(inp, y, x, fy, fx, c.dist);
      }
    }
  }

  lemma CoveredCorner(inp: Input, c: Cell)
    requires Shaped(inp) && In(inp, 0, 0) && CornerCovered(inp) && !Feature(inp, 0, 0) && AfterBoth(inp, c, 0, 0)
    ensures Honest(inp, c, 0, 0)
  {
    hide Feature, Shaped, Known, NearAll;
    var fy: int, fx: int :| FeatureWithin(inp, 0, 1, fy, fx, 1) || FeatureWithin(inp, 1, 0, fy, fx, 1);
    CornerReach(inp, fy, fx);
    assert c.dist >= 4 ==> FeatureWithin(inp, 0, 0, fy, fx, c.dist);
  }

  lemma CornerReach(inp: Input, fy: int, fx: int)
    requires Shaped(inp) && (FeatureWithin(inp, 0, 1, fy, fx, 1) || FeatureWithin(inp, 1, 0, fy, fx, 1))
    ensures FeatureWithin(inp, 0, 0, fy, fx, 4)
  {
    hide Shaped;
    if FeatureWithin(inp, 0, 1, fy, fx, 1) { StepOne(Abs(fy), Abs(1 - fx)); } else { StepOne(Abs(1 - fy), Abs(fx)); }
    SquareSum(Abs(fy), Abs(fx));
  }

  lemma SquareSum(a: nat, b: nat)
    requires a <= 2 && b <= 2 && a + b <= 2
    ensures a * a + b * b <= 4
  {
  }

  lemma LoneCornerLow(inp: Input, c: Cell)
    requires Shaped(inp) && inp.h > 0 && inp.w > 0 && !Feature(inp, 0, 0)
    ensures inp.h == 1 && inp.w == 1 ==> !Honest(inp, c, 0, 0)
  {
    if inp.h == 1 && inp.w == 1 {
      forall fy: int, fx: int ensures !FeatureWithin(inp, 0, 0, fy, fx, c.dist) {}
    }
  }

  /** No texel reads below the true distance to its nearest feature if and only if the corner is
      covered, which a caller can tell from at most eight texels of the mask. */
  lemma NeverBelowIffCornerCovered(inp: Input, g: seq<seq<Cell>>)
    requires Shaped(inp) && inp.h > 0 && inp.w > 0 && IsResult(inp, g)
    ensures AllHonest(inp, g) <==> CornerCovered(inp)
  {
    if CornerCovered(inp) {
      forall y, x | 0 <= y < inp.h && 0 <= x < inp.w
        ensures Honest(inp, g[y][x], y, x)
      {
        CoveredIsHonest(inp, g[y][x], y, x);
      }
    }
    if AllHonest(inp, g) && !Feature(inp, 0, 0) {
      if inp.w > 1 { NeighbourReadsOne(inp, g[0][1], 0, 1); }
      if inp.h > 1 { NeighbourReadsOne(inp, g[1][0], 1, 0); }
      LoneCornerLow(inp, g[0][0]);
      hide AfterBoth, Honest, Beside;
    }
  }

  /** Off the first row and column, only texel `(1, 1)` is beside a neighbour of the corner. */
  lemma OnlyDiagonalBeside(inp: Input, y: int, x: int)
    requires Shaped(inp) && ((y == 0 && x == 1) || (y == 1 && x == 0))
    requires forall fy: int, fx: int :: Feature(inp, fy, fx) ==> fy >= 1 && fx >= 1
    ensures Beside(inp, y, x) <==> Feature(inp, 1, 1)
  {
    hide Shaped, Feature;
    if Beside(inp, y, x) {
      var fy: int, fx: int :| FeatureWithin(inp, y, x, fy, fx, 1);
      NextTo(fy - y, fx - x);
    }
    if Feature(inp, 1, 1) { assert FeatureWithin(inp, y, x, 1, 1, 1); }
  }

  lemma NextTo(a: int, b: int)
    requires a * a + b * b <= 1
    ensures -1 <= a <= 1 && -1 <= b <= 1 && (a == 0 || b == 0)
  {
    if a >= 2 || a <= -2 { SquareBound(2, Abs(a)); }
    if b >= 2 || b <= -2 { SquareBound(2, Abs(b)); }
  }

  /** The features of the outside pass of a padded glyph are its ink, which keeps off the first row and
      column: no texel reads too low if and only if texel `(1, 1)` is ink. */
  lemma PaddedOutsidePassIff(inp: Input, g: seq<seq<Cell>>)
    requires Shaped(inp) && inp.h > 1 && inp.w > 1 && IsResult(inp, g)
    requires forall fy: int, fx: int :: Feature(inp, fy, fx) ==> fy >= 1 && fx >= 1
    ensures AllHonest(inp, g) <==> Feature(inp, 1, 1)
  {
    NeverBelowIffCornerCovered(inp, g);
    OnlyDiagonalBeside(inp, 0, 1);
    OnlyDiagonalBeside(inp, 1, 0);
    hide AllHonest, IsResult, Beside, Feature, Shaped;
  }

  /** The inside pass of a padded glyph is: its features are the outside, corner included. */
  lemma PaddedInsidePassIsHonest(inp: Input, g: seq<seq<Cell>>)
    requires Shaped(inp) && inp.h > 0 && inp.w > 0 && IsResult(inp, g) && inp.target && !inp.mask[0][0]
    ensures AllHonest(inp, g)
  {
    NeverBelowIffCornerCovered(inp, g);
    hide AllHonest, IsResult;
  }

  /** One ink texel in the middle of a five by five cell: its outside pass. */
  const DOT_MASK: seq<seq<bool>> := [CLEAR_ROW, CLEAR_ROW, [false, false, true, false, false], CLEAR_ROW, CLEAR_ROW]

  const CLEAR_ROW: seq<bool> := [false, false, false, false, false]

  lemma DotReadsLow(inp: Input, g: seq<seq<Cell>>)
    requires inp.h == 5 && inp.w == 5 && inp.mask == DOT_MASK && !inp.target && Shaped(inp) && IsResult(inp, g)
    ensures g[0][1].dist <= 1 && forall fy: int, fx: int :: Feature(inp, fy, fx) ==> Euclid2(0, 1, fy, fx) == 5
  {
    assert AfterBoth(inp, g[0][1], 0, 1);
    assert Binding(inp, 0, 1, 0, 0);
    assert Near(g[0][1], 0, 1, 0, 0) && Measured(inp, g[0][1], 0, 1);
    NearManhattan(g[0][1], 0, 1, 0, 0);
  }

  // ---- The distances handed out ---------------------------------------------

  /** A square root on the squared distances, exact on squares and never too large. */
  ghost predicate IsRoot(root: nat -> real) {
    && (forall n: nat :: root(n * n) == n as real)
    && (forall m: nat, n: nat :: m <= n ==> root(m) <= root(n))
    && (forall n: nat :: 0.0 <= root(n) && root(n) * root(n) <= n as real)
  }

  /** The stored distance moved back by the carried sub-texel offset; a cell never reached reads zero. */
  function Corrected(root: nat -> real, c: Cell): real {
    if c.dist >= UNREACHED then 0.0 else MaxReal(root(c.dist) - c.frac, 0.0)
  }

  method EuclideanDistanceToOther(inp: Input, root: nat -> real) returns (dist: array2<real>, ghost g: seq<seq<Cell>>)
    requires Shaped(inp) && InScale(inp)
    ensures dist.Length0 == inp.h && dist.Length1 == inp.w && IsResult(inp, g)
    ensures forall y, x :: 0 <= y < inp.h && 0 <= x < inp.w ==> dist[y, x] == Corrected(root, g[y][x])
    ensures inp.h > 0 && inp.w > 0 ==> (AllHonest(inp, g) <==> CornerCovered(inp))
  {
    hide AfterBoth, AllHonest, CornerCovered, Corrected;
    var cells := Sweep(inp);
    g := Rows(cells);
    dist := new real[inp.h, inp.w]((y, x) => 0.0);
    for y := 0 to inp.h
      invariant g == Rows(cells)
      invariant forall r, q :: 0 <= r < y && 0 <= q < inp.w ==> dist[r, q] == Corrected(root, g[r][q])
    {
      for x := 0 to inp.w
        invariant g == Rows(cells)
        invariant forall r, q :: 0 <= r < y && 0 <= q < inp.w ==> dist[r, q] == Corrected(root, g[r][q])
        invariant forall q :: 0 <= q < x ==> dist[y, q] == Corrected(root, g[y][q])
      {
        CorrectedIs(root, cells[y, x]);
        if cells[y, x].dist >= UNREACHED {
          dist[y, x] := 0.0;
        } else {
          dist[y, x] := MaxReal(root(cells[y, x].dist) - cells[y, x].frac, 0.0);
        }
      }
    }
    if inp.h > 0 && inp.w > 0 { NeverBelowIffCornerCovered(inp, g); }
  }

  ghost function Rows(g: array2<Cell>): (r: seq<seq<Cell>>)
    reads g
    ensures |r| == g.Length0 && forall y :: 0 <= y < g.Length0 ==> |r[y]| == g.Length1
    ensures forall y, x :: 0 <= y < g.Length0 && 0 <= x < g.Length1 ==> r[y][x] == g[y, x]
  {
    seq(g.Length0, y reads g requires 0 <= y < g.Length0 =>
      seq(g.Length1, x reads g requires 0 <= x < g.Length1 => g[y, x]))
  }

  lemma CorrectedIs(root: nat -> real, c: Cell)
    ensures Corrected(root, c) == if c.dist >= UNREACHED then 0.0 else MaxReal(root(c.dist) - c.frac, 0.0)
  {
  }

  /** With a feature in the corner, a corrected distance is at least the true distance to some feature
      less that feature's sub-texel offset, and at most the octile distance to each. */
  lemma CorrectedIsSandwiched(inp: Input, root: nat -> real, c: Cell, y: nat, x: nat)
    requires Shaped(inp) && In(inp, y, x) && Feature(inp, 0, 0) && AfterBoth(inp, c, y, x) && IsRoot(root)
    requires InScale(inp) && forall r, q :: In(inp, r, q) ==> inp.frac[r][q] >= 0.0
    ensures exists fy: int, fx: int ::
              Feature(inp, fy, fx) && Corrected(root, c) >= root(Euclid2(y, x, fy, fx)) - inp.frac[fy][fx]
    ensures forall fy: int, fx: int, r: real ::
              Feature(inp, fy, fx) && Root2(r) ==> Corrected(root, c) <= Octile(r, y, x, fy, fx)
  {
    DistanceIsSandwiched(inp, c, y, x);
    CornerDistance(inp, c, y, x);
    hide Shaped, Euclid2, AfterBoth, IsRoot, Manhattan, Octile, Within;
    var fy: int, fx: int :| FeatureWithin(inp, y, x, fy, fx, c.dist) && c.frac == inp.frac[fy][fx];
    RootOf(root, Euclid2(y, x, fy, fx), c.dist);
    forall gy: int, gx: int, r: real | Feature(inp, gy, gx) && Root2(r)
      ensures Corrected(root, c) <= Octile(r, y, x, gy, gx)
    {
      OctileNonNeg(r, y, x, gy, gx);
      RootWithin(root, c.dist, Octile(r, y, x, gy, gx));
    }
  }

  lemma RootWithin(root: nat -> real, n: nat, b: real)
    requires IsRoot(root) && b >= 0.0 && Within(n, b)
    ensures root(n) <= b
  {
    RealRoot(root(n), b);
  }

  lemma RootOf(root: nat -> real, m: nat, n: nat)
    requires IsRoot(root) && m <= n
    ensures root(m) <= root(n)
  {
  }

  lemma CornerDistance(inp: Input, c: Cell, y: nat, x: nat)
    requires In(inp, y, x) && InScale(inp)
    requires c.dist <= Manhattan(y, x, 0, 0) * Manhattan(y, x, 0, 0)
    ensures c.dist < UNREACHED
  {
    SquareBound(Manhattan(y, x, 0, 0), REACH);
  }
}
