/** Adaptive flattening of one cubic Bezier curve (crates/renderer-core/src/curve_lod.rs). */
module CurveLod {
  import opened Sequences
  import opened Planar

  const MIN_FLATNESS_PX: real := 0.05
  const MAX_SUBDIVISION_DEPTH: nat := 24
  /** Single-precision epsilon, 2 to the power -23. */
  const EPSILON: real := 1.0 / 8388608.0

  datatype Cubic = Cubic(p0: Point, c1: Point, c2: Point, p1: Point)

  // ---- The curve itself -----------------------------------------------------

  function W0(t: real): real { (1.0 - t) * (1.0 - t) * (1.0 - t) }
  function W1(t: real): real { 3.0 * (1.0 - t) * (1.0 - t) * t }
  function W2(t: real): real { 3.0 * (1.0 - t) * t * t }
  function W3(t: real): real { t * t * t }

  /** One coordinate of the curve: the control values weighted by the Bernstein polynomials. */
  function Bernstein(a: real, b: real, c: real, d: real, t: real): real {
    W0(t) * a + W1(t) * b + W2(t) * c + W3(t) * d
  }

  /** The point of the curve at parameter `t`. */
  function At(k: Cubic, t: real): Point {
    Point(Bernstein(k.p0.x, k.c1.x, k.c2.x, k.p1.x, t), Bernstein(k.p0.y, k.c1.y, k.c2.y, k.p1.y, t))
  }

  // ---- The subdivision ------------------------------------------------------

  function Midpoint(a: Point, b: Point): Point { Point((a.x + b.x) * 0.5, (a.y + b.y) * 0.5) }

  function LeftHalf(k: Cubic): Cubic {
    var p01, p12, p23 := Midpoint(k.p0, k.c1), Midpoint(k.c1, k.c2), Midpoint(k.c2, k.p1);
    var p012, p123 := Midpoint(p01, p12), Midpoint(p12, p23);
    Cubic(k.p0, p01, p012, Midpoint(p012, p123))
  }

  function RightHalf(k: Cubic): Cubic {
    var p01, p12, p23 := Midpoint(k.p0, k.c1), Midpoint(k.c1, k.c2), Midpoint(k.c2, k.p1);
    var p012, p123 := Midpoint(p01, p12), Midpoint(p12, p23);
    Cubic(Midpoint(p012, p123), p123, p23, k.p1)
  }

  /** Parameter of the nearest point of the segment, as the source clamps it. */
  function SegmentParam(p: Point, a: Point, b: Point): (t: real)
    ensures 0.0 <= t <= 1.0
  {
    var ab, ap := Sub(b, a), Sub(p, a);
    var lenSq := Dot(ab, ab);
    if lenSq <= EPSILON then 0.0
    else
      var t := Dot(ap, ab) / lenSq;
      if t < 0.0 then 0.0 else if t > 1.0 then 1.0 else t
  }

  function DistSqToSegment(p: Point, a: Point, b: Point): real {
    Dist2(p, Lerp(a, b, SegmentParam(p, a, b)))
  }

  predicate IsFlat(k: Cubic, tolSq: real) {
    DistSqToSegment(k.c1, k.p0, k.p1) <= tolSq && DistSqToSegment(k.c2, k.p0, k.p1) <= tolSq
  }

  /** The flatness test as a value, so that the recursion below does not depend on its arithmetic. */
  function FlatTest(tolSq: real): (Cubic -> bool) { (k: Cubic) => IsFlat(k, tolSq) }

  /** The interior points in the order they are pushed. */
  function Interior(flat: Cubic -> bool, k: Cubic, depth: nat): seq<Point>
    decreases MAX_SUBDIVISION_DEPTH - depth
  {
    if depth >= MAX_SUBDIVISION_DEPTH || flat(k) then []
    else
      Interior(flat, LeftHalf(k), depth + 1) + [LeftHalf(k).p1] + Interior(flat, RightHalf(k), depth + 1)
  }

  function Tolerance(flatness: real): (tol: real)
    ensures tol > 0.0
  {
    if flatness > 0.0 then flatness else MIN_FLATNESS_PX
  }

  function TolSq(flatness: real): real { Tolerance(flatness) * Tolerance(flatness) }

  function Polyline(k: Cubic, flatness: real): seq<Point> {
    [k.p0] + Interior(FlatTest(TolSq(flatness)), k, 0) + [k.p1]
  }

  lemma InteriorStep(flat: Cubic -> bool, k: Cubic, depth: nat)
    ensures Interior(flat, k, depth) ==
      if depth >= MAX_SUBDIVISION_DEPTH || flat(k) then []
      else Interior(flat, LeftHalf(k), depth + 1) + [LeftHalf(k).p1] + Interior(flat, RightHalf(k), depth + 1)
  {
    hide LeftHalf, RightHalf;
  }

  lemma HalvesAre(k: Cubic, p01: Point, p12: Point, p23: Point, p012: Point, p123: Point, mid: Point)
    requires p01 == Midpoint(k.p0, k.c1) && p12 == Midpoint(k.c1, k.c2) && p23 == Midpoint(k.c2, k.p1)
    requires p012 == Midpoint(p01, p12) && p123 == Midpoint(p12, p23) && mid == Midpoint(p012, p123)
    ensures LeftHalf(k) == Cubic(k.p0, p01, p012, mid) && RightHalf(k) == Cubic(mid, p123, p23, k.p1)
  {
    hide Midpoint;
  }

  method Subdivide(k: Cubic, tolSq: real, depth: nat, out: seq<Point>) returns (out': seq<Point>)
    ensures out' == out + Interior(FlatTest(tolSq), k, depth)
    decreases MAX_SUBDIVISION_DEPTH - depth
  {
    InteriorStep(FlatTest(tolSq), k, depth);
    hide IsFlat, Interior;
    if depth >= MAX_SUBDIVISION_DEPTH || IsFlat(k, tolSq) {
      return out;
    }
    assert !FlatTest(tolSq)(k);
    var p01, p12, p23 := Midpoint(k.p0, k.c1), Midpoint(k.c1, k.c2), Midpoint(k.c2, k.p1);
    var p012, p123 := Midpoint(p01, p12), Midpoint(p12, p23);
    var mid := Midpoint(p012, p123);
    HalvesAre(k, p01, p12, p23, p012, p123, mid);
    hide LeftHalf, RightHalf, Midpoint;
    out' := Subdivide(Cubic(k.p0, p01, p012, mid), tolSq, depth + 1, out);
    out' := out' + [mid];
    out' := Subdivide(Cubic(mid, p123, p23, k.p1), tolSq, depth + 1, out');
  }

  method FlattenCubic(p0: Point, c1: Point, c2: Point, p1: Point, flatness: real) returns (out: seq<Point>)
    ensures out == Polyline(Cubic(p0, c1, c2, p1), flatness)
  {
    hide Interior, IsFlat;
    var tol := if flatness > 0.0 then flatness else MIN_FLATNESS_PX;
    assert tol == Tolerance(flatness);
    out := [p0];
    out := Subdivide(Cubic(p0, c1, c2, p1), tol * tol, 0, out);
    out := out + [p1];
    assert tol * tol == TolSq(flatness);
  }

  // ---- Where the points lie -------------------------------------------------

  /** Width of a parameter interval after `depth` halvings. */
  function Width(depth: nat): (w: real)
    ensures w > 0.0
  {
    if depth == 0 then 1.0 else Width(depth - 1) * 0.5
  }

  ghost predicate Agrees(whole: Cubic, k: Cubic, s: real, t: real) { At(k, s) == At(whole, t) }

  /** `k` is the piece of `whole` over the parameters from `lo`, `depth` halvings down. */
  ghost predicate Piece(whole: Cubic, k: Cubic, lo: real, depth: nat) {
    forall s: real, t: real :: t == lo + s * Width(depth) ==> Agrees(whole, k, s, t)
  }

  lemma BernsteinLeft(a: real, b: real, c: real, d: real, s: real)
    ensures Bernstein(a, (a + b) * 0.5, ((a + b) * 0.5 + (b + c) * 0.5) * 0.5,
              (((a + b) * 0.5 + (b + c) * 0.5) * 0.5 + ((b + c) * 0.5 + (c + d) * 0.5) * 0.5) * 0.5, s)
         == Bernstein(a, b, c, d, s * 0.5)
  {
  }

  lemma BernsteinReversed(a: real, b: real, c: real, d: real, t: real)
    ensures Bernstein(a, b, c, d, t) == Bernstein(d, c, b, a, 1.0 - t)
  {
  }

  lemma BernsteinRight(a: real, b: real, c: real, d: real, s: real)
    ensures Bernstein((((a + b) * 0.5 + (b + c) * 0.5) * 0.5 + ((b + c) * 0.5 + (c + d) * 0.5) * 0.5) * 0.5,
              ((b + c) * 0.5 + (c + d) * 0.5) * 0.5, (c + d) * 0.5, d, s)
         == Bernstein(a, b, c, d, 0.5 + s * 0.5)
  {
    var m := (((a + b) * 0.5 + (b + c) * 0.5) * 0.5 + ((b + c) * 0.5 + (c + d) * 0.5) * 0.5) * 0.5;
    BernsteinReversed(m, ((b + c) * 0.5 + (c + d) * 0.5) * 0.5, (c + d) * 0.5, d, s);
    BernsteinLeft(d, c, b, a, 1.0 - s);
    BernsteinReversed(a, b, c, d, 0.5 + s * 0.5);
    assert (1.0 - s) * 0.5 == 1.0 - (0.5 + s * 0.5);
  }

  lemma AtLeftHalf(k: Cubic, s: real)
    ensures At(LeftHalf(k), s) == At(k, s * 0.5)
  {
    BernsteinLeft(k.p0.x, k.c1.x, k.c2.x, k.p1.x, s);
    BernsteinLeft(k.p0.y, k.c1.y, k.c2.y, k.p1.y, s);
  }

  lemma AtRightHalf(k: Cubic, s: real)
    ensures At(RightHalf(k), s) == At(k, 0.5 + s * 0.5)
  {
    BernsteinRight(k.p0.x, k.c1.x, k.c2.x, k.p1.x, s);
    BernsteinRight(k.p0.y, k.c1.y, k.c2.y, k.p1.y, s);
  }

  lemma HalvesArePieces(whole: Cubic, k: Cubic, lo: real, depth: nat)
    requires Piece(whole, k, lo, depth)
    ensures Piece(whole, LeftHalf(k), lo, depth + 1)
    ensures Piece(whole, RightHalf(k), lo + Width(depth + 1), depth + 1)
  {
    hide At;
    var l, r, d, mid := LeftHalf(k), RightHalf(k), depth + 1, lo + Width(depth + 1);
    forall s: real, t: real | t == lo + s * Width(d) ensures Agrees(whole, l, s, t) {
      AtLeftHalf(k, s);
      assert s * 0.5 * Width(depth) == s * Width(d);
      assert Agrees(whole, k, s * 0.5, t);
    }
    forall s: real, t: real | t == mid + s * Width(d) ensures Agrees(whole, r, s, t) {
      AtRightHalf(k, s);
      assert (0.5 + s * 0.5) * Width(depth) == Width(d) + s * Width(d);
      assert Agrees(whole, k, 0.5 + s * 0.5, t);
    }
  }

  // ---- Distance to the chord ------------------------------------------------

  /** Some point of the chord `a b` is within the tolerance of `p`. */
  ghost predicate NearChord(p: Point, a: Point, b: Point, tolSq: real) {
    exists s: real :: 0.0 <= s <= 1.0 && Dist2(p, Lerp(a, b, s)) <= tolSq
  }

  lemma SquareNonNeg(x: real)
    ensures x * x >= 0.0
  {
  }

  /** Two short vectors, weighted by at most one in all, add up to a short vector. */
  lemma WeightedSum(w1: real, w2: real, ex: real, ey: real, fx: real, fy: real, bound: real)
    requires w1 >= 0.0 && w2 >= 0.0 && w1 + w2 <= 1.0
    requires ex * ex + ey * ey <= bound && fx * fx + fy * fy <= bound
    ensures (w1 * ex + w2 * fx) * (w1 * ex + w2 * fx) + (w1 * ey + w2 * fy) * (w1 * ey + w2 * fy) <= bound
  {
    SquareNonNeg(ex); SquareNonNeg(ey);
    CrossBound(ex, ey, fx, fy, bound);
    Expand(w1, w2, ex, ey, fx, fy);
    WeightsBound(w1, w2, ex * ex + ey * ey, ex * fx + ey * fy, fx * fx + fy * fy, bound);
  }

  lemma CrossBound(ex: real, ey: real, fx: real, fy: real, bound: real)
    requires ex * ex + ey * ey <= bound && fx * fx + fy * fy <= bound
    ensures ex * fx + ey * fy <= bound
  {
    SquareNonNeg(ex - fx); SquareNonNeg(ey - fy);
    assert (ex - fx) * (ex - fx) == ex * ex - 2.0 * (ex * fx) + fx * fx;
    assert (ey - fy) * (ey - fy) == ey * ey - 2.0 * (ey * fy) + fy * fy;
  }

  lemma WeightsBound(w1: real, w2: real, e2: real, ef: real, f2: real, bound: real)
    requires w1 >= 0.0 && w2 >= 0.0 && w1 + w2 <= 1.0
    requires 0.0 <= e2 <= bound && ef <= bound && f2 <= bound
    ensures w1 * w1 * e2 + 2.0 * (w1 * w2 * ef) + w2 * w2 * f2 <= bound
  {
    MulNonNeg(w1, w1); MulNonNeg(w2, w2); MulNonNeg(w1, w2);
    MulNonNeg(w1 * w1, bound - e2);
    MulNonNeg(w2 * w2, bound - f2);
    MulNonNeg(w1 * w2, bound - ef);
    var w := w1 + w2;
    MulNonNeg(w, 1.0 - w);
    MulNonNeg(1.0 - w * w, bound);
    assert w * w == w1 * w1 + 2.0 * (w1 * w2) + w2 * w2;
    SquareTimes(w1, w2, bound);
  }

  lemma SquareTimes(w1: real, w2: real, bound: real)
    ensures w1 * w1 * bound + 2.0 * (w1 * w2 * bound) + w2 * w2 * bound == (w1 + w2) * (w1 + w2) * bound
  {
  }

  lemma Expand(w1: real, w2: real, ex: real, ey: real, fx: real, fy: real)
    ensures (w1 * ex + w2 * fx) * (w1 * ex + w2 * fx) + (w1 * ey + w2 * fy) * (w1 * ey + w2 * fy)
         == w1 * w1 * (ex * ex + ey * ey) + 2.0 * (w1 * w2 * (ex * fx + ey * fy)) + w2 * w2 * (fx * fx + fy * fy)
  {
  }

  lemma Weights(t: real)
    requires 0.0 <= t <= 1.0
    ensures W0(t) + W1(t) + W2(t) + W3(t) == 1.0
    ensures W0(t) >= 0.0 && W1(t) >= 0.0 && W2(t) >= 0.0 && W3(t) >= 0.0
  {
    var u := 1.0 - t;
    MulNonNeg(u, u); MulNonNeg(u * u, u); MulNonNeg(u * u, t);
    MulNonNeg(t, t); MulNonNeg(t * t, t); MulNonNeg(t * t, u);
  }

  /** The offset of one coordinate of the curve from the chord point at `s`. */
  /** One coordinate of a chord point. */
  function Part(a: real, d: real, s: real): real { a + (d - a) * s }

  lemma OffsetFromChord(a: real, b: real, c: real, d: real, t1: real, t2: real, w0: real, w1: real, w2: real, w3: real,
                        s: real)
    requires w0 + w1 + w2 + w3 == 1.0 && s == w1 * t1 + w2 * t2 + w3
    ensures w0 * a + w1 * b + w2 * c + w3 * d - Part(a, d, s) == w1 * (b - Part(a, d, t1)) + w2 * (c - Part(a, d, t2))
  {
    assert w0 * a == (1.0 - w1 - w2 - w3) * a;
  }

  lemma OffsetOfCoordinate(a: real, b: real, c: real, d: real, t: real, t1: real, t2: real, s: real)
    requires W0(t) + W1(t) + W2(t) + W3(t) == 1.0 && s == W1(t) * t1 + W2(t) * t2 + W3(t)
    ensures Bernstein(a, b, c, d, t) - Part(a, d, s) == W1(t) * (b - Part(a, d, t1)) + W2(t) * (c - Part(a, d, t2))
  {
    hide W0, W1, W2, W3, Part;
    OffsetFromChord(a, b, c, d, t1, t2, W0(t), W1(t), W2(t), W3(t), s);
  }

  lemma LerpParts(a: Point, b: Point, s: real)
    ensures Lerp(a, b, s) == Point(Part(a.x, b.x, s), Part(a.y, b.y, s))
  {
  }

  lemma AtParts(k: Cubic, t: real)
    ensures At(k, t).x == Bernstein(k.p0.x, k.c1.x, k.c2.x, k.p1.x, t)
    ensures At(k, t).y == Bernstein(k.p0.y, k.c1.y, k.c2.y, k.p1.y, t)
  {
  }

  lemma ChordParamInRange(w1: real, w2: real, w3: real, t1: real, t2: real)
    requires w1 >= 0.0 && w2 >= 0.0 && w3 >= 0.0 && w1 + w2 + w3 <= 1.0
    requires 0.0 <= t1 <= 1.0 && 0.0 <= t2 <= 1.0
    ensures 0.0 <= w1 * t1 + w2 * t2 + w3 <= 1.0
  {
    MulNonNeg(w1, t1); MulNonNeg(w2, t2); MulNonNeg(w1, 1.0 - t1); MulNonNeg(w2, 1.0 - t2);
    assert w1 * (1.0 - t1) == w1 - w1 * t1 && w2 * (1.0 - t2) == w2 - w2 * t2;
  }

  lemma FlatMeans(k: Cubic, tolSq: real)
    requires IsFlat(k, tolSq)
    ensures Dist2(k.c1, Lerp(k.p0, k.p1, SegmentParam(k.c1, k.p0, k.p1))) <= tolSq
    ensures Dist2(k.c2, Lerp(k.p0, k.p1, SegmentParam(k.c2, k.p0, k.p1))) <= tolSq
  {
  }

  /** The curve point at `t` leaves the chord by the weighted offsets of the two control points. */
  lemma ChordOffset(k: Cubic, t: real, t1: real, t2: real) returns (s: real)
    requires 0.0 <= t <= 1.0 && 0.0 <= t1 <= 1.0 && 0.0 <= t2 <= 1.0
    ensures 0.0 <= s <= 1.0
    ensures var q, q1, q2 := Lerp(k.p0, k.p1, s), Lerp(k.p0, k.p1, t1), Lerp(k.p0, k.p1, t2);
              && At(k, t).x - q.x == W1(t) * (k.c1.x - q1.x) + W2(t) * (k.c2.x - q2.x)
              && At(k, t).y - q.y == W1(t) * (k.c1.y - q1.y) + W2(t) * (k.c2.y - q2.y)
  {
    hide *;
    Weights(t);
    s := W1(t) * t1 + W2(t) * t2 + W3(t);
    ChordParamInRange(W1(t), W2(t), W3(t), t1, t2);
    OffsetOfCoordinate(k.p0.x, k.c1.x, k.c2.x, k.p1.x, t, t1, t2, s);
    OffsetOfCoordinate(k.p0.y, k.c1.y, k.c2.y, k.p1.y, t, t1, t2, s);
    LerpParts(k.p0, k.p1, s);
    LerpParts(k.p0, k.p1, t1);
    LerpParts(k.p0, k.p1, t2);
    AtParts(k, t);
  }

  lemma OffsetLength(p: Point, q: Point, dx: real, dy: real)
    requires p.x - q.x == dx && p.y - q.y == dy
    ensures Dist2(p, q) == dx * dx + dy * dy
  {
  }

  lemma WeightedOffset(p: Point, q: Point, c1: Point, q1: Point, c2: Point, q2: Point, w1: real, w2: real,
                       ex: real, ey: real, fx: real, fy: real, tolSq: real)
    requires w1 >= 0.0 && w2 >= 0.0 && w1 + w2 <= 1.0
    requires ex == c1.x - q1.x && ey == c1.y - q1.y && fx == c2.x - q2.x && fy == c2.y - q2.y
    requires p.x - q.x == w1 * ex + w2 * fx && p.y - q.y == w1 * ey + w2 * fy
    requires Dist2(c1, q1) <= tolSq && Dist2(c2, q2) <= tolSq
    ensures Dist2(p, q) <= tolSq
  {
    hide Dist2;
    OffsetLength(c1, q1, ex, ey);
    OffsetLength(c2, q2, fx, fy);
    WeightedSum(w1, w2, ex, ey, fx, fy, tolSq);
    OffsetLength(p, q, w1 * ex + w2 * fx, w1 * ey + w2 * fy);
  }

  /** A piece that passes the flatness test stays within the tolerance of its chord throughout. */
  lemma FlatStaysNear(k: Cubic, tolSq: real, t: real)
    requires IsFlat(k, tolSq) && 0.0 <= t <= 1.0
    ensures NearChord(At(k, t), k.p0, k.p1, tolSq)
  {
    hide At, IsFlat, Lerp, Dist2, W0, W1, W2, W3;
    var t1, t2 := SegmentParam(k.c1, k.p0, k.p1), SegmentParam(k.c2, k.p0, k.p1);
    Weights(t);
    FlatMeans(k, tolSq);
    var s := ChordOffset(k, t, t1, t2);
    var q1, q2 := Lerp(k.p0, k.p1, t1), Lerp(k.p0, k.p1, t2);
    WeightedOffset(At(k, t), Lerp(k.p0, k.p1, s), k.c1, q1, k.c2, q2, W1(t), W2(t),
                   k.c1.x - q1.x, k.c1.y - q1.y, k.c2.x - q2.x, k.c2.y - q2.y, tolSq);
  }

  // ---- The whole polyline ---------------------------------------------------

  function Grid(m: int, depth: nat): real { m as real * Width(depth) }

  /** A multiple of 2 to the power -depth. */
  ghost predicate Dyadic(t: real, depth: nat) {
    exists m: int :: t == Grid(m, depth)
  }

  /** The curve between two parameters is near the chord `a b`. */
  ghost predicate NearThroughout(whole: Cubic, lo: real, hi: real, a: Point, b: Point, tolSq: real) {
    forall t: real :: lo <= t <= hi ==> NearChord(At(whole, t), a, b, tolSq)
  }

  /** `pts` are the points of the curve at the increasing dyadic parameters `ts`, and between two
      neighbours the curve is near the chord unless that piece is as short as the depth cap allows. */
  ghost predicate Follows(whole: Cubic, pts: seq<Point>, ts: seq<real>, tolSq: real) {
    && |pts| == |ts| >= 2
    && (forall i :: 0 <= i < |ts| ==> pts[i] == At(whole, ts[i]) && Dyadic(ts[i], MAX_SUBDIVISION_DEPTH))
    && (forall i :: 0 <= i < |ts| - 1 ==> ts[i] < ts[i + 1])
    && (forall i :: 0 <= i < |ts| - 1 ==>
          || ts[i + 1] - ts[i] == Width(MAX_SUBDIVISION_DEPTH)
          || NearThroughout(whole, ts[i], ts[i + 1], pts[i], pts[i + 1], tolSq))
  }

  /** The parameters of the interior points. */
  function Params(flat: Cubic -> bool, k: Cubic, lo: real, depth: nat): seq<real>
    decreases MAX_SUBDIVISION_DEPTH - depth
  {
    if depth >= MAX_SUBDIVISION_DEPTH || flat(k) then []
    else
      var mid := lo + Width(depth + 1);
      Params(flat, LeftHalf(k), lo, depth + 1) + [mid] + Params(flat, RightHalf(k), mid, depth + 1)
  }

  lemma {:induction false} DyadicDeeper(t: real, depth: nat, deeper: nat)
    requires Dyadic(t, depth) && depth <= deeper
    ensures Dyadic(t, deeper)
    decreases deeper - depth
  {
    if depth < deeper {
      var m: int :| t == Grid(m, depth);
      assert Grid(m, depth) == Grid(2 * m, depth + 1);
      DyadicDeeper(t, depth + 1, deeper);
    }
  }

  lemma DyadicNext(lo: real, depth: nat)
    requires Dyadic(lo, depth)
    ensures Dyadic(lo + Width(depth), depth)
  {
    var m: int :| lo == Grid(m, depth);
    assert Grid(m, depth) + Width(depth) == Grid(m + 1, depth);
  }

  lemma JoinFollows(whole: Cubic, pts: seq<Point>, ts: seq<real>, pts': seq<Point>, ts': seq<real>, tolSq: real)
    requires Follows(whole, pts, ts, tolSq) && Follows(whole, pts', ts', tolSq)
    requires ts[|ts| - 1] == ts'[0] && pts[|pts| - 1] == pts'[0]
    ensures Follows(whole, pts + pts'[1..], ts + ts'[1..], tolSq)
  {
    hide At, NearThroughout, Dyadic, Width;
    var p, t, n := pts + pts'[1..], ts + ts'[1..], |ts|;
    forall i | 0 <= i < |t|
      ensures p[i] == At(whole, t[i]) && Dyadic(t[i], MAX_SUBDIVISION_DEPTH)
    {
      if i < n {
        assert p[i] == pts[i] && t[i] == ts[i];
      } else {
        assert p[i] == pts'[i - n + 1] && t[i] == ts'[i - n + 1];
      }
    }
    forall i | 0 <= i < |t| - 1
      ensures t[i] < t[i + 1]
      ensures t[i + 1] - t[i] == Width(MAX_SUBDIVISION_DEPTH)
        || NearThroughout(whole, t[i], t[i + 1], p[i], p[i + 1], tolSq)
    {
      if i < n - 1 {
        assert p[i] == pts[i] && t[i] == ts[i] && p[i + 1] == pts[i + 1] && t[i + 1] == ts[i + 1];
      } else {
        var j := i - n + 1;
        assert p[i] == pts'[j] && t[i] == ts'[j] && p[i + 1] == pts'[j + 1] && t[i + 1] == ts'[j + 1];
      }
    }
  }

  lemma EndpointsOnPiece(whole: Cubic, k: Cubic, lo: real, depth: nat)
    requires Piece(whole, k, lo, depth)
    ensures At(whole, lo) == k.p0 && At(whole, lo + Width(depth)) == k.p1
  {
    assert At(k, 0.0) == k.p0 && At(k, 1.0) == k.p1;
    assert Agrees(whole, k, 0.0, lo) && Agrees(whole, k, 1.0, lo + Width(depth));
  }

  lemma LeafFollows(whole: Cubic, k: Cubic, lo: real, depth: nat, tolSq: real)
    requires Piece(whole, k, lo, depth) && Dyadic(lo, depth) && depth <= MAX_SUBDIVISION_DEPTH
    requires depth == MAX_SUBDIVISION_DEPTH || IsFlat(k, tolSq)
    ensures Follows(whole, [k.p0, k.p1], [lo, lo + Width(depth)], tolSq)
  {
    hide At, IsFlat, NearChord, Width, Piece;
    EndpointsOnPiece(whole, k, lo, depth);
    DyadicNext(lo, depth);
    DyadicDeeper(lo, depth, MAX_SUBDIVISION_DEPTH);
    DyadicDeeper(lo + Width(depth), depth, MAX_SUBDIVISION_DEPTH);
    if depth < MAX_SUBDIVISION_DEPTH {
      forall t: real | lo <= t <= lo + Width(depth) ensures NearChord(At(whole, t), k.p0, k.p1, tolSq) {
        var s := ParamOfPiece(whole, k, lo, depth, t);
        FlatStaysNear(k, tolSq, s);
      }
    }
  }

  lemma ParamOfPiece(whole: Cubic, k: Cubic, lo: real, depth: nat, t: real) returns (s: real)
    requires Piece(whole, k, lo, depth) && lo <= t <= lo + Width(depth)
    ensures 0.0 <= s <= 1.0 && At(k, s) == At(whole, t)
  {
    hide Bernstein, Width;
    s := UnitParam(lo, Width(depth), t);
    assert Agrees(whole, k, s, t);
  }

  lemma UnitParam(lo: real, w: real, t: real) returns (s: real)
    requires w > 0.0 && lo <= t <= lo + w
    ensures lo + s * w == t && 0.0 <= s <= 1.0
  {
    s := (t - lo) / w;
  }

  lemma HalvesMeet(k: Cubic)
    ensures LeftHalf(k).p0 == k.p0 && LeftHalf(k).p1 == RightHalf(k).p0 && RightHalf(k).p1 == k.p1
  {
  }

  lemma {:induction false} SubdivisionFollows(whole: Cubic, k: Cubic, lo: real, depth: nat, tolSq: real)
    requires Piece(whole, k, lo, depth) && Dyadic(lo, depth) && depth <= MAX_SUBDIVISION_DEPTH
    ensures Follows(whole, [k.p0] + Interior(FlatTest(tolSq), k, depth) + [k.p1],
                    [lo] + Params(FlatTest(tolSq), k, lo, depth) + [lo + Width(depth)], tolSq)
    decreases MAX_SUBDIVISION_DEPTH - depth
  {
    hide At, IsFlat, LeftHalf, RightHalf, Piece, Dyadic, Follows;
    HalvesMeet(k);
    var flat := FlatTest(tolSq);
    if depth >= MAX_SUBDIVISION_DEPTH || flat(k) {
      LeafFollows(whole, k, lo, depth, tolSq);
      assert [k.p0] + Interior(flat, k, depth) + [k.p1] == [k.p0, k.p1];
      assert [lo] + Params(flat, k, lo, depth) + [lo + Width(depth)] == [lo, lo + Width(depth)];
    } else {
      var l, r, mid := LeftHalf(k), RightHalf(k), lo + Width(depth + 1);
      HalvesArePieces(whole, k, lo, depth);
      DyadicDeeper(lo, depth, depth + 1);
      DyadicNext(lo, depth + 1);
      SubdivisionFollows(whole, l, lo, depth + 1, tolSq);
      SubdivisionFollows(whole, r, mid, depth + 1, tolSq);
      InteriorStep(flat, k, depth);
      ParamsStep(flat, k, lo, depth);
      WidthHalves(depth);
      hide Interior, Params, Width;
      var a, b := Interior(flat, l, depth + 1), Interior(flat, r, depth + 1);
      var c, d := Params(flat, l, lo, depth + 1), Params(flat, r, mid, depth + 1);
      JoinAtMid(whole, a, l.p0, l.p1, b, r.p1, c, lo, mid, d, mid + Width(depth + 1), tolSq);
    }
  }

  lemma ParamsStep(flat: Cubic -> bool, k: Cubic, lo: real, depth: nat)
    requires depth < MAX_SUBDIVISION_DEPTH && !flat(k)
    ensures var mid := lo + Width(depth + 1);
            Params(flat, k, lo, depth) == Params(flat, LeftHalf(k), lo, depth + 1) + [mid]
              + Params(flat, RightHalf(k), mid, depth + 1)
  {
    hide LeftHalf, RightHalf, Width;
  }

  lemma WidthHalves(depth: nat)
    ensures Width(depth) == Width(depth + 1) + Width(depth + 1)
  {
  }

  /** Two polylines that meet at `m` join with `m` once. */
  lemma JoinAtMid(whole: Cubic, a: seq<Point>, p: Point, m: Point, b: seq<Point>, q: Point,
                  c: seq<real>, lo: real, mid: real, d: seq<real>, hi: real, tolSq: real)
    requires Follows(whole, [p] + a + [m], [lo] + c + [mid], tolSq)
    requires Follows(whole, [m] + b + [q], [mid] + d + [hi], tolSq)
    ensures Follows(whole, [p] + (a + [m] + b) + [q], [lo] + (c + [mid] + d) + [hi], tolSq)
  {
    hide At, NearThroughout, Dyadic, Width;
    JoinFollows(whole, [p] + a + [m], [lo] + c + [mid], [m] + b + [q], [mid] + d + [hi], tolSq);
    assert ([p] + a + [m]) + ([m] + b + [q])[1..] == [p] + (a + [m] + b) + [q];
    assert ([lo] + c + [mid]) + ([mid] + d + [hi])[1..] == [lo] + (c + [mid] + d) + [hi];
    hide Follows;
  }

  /** The flattened polyline follows the curve from parameter 0 to parameter 1, within the flatness asked
      for, or within the least one when that is not positive. */
  lemma FlattenErrorBound(k: Cubic, flatness: real) returns (ts: seq<real>)
    ensures flatness > 0.0 ==> Follows(k, Polyline(k, flatness), ts, flatness * flatness)
    ensures flatness <= 0.0 ==> Follows(k, Polyline(k, flatness), ts, MIN_FLATNESS_PX * MIN_FLATNESS_PX)
    ensures ts[0] == 0.0 && ts[|ts| - 1] == 1.0
  {
    hide Interior, Params, IsFlat, Bernstein, Midpoint, Follows;
    var tolSq := TolSq(flatness);
    TolSqIs(flatness);
    assert forall s: real, t: real :: t == 0.0 + s * Width(0) ==> Agrees(k, k, s, t);
    assert 0.0 == Grid(0, 0);
    SubdivisionFollows(k, k, 0.0, 0, tolSq);
    ts := [0.0] + Params(FlatTest(tolSq), k, 0.0, 0) + [0.0 + Width(0)];
    hide TolSq;
    assert Width(0) == 1.0;
  }

  lemma TolSqIs(flatness: real)
    ensures TolSq(flatness) == if flatness > 0.0 then flatness * flatness else MIN_FLATNESS_PX * MIN_FLATNESS_PX
  {
  }

  // ---- Coarser and finer tolerances -----------------------------------------

  lemma EmbedsJoin<T>(s: seq<T>, t: seq<T>, p: seq<nat>, s': seq<T>, t': seq<T>, p': seq<nat>) returns (q: seq<nat>)
    requires Embeds(s, t, p) && Embeds(s', t', p')
    ensures Embeds(s + s', t + t', q)
  {
    q := p + seq(|p'|, i requires 0 <= i < |p'| => p'[i] + |t|);
  }

  lemma {:induction false} FinerKeepsInterior(coarse: Cubic -> bool, fine: Cubic -> bool, k: Cubic, depth: nat)
      returns (pos: seq<nat>)
    requires forall c :: fine(c) ==> coarse(c)
    ensures Embeds(Interior(coarse, k, depth), Interior(fine, k, depth), pos)
    decreases MAX_SUBDIVISION_DEPTH - depth
  {
    hide Midpoint;
    if depth >= MAX_SUBDIVISION_DEPTH || coarse(k) {
      pos := [];
    } else {
      var l, r := LeftHalf(k), RightHalf(k);
      var p := FinerKeepsInterior(coarse, fine, l, depth + 1);
      var q := FinerKeepsInterior(coarse, fine, r, depth + 1);
      assert Embeds([l.p1], [l.p1], [0]);
      pos := EmbedsJoin(Interior(coarse, l, depth + 1), Interior(fine, l, depth + 1), p, [l.p1], [l.p1], [0]);
      pos := EmbedsJoin(Interior(coarse, l, depth + 1) + [l.p1], Interior(fine, l, depth + 1) + [l.p1], pos,
                        Interior(coarse, r, depth + 1), Interior(fine, r, depth + 1), q);
    }
  }

  /** Tightening the tolerance, which for a flatness that is not positive is the least one, only adds
      vertices: the coarser polyline is a subsequence. */
  lemma FinerRefinesCoarser(k: Cubic, coarse: real, fine: real) returns (pos: seq<nat>)
    requires Tolerance(fine) <= Tolerance(coarse)
    ensures Embeds(Polyline(k, coarse), Polyline(k, fine), pos)
  {
    hide Interior, DistSqToSegment, Midpoint;
    var a, b := FlatTest(TolSq(coarse)), FlatTest(TolSq(fine));
    var f, c := Tolerance(fine), Tolerance(coarse);
    MulNonNeg(c - f, c + f);
    assert (c - f) * (c + f) == c * c - f * f;
    assert TolSq(fine) <= TolSq(coarse);
    pos := FinerKeepsInterior(a, b, k, 0);
    assert Embeds([k.p0], [k.p0], [0]) && Embeds([k.p1], [k.p1], [0]);
    pos := EmbedsJoin([k.p0], [k.p0], [0], Interior(a, k, 0), Interior(b, k, 0), pos);
    pos := EmbedsJoin([k.p0] + Interior(a, k, 0), [k.p0] + Interior(b, k, 0), pos, [k.p1], [k.p1], [0]);
  }
}
