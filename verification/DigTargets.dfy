/** Which points the dig-in may pull in, and which it prefers, in terms of determinants and squared distances
    (crates/renderer-core/src/outline.rs, `best_dig_candidate`, `project_t`, `point_segment_distance`). */
module DigTargets {
  import opened Planar
  import CurveLod
  import CurveStops
  import H = ConvexHull
  import C = ConcaveHull

  /** `sqrt` is the root: never negative, and its square gives the argument back. */
  ghost predicate ExactRoot(sqrt: C.Root) {
    forall x: real :: x >= 0.0 ==> sqrt(x) >= 0.0 && sqrt(x) * sqrt(x) == x
  }

  // ---- The distance to an edge ----------------------------------------------

  lemma DistanceIs(sqrt: C.Root, p: Point, a: Point, b: Point)
    ensures C.ProjectT(p, a, b) == CurveLod.SegmentParam(p, a, b)
    ensures C.PointSegmentDistance(sqrt, p, a, b) == sqrt(CurveLod.DistSqToSegment(p, a, b))
  {
    hide *;
    ProjectIs(p, a, b);
    CurveStops.SegmentDist(p, a, b);
    PointDistanceIs(sqrt, p, a, b);
  }

  lemma PointDistanceIs(sqrt: C.Root, p: Point, a: Point, b: Point)
    ensures C.PointSegmentDistance(sqrt, p, a, b) == sqrt(Dist2(p, Lerp(a, b, C.ProjectT(p, a, b))))
  {
    hide Dist2, Lerp, C.ProjectT;
  }

  lemma ProjectIs(p: Point, a: Point, b: Point)
    ensures C.ProjectT(p, a, b) == CurveLod.SegmentParam(p, a, b)
  {
    hide Dot;
  }

  /** No point of the edge is nearer than the distance used. */
  lemma NoNearerPoint(sqrt: C.Root, p: Point, a: Point, b: Point, s: real)
    requires ExactRoot(sqrt) && CurveStops.Measurable(a, b) && 0.0 <= s <= 1.0
    ensures C.PointSegmentDistance(sqrt, p, a, b) <= C.Dist(sqrt, p, Lerp(a, b, s))
  {
    hide *;
    DistanceIs(sqrt, p, a, b);
    CurveStops.NearestOnSegment(p, a, b, s);
    DistIs(sqrt, p, Lerp(a, b, s));
    NotNegative(p, Lerp(a, b, CurveLod.SegmentParam(p, a, b)));
    CurveStops.SegmentDist(p, a, b);
    RootsInOrder(sqrt, CurveLod.DistSqToSegment(p, a, b), Dist2(p, Lerp(a, b, s)));
  }

  lemma DistIs(sqrt: C.Root, p: Point, q: Point)
    ensures C.Dist(sqrt, p, q) == sqrt(Dist2(p, q)) && Dist2(p, q) >= 0.0
  {
    NotNegative(p, q);
  }

  lemma NotNegative(p: Point, q: Point)
    ensures Dist2(p, q) >= 0.0
  {
    CurveLod.SquareNonNeg(p.x - q.x);
    CurveLod.SquareNonNeg(p.y - q.y);
  }

  lemma RootIs(sqrt: C.Root, x: real)
    requires ExactRoot(sqrt) && x >= 0.0
    ensures sqrt(x) >= 0.0 && sqrt(x) * sqrt(x) == x
  {
  }

  lemma RootsInOrder(sqrt: C.Root, x: real, y: real)
    requires ExactRoot(sqrt) && x >= 0.0 && y >= 0.0
    ensures sqrt(x) <= sqrt(y) <==> x <= y
  {
    hide *;
    RootIs(sqrt, x);
    RootIs(sqrt, y);
    SquaresInOrder(sqrt(x), sqrt(y));
  }

  lemma SquaresInOrder(u: real, v: real)
    requires u >= 0.0 && v >= 0.0
    ensures u <= v <==> u * u <= v * v
  {
    if u <= v {
      SquaresApart(v, u);
      MulNonNeg(v - u, v + u);
    } else {
      SquaresApart(u, v);
      MulPositive(u - v, u + v);
    }
  }

  lemma MulPositive(a: real, b: real)
    requires a > 0.0 && b > 0.0
    ensures a * b > 0.0
  {
  }

  lemma SquaresApart(u: real, v: real)
    ensures (u - v) * (u + v) == u * u - v * v
  {
  }

  // ---- The foot of the perpendicular ----------------------------------------

  lemma Lagrange(u: Point, v: Point)
    ensures Dot(u, u) * Dot(v, v) - Dot(u, v) * Dot(u, v) == Det(v, u) * Det(v, u)
  {
    FourProducts(u.x, u.y, v.x, v.y);
  }

  lemma FourProducts(a: real, b: real, c: real, d: real)
    ensures (a * a + b * b) * (c * c + d * d) - (a * c + b * d) * (a * c + b * d) == (c * b - d * a) * (c * b - d * a)
  {
    var p, q, r, s := a * c, b * d, a * d, b * c;
    assert p * q == r * s;
    assert (a * a + b * b) * (c * c + d * d) == p * p + r * r + s * s + q * q;
    BinomialSquares(p, q, s, r);
  }

  lemma BinomialSquares(p: real, q: real, s: real, r: real)
    ensures (p + q) * (p + q) == p * p + 2.0 * (p * q) + q * q
    ensures (s - r) * (s - r) == s * s - 2.0 * (r * s) + r * r
  {
  }

  lemma AtVertex(n: real, d: real, l: real, t: real)
    requires t * l == d
    ensures CurveStops.Parabola(n, d, l, t) * l == n * l - d * d
  {
    assert t * (t * l) == t * d;
    assert CurveStops.Parabola(n, d, l, t) == n - t * d;
    assert t * d * l == d * d;
  }

  /** Squared distance times squared length is the determinant's square, where the foot is on the edge. */
  lemma FootDistance(p: Point, a: Point, b: Point)
    requires Dist2(a, b) > CurveLod.EPSILON && 0.0 <= Dot(Sub(p, a), Sub(b, a)) <= Dist2(a, b)
    ensures CurveLod.DistSqToSegment(p, a, b) * Dist2(a, b) == Cross(a, b, p) * Cross(a, b, p)
  {
    hide *;
    var u, v := Sub(p, a), Sub(b, a);
    var n, d, l, t := Dot(u, u), Dot(u, v), Dot(v, v), CurveLod.SegmentParam(p, a, b);
    LengthIsDot(a, b);
    CurveStops.SegmentDist(p, a, b);
    CurveStops.DistAlong(p, a, b, t);
    CurveStops.ParamIs(p, a, b);
    QuotientTimes(d, l);
    AtVertex(n, d, l, t);
    Lagrange(u, v);
    CrossIsDet(a, b, p);
  }

  lemma QuotientTimes(d: real, l: real)
    requires l > 0.0
    ensures d / l * l == d
  {
  }

  lemma LengthIsDot(a: Point, b: Point)
    ensures Dist2(a, b) == Dot(Sub(b, a), Sub(b, a))
  {
  }

  // ---- Which points may be pulled in ----------------------------------------

  /** `p` is off the hull; its foot on edge `i` keeps a twentieth from both ends; it is nearer to the edge than
      the edge is long; and the edge is no shorter than the threshold. */
  predicate InReach(hull: seq<Point>, threshold: real, i: nat, p: Point)
    requires i < |hull|
  {
    var a, b := hull[i], hull[H.Next(|hull|, i)];
    var l, d := Dist2(a, b), Dot(Sub(p, a), Sub(b, a));
    && l > CurveLod.EPSILON && l >= threshold * threshold
    && p !in hull
    && 0.05 * l <= d <= 0.95 * l
    && -l < Cross(a, b, p) < l
  }

  lemma EligibleIs(sqrt: C.Root, hull: seq<Point>, threshold: real, i: nat, p: Point)
    requires i < |hull|
    ensures var a, b := hull[i], hull[H.Next(|hull|, i)];
            C.Eligible(sqrt, hull, threshold, i, p) ==
              (&& C.Dist(sqrt, a, b) >= threshold && p !in hull && 0.05 <= C.ProjectT(p, a, b) <= 0.95
                    && C.PointSegmentDistance(sqrt, p, a, b) < C.Dist(sqrt, a, b))
  {
    hide C.Dist, C.ProjectT, C.PointSegmentDistance;
  }

  lemma ShortEdge(p: Point, a: Point, b: Point)
    requires Dist2(a, b) <= CurveLod.EPSILON
    ensures CurveLod.SegmentParam(p, a, b) == 0.0
  {
    LengthIsDot(a, b);
    hide Dot, Dist2;
  }

  lemma FootWithin(d: real, l: real)
    requires l > 0.0
    ensures 0.05 * l <= d <= 0.95 * l ==> 0.0 <= d <= l
    ensures var t := if d < 0.0 then 0.0 else if d > l then 1.0 else d / l;
            0.05 <= t <= 0.95 <==> 0.05 * l <= d <= 0.95 * l
  {
    var t := d / l;
    assert t * l == d;
    MulSign(t - 0.05, l);
    MulSign(0.95 - t, l);
    assert (t - 0.05) * l == d - 0.05 * l && (0.95 - t) * l == 0.95 * l - d;
  }

  lemma TimesInOrder(s: real, l: real)
    requires l > 0.0
    ensures s < l <==> s * l < l * l
  {
    MulSign(l - s, l);
    assert (l - s) * l == l * l - s * l;
  }

  lemma SmallerSquare(c: real, l: real)
    requires l > 0.0
    ensures -l < c < l <==> c * c < l * l
  {
    if c >= 0.0 {
      SquaresInOrder(l, c);
    } else {
      SquaresInOrder(l, -c);
      assert -c * -c == c * c;
    }
  }

  lemma NearerThanLong(s: real, l: real, c: real)
    requires l > 0.0 && s * l == c * c
    ensures s < l <==> -l < c < l
  {
    TimesInOrder(s, l);
    SmallerSquare(c, l);
  }

  lemma NearEnoughIff(sqrt: C.Root, p: Point, a: Point, b: Point)
    requires ExactRoot(sqrt) && Dist2(a, b) > CurveLod.EPSILON && 0.0 <= Dot(Sub(p, a), Sub(b, a)) <= Dist2(a, b)
    ensures C.PointSegmentDistance(sqrt, p, a, b) < C.Dist(sqrt, a, b) <==> -Dist2(a, b) < Cross(a, b, p) < Dist2(a, b)
  {
    var l, s := Dist2(a, b), CurveLod.DistSqToSegment(p, a, b);
    hide *;
    DistanceIs(sqrt, p, a, b);
    DistIs(sqrt, a, b);
    EpsilonIsPositive();
    FootDistance(p, a, b);
    CurveStops.SegmentDist(p, a, b);
    NotNegative(p, Lerp(a, b, CurveLod.SegmentParam(p, a, b)));
    RootsInOrder(sqrt, l, s);
    NearerThanLong(s, l, Cross(a, b, p));
  }

  lemma FootIs(p: Point, a: Point, b: Point)
    requires Dist2(a, b) > CurveLod.EPSILON
    ensures var l, d := Dist2(a, b), Dot(Sub(p, a), Sub(b, a));
            && (0.05 * l <= d <= 0.95 * l ==> 0.0 <= d <= l)
            && (0.05 <= CurveLod.SegmentParam(p, a, b) <= 0.95 <==> 0.05 * l <= d <= 0.95 * l)
  {
    hide *;
    EpsilonIsPositive();
    LengthIsDot(a, b);
    CurveStops.ParamIs(p, a, b);
    FootWithin(Dot(Sub(p, a), Sub(b, a)), Dist2(a, b));
  }

  lemma LongEnoughIff(sqrt: C.Root, threshold: real, a: Point, b: Point)
    requires ExactRoot(sqrt) && threshold >= 0.0
    ensures C.Dist(sqrt, a, b) >= threshold <==> Dist2(a, b) >= threshold * threshold
  {
    hide *;
    DistIs(sqrt, a, b);
    RootIs(sqrt, Dist2(a, b));
    SquaresInOrder(threshold, sqrt(Dist2(a, b)));
  }

  /** The points the source may pull in are those whose foot is well inside a long edge and that lie within the edge's
      own length of its line. */
  lemma EligibleIff(sqrt: C.Root, hull: seq<Point>, threshold: real, i: nat, p: Point)
    requires ExactRoot(sqrt) && threshold >= 0.0 && i < |hull|
    ensures C.Eligible(sqrt, hull, threshold, i, p) <==> InReach(hull, threshold, i, p)
  {
    var a, b := hull[i], hull[H.Next(|hull|, i)];
    var l, d := Dist2(a, b), Dot(Sub(p, a), Sub(b, a));
    hide *;
    EligibleIs(sqrt, hull, threshold, i, p);
    ReachIs(hull, threshold, i, p);
    DistanceIs(sqrt, p, a, b);
    LongEnoughIff(sqrt, threshold, a, b);
    if l > CurveLod.EPSILON {
      FootIs(p, a, b);
      if 0.05 * l <= d <= 0.95 * l { NearEnoughIff(sqrt, p, a, b); }
    } else {
      ShortEdge(p, a, b);
    }
  }

  lemma ReachIs(hull: seq<Point>, threshold: real, i: nat, p: Point)
    requires i < |hull|
    ensures var a, b := hull[i], hull[H.Next(|hull|, i)];
            var l, d := Dist2(a, b), Dot(Sub(p, a), Sub(b, a));
            InReach(hull, threshold, i, p) ==
              (&& l > CurveLod.EPSILON && l >= threshold * threshold && p !in hull
                    && 0.05 * l <= d <= 0.95 * l && -l < Cross(a, b, p) < l)
  {
    hide Dist2, Dot, Cross;
  }

  lemma EpsilonIsPositive()
    ensures CurveLod.EPSILON > 0.0
  {
  }

  // ---- Which point is preferred ---------------------------------------------

  function Abs(x: real): real { if x < 0.0 then -x else x }

  lemma EqualSquares(u: real, v: real)
    requires u >= 0.0 && v >= 0.0 && u * u == v * v
    ensures u == v
  {
    SquaresInOrder(u, v);
    SquaresInOrder(v, u);
  }

  lemma ProductOfRoots(u: real, v: real, s: real, l: real, c: real)
    requires u >= 0.0 && v >= 0.0 && u * u == s && v * v == l && s * l == c * c
    ensures u * v == Abs(c)
  {
    assert (u * v) * (u * v) == (u * u) * (v * v);
    assert Abs(c) * Abs(c) == c * c;
    MulNonNeg(u, v);
    EqualSquares(u * v, Abs(c));
  }

  /** Score times length: the squared length less twice the area of the triangle on the edge and the point. */
  lemma ScoreIs(sqrt: C.Root, hull: seq<Point>, threshold: real, i: nat, p: Point, a: Point, b: Point, e: real)
    requires ExactRoot(sqrt) && i < |hull| && InReach(hull, threshold, i, p)
    requires a == hull[i] && b == hull[H.Next(|hull|, i)] && e == C.EdgeLength(sqrt, hull, i)
    ensures e > 0.0 && e == sqrt(Dist2(a, b))
    ensures C.Score(sqrt, hull, i, p) * e == Dist2(a, b) - Abs(Cross(a, b, p))
  {
    hide *;
    ScoreOf(sqrt, hull, i, p);
    ReachFoot(hull, threshold, i, p);
    DistIs(sqrt, a, b);
    var d := C.PointSegmentDistance(sqrt, p, a, b);
    DistanceTimesLength(sqrt, p, a, b, e, d);
    ScoreTimesLength(C.Score(sqrt, hull, i, p), e, d, Dist2(a, b), Abs(Cross(a, b, p)));
  }

  lemma ReachFoot(hull: seq<Point>, threshold: real, i: nat, p: Point)
    requires i < |hull| && InReach(hull, threshold, i, p)
    ensures var a, b := hull[i], hull[H.Next(|hull|, i)];
            Dist2(a, b) > CurveLod.EPSILON && 0.0 <= Dot(Sub(p, a), Sub(b, a)) <= Dist2(a, b)
  {
    var a, b := hull[i], hull[H.Next(|hull|, i)];
    hide *;
    ReachIs(hull, threshold, i, p);
    FootIs(p, a, b);
  }

  lemma DistanceTimesLength(sqrt: C.Root, p: Point, a: Point, b: Point, e: real, d: real)
    requires ExactRoot(sqrt) && Dist2(a, b) > CurveLod.EPSILON && 0.0 <= Dot(Sub(p, a), Sub(b, a)) <= Dist2(a, b)
    requires e == C.Dist(sqrt, a, b) && d == C.PointSegmentDistance(sqrt, p, a, b)
    ensures e > 0.0 && e * e == Dist2(a, b) && d * e == Abs(Cross(a, b, p))
  {
    var l, s := Dist2(a, b), CurveLod.DistSqToSegment(p, a, b);
    hide *;
    DistanceIs(sqrt, p, a, b);
    DistIs(sqrt, a, b);
    EpsilonIsPositive();
    RootIs(sqrt, l);
    PositiveRoot(e, l);
    FootDistance(p, a, b);
    CurveStops.SegmentDist(p, a, b);
    NotNegative(p, Lerp(a, b, CurveLod.SegmentParam(p, a, b)));
    RootIs(sqrt, s);
    ProductOfRoots(d, e, s, l, Cross(a, b, p));
  }

  lemma ScoreTimesLength(score: real, e: real, d: real, l: real, c: real)
    requires score == e - d && e * e == l && d * e == c
    ensures score * e == l - c
  {
  }

  lemma PositiveRoot(u: real, l: real)
    requires u >= 0.0 && u * u == l
    ensures l > 0.0 ==> u > 0.0
  {
    if u == 0.0 { assert u * u == 0.0; }
  }

  lemma ScoreOf(sqrt: C.Root, hull: seq<Point>, i: nat, p: Point)
    requires i < |hull|
    ensures var a, b := hull[i], hull[H.Next(|hull|, i)];
            && C.EdgeLength(sqrt, hull, i) == C.Dist(sqrt, a, b)
            && C.Score(sqrt, hull, i, p) == C.Dist(sqrt, a, b) - C.PointSegmentDistance(sqrt, p, a, b)
  {
    hide C.Dist, C.PointSegmentDistance;
  }

  /** On its edge the point pulled in is nearest to the line, and on equal edges the nearest of both. */
  lemma BestIsNearest(sqrt: C.Root, hull: seq<Point>, points: seq<Point>, threshold: real, edge: nat, p: Point, at: nat,
                      other: nat, k: nat, a: Point, b: Point, c: Point, d: Point)
    requires ExactRoot(sqrt) && threshold >= 0.0 && C.BestAt(sqrt, hull, points, threshold, edge, p, at)
    requires other < |hull| && k < |points| && InReach(hull, threshold, other, points[k])
    requires a == hull[edge] && b == hull[H.Next(|hull|, edge)] && c == hull[other] && d == hull[H.Next(|hull|, other)]
    requires Dist2(a, b) == Dist2(c, d)
    ensures InReach(hull, threshold, edge, p) && Abs(Cross(a, b, p)) <= Abs(Cross(c, d, points[k]))
  {
    hide *;
    EligibleIff(sqrt, hull, threshold, other, points[k]);
    BestBeats(sqrt, hull, points, threshold, edge, p, at, other, k);
    EligibleIff(sqrt, hull, threshold, edge, p);
    var e := C.EdgeLength(sqrt, hull, edge);
    ScoreIs(sqrt, hull, threshold, edge, p, a, b, e);
    ScoreIs(sqrt, hull, threshold, other, points[k], c, d, C.EdgeLength(sqrt, hull, other));
    SameLength(e, C.Score(sqrt, hull, edge, p), C.Score(sqrt, hull, other, points[k]));
  }

  lemma SameLength(e: real, u: real, v: real)
    requires e > 0.0 && v <= u
    ensures v * e <= u * e
  {
    MulNonNeg(u - v, e);
    assert (u - v) * e == u * e - v * e;
  }

  lemma BestBeats(sqrt: C.Root, hull: seq<Point>, points: seq<Point>, threshold: real, edge: nat, p: Point, at: nat,
                  other: nat, k: nat)
    requires C.BestAt(sqrt, hull, points, threshold, edge, p, at)
    requires other < |hull| && k < |points| && C.Eligible(sqrt, hull, threshold, other, points[k])
    ensures edge < |hull| && C.Eligible(sqrt, hull, threshold, edge, p)
    ensures C.Score(sqrt, hull, other, points[k]) <= C.Score(sqrt, hull, edge, p)
  {
    hide C.Eligible, C.Score;
  }
}
