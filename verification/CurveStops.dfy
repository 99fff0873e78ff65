/** Where the adaptive flattening stops and where it has to go on
    (crates/renderer-core/src/curve_lod.rs, `subdivide`, `is_flat`, `dist_sq_to_segment`). */
module CurveStops {
  import opened Planar
  import opened CurveLod

  // ---- The nearest point of a chord -----------------------------------------

  /** The chord is long enough for the projection, or no chord at all. */
  predicate Measurable(a: Point, b: Point) { Dist2(a, b) > EPSILON || a == b }

  /** The squared distance along a chord, as a function of the parameter. */
  function Parabola(n: real, d: real, l: real, s: real): real { n - 2.0 * (s * d) + s * (s * l) }

  lemma DistAlong(p: Point, a: Point, b: Point, s: real)
    ensures Dist2(p, Lerp(a, b, s))
         == Parabola(Dot(Sub(p, a), Sub(p, a)), Dot(Sub(p, a), Sub(b, a)), Dot(Sub(b, a), Sub(b, a)), s)
  {
    var u, v := Sub(p, a), Sub(b, a);
    AlongIs(p, a, b, s);
    SquareOfDifference(u.x, v.x, s);
    SquareOfDifference(u.y, v.y, s);
    hide Dist2, Lerp, Sub;
    SumOfParabolas(u, v, s);
  }

  lemma AlongIs(p: Point, a: Point, b: Point, s: real)
    ensures var u, v := Sub(p, a), Sub(b, a);
            Dist2(p, Lerp(a, b, s)) == (u.x - v.x * s) * (u.x - v.x * s) + (u.y - v.y * s) * (u.y - v.y * s)
  {
    var u, v := Sub(p, a), Sub(b, a);
    assert p.x - Lerp(a, b, s).x == u.x - v.x * s && p.y - Lerp(a, b, s).y == u.y - v.y * s;
  }

  lemma SumOfParabolas(u: Point, v: Point, s: real)
    ensures (u.x * u.x - 2.0 * (s * (u.x * v.x)) + s * (s * (v.x * v.x)))
            + (u.y * u.y - 2.0 * (s * (u.y * v.y)) + s * (s * (v.y * v.y)))
         == Parabola(Dot(u, u), Dot(u, v), Dot(v, v), s)
  {
    assert s * (u.x * v.x) + s * (u.y * v.y) == s * Dot(u, v);
    assert s * (s * (v.x * v.x)) + s * (s * (v.y * v.y)) == s * (s * Dot(v, v));
  }

  lemma SquareOfDifference(u: real, v: real, s: real)
    ensures (u - v * s) * (u - v * s) == u * u - 2.0 * (s * (u * v)) + s * (s * (v * v))
  {
  }

  /** A parabola that opens upwards is least at its vertex, or at the end of the unit interval nearer to it. */
  lemma ClampedVertexIsLeast(n: real, d: real, l: real, t: real, s: real)
    requires l > 0.0 && 0.0 <= s <= 1.0
    requires t == if d < 0.0 then 0.0 else if d > l then 1.0 else d / l
    ensures Parabola(n, d, l, t) <= Parabola(n, d, l, s)
  {
    if d < 0.0 {
      MulNonNeg(s, -d);
      MulNonNeg(s, s);
      MulNonNeg(s * s, l);
    } else if d > l {
      MulNonNeg(1.0 - s, d - l);
      MulNonNeg(1.0 - s, 1.0 - s);
      MulNonNeg((1.0 - s) * (1.0 - s), l);
      assert (1.0 - s) * (1.0 - s) * l == l - 2.0 * (s * l) + s * (s * l);
      assert (1.0 - s) * (d - l) == d - l - s * d + s * l;
    } else {
      assert t * l == d;
      SquareNonNeg(s - t);
      MulNonNeg((s - t) * (s - t), l);
      assert (s - t) * (s - t) * l == s * (s * l) - 2.0 * (s * (t * l)) + t * (t * l);
    }
  }

  lemma ParamIs(p: Point, a: Point, b: Point)
    requires Dist2(a, b) > EPSILON
    ensures var d, l := Dot(Sub(p, a), Sub(b, a)), Dot(Sub(b, a), Sub(b, a));
            l > 0.0 && SegmentParam(p, a, b) == if d < 0.0 then 0.0 else if d > l then 1.0 else d / l
  {
    var d, l := Dot(Sub(p, a), Sub(b, a)), Dot(Sub(b, a), Sub(b, a));
    assert l == Dist2(a, b);
    ClampIs(p, a, b);
    hide Dot, Dist2, SegmentParam;
    QuotientInUnit(d, l);
  }

  lemma ClampIs(p: Point, a: Point, b: Point)
    ensures var d, l := Dot(Sub(p, a), Sub(b, a)), Dot(Sub(b, a), Sub(b, a));
            SegmentParam(p, a, b)
              == if l <= EPSILON then 0.0 else if d / l < 0.0 then 0.0 else if d / l > 1.0 then 1.0 else d / l
  {
    hide Dot;
  }

  lemma QuotientInUnit(d: real, l: real)
    requires l > 0.0
    ensures d / l < 0.0 <==> d < 0.0
    ensures d / l > 1.0 <==> d > l
  {
    SignOfQuotient(d / l, d, l);
  }

  lemma SignOfQuotient(t: real, d: real, l: real)
    requires l > 0.0 && t * l == d
    ensures (t < 0.0 <==> d < 0.0) && (t > 1.0 <==> d > l)
  {
    MulSign(t, l);
    MulSign(t - 1.0, l);
    assert (t - 1.0) * l == t * l - l;
  }

  /** The distance the test uses is that to the nearest point of the chord. */
  lemma NearestOnSegment(p: Point, a: Point, b: Point, s: real)
    requires Measurable(a, b) && 0.0 <= s <= 1.0
    ensures DistSqToSegment(p, a, b) <= Dist2(p, Lerp(a, b, s))
  {
    hide *;
    var t := SegmentParam(p, a, b);
    SegmentDist(p, a, b);
    if Dist2(a, b) > EPSILON {
      DistAlong(p, a, b, s);
      DistAlong(p, a, b, t);
      ParamIs(p, a, b);
      ClampedVertexIsLeast(Dot(Sub(p, a), Sub(p, a)), Dot(Sub(p, a), Sub(b, a)), Dot(Sub(b, a), Sub(b, a)), t, s);
    } else {
      NoChord(p, a, b, s);
    }
  }

  lemma SegmentDist(p: Point, a: Point, b: Point)
    ensures DistSqToSegment(p, a, b) == Dist2(p, Lerp(a, b, SegmentParam(p, a, b)))
  {
    hide SegmentParam, Dist2, Lerp;
  }

  lemma NoChord(p: Point, a: Point, b: Point, s: real)
    requires Measurable(a, b) && Dist2(a, b) <= EPSILON
    ensures DistSqToSegment(p, a, b) == Dist2(p, Lerp(a, b, s))
  {
    hide Dist2, SegmentParam, Lerp;
    SegmentDist(p, a, b);
    LerpOfPoint(a, s);
    LerpOfPoint(a, SegmentParam(p, a, b));
  }

  lemma LerpOfPoint(a: Point, s: real)
    ensures Lerp(a, a, s) == a
  {
  }

  lemma NearIff(p: Point, a: Point, b: Point, tolSq: real)
    requires Measurable(a, b)
    ensures DistSqToSegment(p, a, b) <= tolSq <==> NearChord(p, a, b, tolSq)
  {
    hide SegmentParam, Dist2, Lerp, Measurable;
    if s: real :| 0.0 <= s <= 1.0 && Dist2(p, Lerp(a, b, s)) <= tolSq { NearestOnSegment(p, a, b, s); }
    assert DistSqToSegment(p, a, b) == Dist2(p, Lerp(a, b, SegmentParam(p, a, b)));
  }

  // ---- When a piece is left whole -------------------------------------------

  /** Both controls have some chord point within the tolerance. */
  ghost predicate ControlsNear(k: Cubic, tolSq: real) {
    NearChord(k.c1, k.p0, k.p1, tolSq) && NearChord(k.c2, k.p0, k.p1, tolSq)
  }

  /** A piece passes the test exactly when its controls are near its chord; on a chord too short to project on,
      exactly when they are near its start. */
  lemma FlatIff(k: Cubic, tolSq: real)
    ensures Measurable(k.p0, k.p1) ==> (IsFlat(k, tolSq) <==> ControlsNear(k, tolSq))
    ensures !Measurable(k.p0, k.p1) ==> (IsFlat(k, tolSq) <==> Dist2(k.c1, k.p0) <= tolSq && Dist2(k.c2, k.p0) <= tolSq)
  {
    if Measurable(k.p0, k.p1) {
      NearIff(k.c1, k.p0, k.p1, tolSq);
      NearIff(k.c2, k.p0, k.p1, tolSq);
    } else {
      ShortChord(k.c1, k.p0, k.p1);
      ShortChord(k.c2, k.p0, k.p1);
    }
    hide DistSqToSegment, Dist2, NearChord;
  }

  lemma ShortChord(p: Point, a: Point, b: Point)
    requires Dist2(a, b) <= EPSILON
    ensures DistSqToSegment(p, a, b) == Dist2(p, a)
  {
    assert Dist2(a, b) == Dot(Sub(b, a), Sub(b, a));
    assert Lerp(a, b, 0.0) == a;
  }

  /** A curve flattens to its end points alone if and only if its controls are within the flatness of its chord. */
  lemma EndPointsOnlyIff(k: Cubic, flatness: real)
    requires Measurable(k.p0, k.p1) && flatness > 0.0
    ensures Polyline(k, flatness) == [k.p0, k.p1] <==> ControlsNear(k, flatness * flatness)
  {
    hide *;
    var tolSq := flatness * flatness;
    FlatIff(k, tolSq);
    PolylineIs(k, flatness);
    FlatTestIs(tolSq, k);
    InteriorStep(FlatTest(tolSq), k, 0);
    CapIsPositive();
    var inner := Interior(FlatTest(tolSq), k, 0);
    if inner == [] { assert [k.p0] + inner + [k.p1] == [k.p0, k.p1]; }
    assert |[k.p0] + inner + [k.p1]| == |inner| + 2;
  }

  lemma CapIsPositive()
    ensures MAX_SUBDIVISION_DEPTH > 0
  {
  }

  lemma FlatTestIs(tolSq: real, k: Cubic)
    ensures FlatTest(tolSq)(k) == IsFlat(k, tolSq)
  {
    hide IsFlat;
  }

  lemma PolylineIs(k: Cubic, flatness: real)
    requires flatness > 0.0
    ensures Polyline(k, flatness) == [k.p0] + Interior(FlatTest(flatness * flatness), k, 0) + [k.p1]
  {
    TolSqIs(flatness);
    hide Interior, IsFlat, TolSq;
  }

  // ---- Where the interior vertices come from --------------------------------

  /** Some control is farther than the tolerance from every chord point; for a chord too short to project on,
      from its start. */
  ghost predicate Bent(k: Cubic, tolSq: real) {
    if Measurable(k.p0, k.p1) then
      || (forall s: real :: 0.0 <= s <= 1.0 ==> Dist2(k.c1, Lerp(k.p0, k.p1, s)) > tolSq)
      || (forall s: real :: 0.0 <= s <= 1.0 ==> Dist2(k.c2, Lerp(k.p0, k.p1, s)) > tolSq)
    else Dist2(k.c1, k.p0) > tolSq || Dist2(k.c2, k.p0) > tolSq
  }

  lemma BentIff(k: Cubic, tolSq: real)
    ensures Bent(k, tolSq) <==> !IsFlat(k, tolSq)
  {
    FlatIff(k, tolSq);
    hide IsFlat, Dist2, Lerp, Measurable;
  }

  /** `p` is the middle of a bent piece of the curve, above the depth cap. */
  ghost predicate Splits(whole: Cubic, p: Point, tolSq: real) {
    exists c: Cubic, lo: real, depth: nat :: SplitsAt(whole, p, tolSq, c, lo, depth)
  }

  ghost predicate SplitsAt(whole: Cubic, p: Point, tolSq: real, c: Cubic, lo: real, depth: nat) {
    && depth < MAX_SUBDIVISION_DEPTH && Piece(whole, c, lo, depth) && Bent(c, tolSq)
    && p == At(whole, lo + Width(depth + 1))
  }

  lemma MiddleSplits(whole: Cubic, k: Cubic, lo: real, depth: nat, tolSq: real)
    requires Piece(whole, k, lo, depth) && depth < MAX_SUBDIVISION_DEPTH && !IsFlat(k, tolSq)
    ensures Splits(whole, LeftHalf(k).p1, tolSq)
  {
    BentIff(k, tolSq);
    HalvesArePieces(whole, k, lo, depth);
    EndpointsOnPiece(whole, LeftHalf(k), lo, depth + 1);
    hide Piece, Bent, IsFlat, At, LeftHalf;
    assert SplitsAt(whole, LeftHalf(k).p1, tolSq, k, lo, depth);
  }

  lemma {:induction false} InteriorSplits(whole: Cubic, k: Cubic, lo: real, depth: nat, tolSq: real)
    requires Piece(whole, k, lo, depth)
    ensures forall p :: p in Interior(FlatTest(tolSq), k, depth) ==> Splits(whole, p, tolSq)
    decreases MAX_SUBDIVISION_DEPTH - depth
  {
    hide *;
    FlatTestIs(tolSq, k);
    InteriorStep(FlatTest(tolSq), k, depth);
    if depth < MAX_SUBDIVISION_DEPTH && !IsFlat(k, tolSq) {
      HalvesArePieces(whole, k, lo, depth);
      InteriorSplits(whole, LeftHalf(k), lo, depth + 1, tolSq);
      InteriorSplits(whole, RightHalf(k), lo + Width(depth + 1), depth + 1, tolSq);
      MiddleSplits(whole, k, lo, depth, tolSq);
    }
  }

  /** Every interior vertex is there because the piece it halves has a control too far from its chord. */
  lemma EveryVertexIsNeeded(k: Cubic, flatness: real, i: nat)
    requires flatness > 0.0 && 0 < i < |Polyline(k, flatness)| - 1
    ensures Splits(k, Polyline(k, flatness)[i], flatness * flatness)
  {
    hide *;
    WholeIsPiece(k);
    PolylineIs(k, flatness);
    InteriorSplits(k, k, 0.0, 0, flatness * flatness);
    var inner := Interior(FlatTest(flatness * flatness), k, 0);
    assert Polyline(k, flatness)[i] == inner[i - 1];
    assert inner[i - 1] in inner;
  }

  lemma WholeIsPiece(k: Cubic)
    ensures Piece(k, k, 0.0, 0)
  {
    hide At;
    forall s: real, t: real | t == 0.0 + s * Width(0) ensures Agrees(k, k, s, t) {}
  }
}
