/** The dig-in pass over the convex hull and the bounding box of the result
    (crates/renderer-core/src/outline.rs, `concave_hull`, `best_dig_candidate`, `bound`).
    The square root is a parameter: nothing proved here depends on its values. */
module ConcaveHull {
  import opened Sequences
  import opened Planar
  import opened ConvexHull

  type Root = real -> real

  /** Single-precision epsilon, 2 to the power -23. */
  const EPSILON: real := 1.0 / 8388608.0
  const DIG_THRESHOLD_FACTOR: real := 2.5

  function Dist(sqrt: Root, a: Point, b: Point): real { sqrt(Dist2(a, b)) }

  function Clamp01(t: real): real { if t < 0.0 then 0.0 else if t > 1.0 then 1.0 else t }

  function ProjectT(p: Point, a: Point, b: Point): real {
    var ab := Sub(b, a);
    var len2 := Dot(ab, ab);
    if len2 <= EPSILON then 0.0 else Clamp01(Dot(Sub(p, a), ab) / len2)
  }

  function PointSegmentDistance(sqrt: Root, p: Point, a: Point, b: Point): real {
    Dist(sqrt, p, Lerp(a, b, ProjectT(p, a, b)))
  }

  // ---- Picking the edge to dig into -----------------------------------------

  function EdgeLength(sqrt: Root, hull: seq<Point>, i: nat): real
    requires i < |hull|
  {
    Dist(sqrt, hull[i], hull[Next(|hull|, i)])
  }

  /** `p` may be pulled in on edge `i`. */
  predicate Eligible(sqrt: Root, hull: seq<Point>, threshold: real, i: nat, p: Point)
    requires i < |hull|
  {
    var a, b := hull[i], hull[Next(|hull|, i)];
    && EdgeLength(sqrt, hull, i) >= threshold
    && p !in hull
    && 0.05 <= ProjectT(p, a, b) <= 0.95
    && PointSegmentDistance(sqrt, p, a, b) < EdgeLength(sqrt, hull, i)
  }

  function Score(sqrt: Root, hull: seq<Point>, i: nat, p: Point): real
    requires i < |hull|
  {
    EdgeLength(sqrt, hull, i) - PointSegmentDistance(sqrt, p, hull[i], hull[Next(|hull|, i)])
  }

  /** `best` is an eligible pair of highest score among the edges before `m` and, on edge `m`,
      the points before `k`; `None` only if no such pair is eligible. */
  ghost predicate BestSoFar(sqrt: Root, hull: seq<Point>, points: seq<Point>, threshold: real,
                            m: nat, k: nat, best: Option<(nat, Point)>) {
    && (best.Some? ==>
          && best.value.0 < |hull| && best.value.1 in points
          && Eligible(sqrt, hull, threshold, best.value.0, best.value.1))
    && forall i: nat, j: nat | i < |hull| && j < |points| && (i < m || (i == m && j < k))
          && Eligible(sqrt, hull, threshold, i, points[j]) ::
            && best.Some?
            && Score(sqrt, hull, i, points[j]) <= Score(sqrt, hull, best.value.0, best.value.1)
  }

  /** Of several best scores the first in edge order, then point order, wins: every eligible pair
      before the winner, whose point is the one at index `at`, scores less. */
  ghost predicate FirstBest(sqrt: Root, hull: seq<Point>, points: seq<Point>, threshold: real,
                            best: Option<(nat, Point)>, at: nat) {
    best.Some? ==>
      && best.value.0 < |hull| && at < |points| && points[at] == best.value.1
      && forall i: nat, j: nat | i < |hull| && j < |points| && (i < best.value.0 || (i == best.value.0 && j < at))
               && Eligible(sqrt, hull, threshold, i, points[j]) ::
           Score(sqrt, hull, i, points[j]) < Score(sqrt, hull, best.value.0, best.value.1)
  }

  lemma NewBest(sqrt: Root, hull: seq<Point>, points: seq<Point>, threshold: real, m: nat, k: nat,
                best: Option<(nat, Point)>)
    requires m < |hull| && k < |points| && BestSoFar(sqrt, hull, points, threshold, m, k, best)
    requires best.None? || Score(sqrt, hull, m, points[k]) > Score(sqrt, hull, best.value.0, best.value.1)
    ensures FirstBest(sqrt, hull, points, threshold, Some((m, points[k])), k)
  {
    hide Eligible, Score;
  }

  /** The eligible edge and point of the highest score, edge length minus distance, and the first such. */
  method BestDigCandidate(sqrt: Root, hull: seq<Point>, points: seq<Point>, threshold: real)
    returns (best: Option<(nat, Point)>, ghost at: nat)
    ensures BestSoFar(sqrt, hull, points, threshold, |hull|, 0, best)
    ensures FirstBest(sqrt, hull, points, threshold, best, at)
  {
    best, at := None, 0;
    for i := 0 to |hull|
      invariant BestSoFar(sqrt, hull, points, threshold, i, 0, best)
      invariant FirstBest(sqrt, hull, points, threshold, best, at)
    {
      var a, b := hull[i], hull[Next(|hull|, i)];
      var edgeLen := Dist(sqrt, a, b);
      if edgeLen < threshold {
        continue;
      }
      for k := 0 to |points|
        invariant BestSoFar(sqrt, hull, points, threshold, i, k, best)
        invariant FirstBest(sqrt, hull, points, threshold, best, at)
      {
        var p := points[k];
        if p in hull {
          continue;
        }
        var t := ProjectT(p, a, b);
        if !(0.05 <= t <= 0.95) {
          continue;
        }
        var d := PointSegmentDistance(sqrt, p, a, b);
        if d >= edgeLen {
          continue;
        }
        var score := edgeLen - d;
        if best.None? || score > Score(sqrt, hull, best.value.0, best.value.1) {
          NewBest(sqrt, hull, points, threshold, i, k, best);
          best, at := Some((i, p)), k;
        }
      }
    }
  }

  /** `d` is the squared distance from point `i` to its nearest other point. */
  ghost predicate IsNearest(points: seq<Point>, i: nat, d: real)
    requires i < |points|
  {
    && (forall j :: 0 <= j < |points| && j != i ==> d <= Dist2(points[i], points[j]))
    && (exists j :: 0 <= j < |points| && j != i && d == Dist2(points[i], points[j]))
  }

  method NearestOther(points: seq<Point>, i: nat) returns (d: real)
    requires |points| >= 2 && i < |points|
    ensures IsNearest(points, i, d)
  {
    var least: Option<real> := None;
    for j := 0 to |points|
      invariant forall b :: 0 <= b < j && b != i ==> least.Some? && least.value <= Dist2(points[i], points[b])
      invariant least.Some? ==> exists b :: 0 <= b < j && b != i && least.value == Dist2(points[i], points[b])
    {
      if i != j {
        var e := Dist2(points[i], points[j]);
        least := Some(if least.None? then e else MinReal(least.value, e));
      }
    }
    assert Dist2(points[i], points[if i == 0 then 1 else 0]) >= least.value;
    d := least.value;
  }

  /** Mean distance to the nearest other point; `nearest` lists the squared distances. */
  method MeanNearestNeighbor(sqrt: Root, points: seq<Point>) returns (mean: real, ghost nearest: seq<real>)
    ensures |points| < 2 ==> mean == 0.0
    ensures |points| >= 2 ==>
              && |nearest| == |points|
              && (forall i: nat :: i < |points| ==> IsNearest(points, i, nearest[i]))
              && mean == SumRoots(sqrt, nearest) / |points| as real
  {
    var total := 0.0;
    nearest := [];
    if |points| < 2 {
      return 0.0, [];
    }
    for i := 0 to |points|
      invariant |nearest| == i && total == SumRoots(sqrt, nearest)
      invariant forall a: nat :: a < i ==> IsNearest(points, a, nearest[a])
    {
      var d := NearestOther(points, i);
      total := total + sqrt(d);
      nearest := nearest + [d];
      assert nearest[..i] + [d] == nearest && nearest[..|nearest| - 1] == nearest[..i];
    }
    mean := total / |points| as real;
  }

  function SumRoots(sqrt: Root, s: seq<real>): real {
    if s == [] then 0.0 else SumRoots(sqrt, s[..|s| - 1]) + sqrt(s[|s| - 1])
  }

  /** The mean adds one root per point: additive over any split, and one distance contributes its root. */
  lemma {:induction false} SumRootsSplit(sqrt: Root, s: seq<real>, t: seq<real>, d: real)
    ensures SumRoots(sqrt, s + t) == SumRoots(sqrt, s) + SumRoots(sqrt, t)
    ensures SumRoots(sqrt, [d]) == sqrt(d)
  {
    if t == [] {
      assert s + t == s;
    } else {
      var n := |t| - 1;
      assert (s + t)[..|s + t| - 1] == s + t[..n];
      SumRootsSplit(sqrt, s, t[..n], d);
    }
    assert [d][..0] == [];
  }

  // ---- The dig-in loop ------------------------------------------------------

  /** Insertion keeps every vertex of `s` and their order. */
  lemma InsertKeepsEmbedding(s: seq<Point>, t: seq<Point>, pos: seq<nat>, k: nat, x: Point) returns (pos': seq<nat>)
    requires Embeds(s, t, pos) && k <= |t|
    ensures Embeds(s, InsertAt(t, k, x), pos')
    ensures |s| > 0 && pos[0] < k ==> pos'[0] == pos[0]
  {
    pos' := seq(|pos|, i requires 0 <= i < |pos| => if pos[i] < k then pos[i] else pos[i] + 1);
  }

  lemma HullDistinct(hull: seq<Point>, points: seq<Point>)
    requires IsConvexHull(hull, points)
    ensures Distinct(hull)
  {
    forall i, k | 0 <= i < k < |hull| ensures hull[i] != hull[k] {
      if k == Next(|hull|, i) {
        assert Cross(hull[k], hull[Next(|hull|, k)], hull[i]) > 0.0;
      } else {
        assert Cross(hull[i], hull[Next(|hull|, i)], hull[k]) > 0.0;
      }
    }
  }

  /** No input point is left that could be pulled in. */
  ghost predicate DugOut(sqrt: Root, hull: seq<Point>, points: seq<Point>, threshold: real) {
    forall i: nat, k: nat :: i < |hull| && k < |points| ==> !Eligible(sqrt, hull, threshold, i, points[k])
  }

  /** What the dig-in keeps of the convex hull it started from. */
  ghost predicate DugFrom(convex: seq<Point>, hull: seq<Point>, points: seq<Point>, pos: seq<nat>) {
    && Distinct(hull) && (forall p :: p in hull ==> p in points)
    && Embeds(convex, hull, pos) && |pos| > 0 && pos[0] == 0
  }

  lemma DigStep(convex: seq<Point>, hull: seq<Point>, points: seq<Point>, pos: seq<nat>, k: nat, x: Point)
    returns (pos': seq<nat>)
    requires DugFrom(convex, hull, points, pos) && 0 < k <= |hull| && x in points && x !in hull
    ensures DugFrom(convex, InsertAt(hull, k, x), points, pos')
    ensures |hull| + 1 <= |points|
  {
    DistinctInsert(hull, k, x);
    pos' := InsertKeepsEmbedding(convex, hull, pos, k, x);
    DistinctFits(InsertAt(hull, k, x), points);
  }

  lemma EligibleIsOff(sqrt: Root, hull: seq<Point>, threshold: real, i: nat, p: Point)
    requires i < |hull| && Eligible(sqrt, hull, threshold, i, p)
    ensures p !in hull
  {
  }

  /** `p`, the first point of the highest score over all edges, is to go onto edge `edge`. */
  ghost predicate BestAt(sqrt: Root, hull: seq<Point>, points: seq<Point>, threshold: real, edge: nat, p: Point,
                         at: nat) {
    && edge < |hull|
    && BestSoFar(sqrt, hull, points, threshold, |hull|, 0, Some((edge, p)))
    && FirstBest(sqrt, hull, points, threshold, Some((edge, p)), at)
  }

  /** `after` goes round `before` and visits `p` between the ends of its edge `edge`. */
  predicate Between(before: seq<Point>, edge: nat, p: Point, after: seq<Point>) {
    && edge < |before| && |after| == |before| + 1
    && after[..edge + 1] == before[..edge + 1] && after[edge + 1] == p && after[edge + 2..] == before[edge + 1..]
  }

  /** One pass over `before` leads to `after`. */
  ghost predicate Digs(sqrt: Root, points: seq<Point>, threshold: real, before: seq<Point>, after: seq<Point>) {
    exists edge: nat, p: Point, at: nat ::
      BestAt(sqrt, before, points, threshold, edge, p, at) && Between(before, edge, p, after)
  }

  /** The passes from the convex hull, each the best one open to it, up to one that finds nothing. */
  ghost predicate DigRun(sqrt: Root, points: seq<Point>, threshold: real, run: seq<seq<Point>>) {
    && run != []
    && (forall i :: 0 <= i < |run| - 1 ==> Digs(sqrt, points, threshold, run[i], run[i + 1]))
    && DugOut(sqrt, run[|run| - 1], points, threshold)
  }

  lemma DigsOneWay(sqrt: Root, points: seq<Point>, threshold: real, h: seq<Point>, a: seq<Point>, b: seq<Point>)
    requires Digs(sqrt, points, threshold, h, a) && Digs(sqrt, points, threshold, h, b)
    ensures a == b
  {
    hide Eligible, Score;
    var e: nat, p: Point, j: nat :| BestAt(sqrt, h, points, threshold, e, p, j) && Between(h, e, p, a);
    var f: nat, q: Point, k: nat :| BestAt(sqrt, h, points, threshold, f, q, k) && Between(h, f, q, b);
    OneBest(sqrt, h, points, threshold, e, p, j, f, q, k);
    assert a == a[..e + 1] + [a[e + 1]] + a[e + 2..];
    assert b == b[..e + 1] + [b[e + 1]] + b[e + 2..];
  }

  lemma OneBest(sqrt: Root, h: seq<Point>, points: seq<Point>, threshold: real, e: nat, p: Point, j: nat, f: nat,
                q: Point, k: nat)
    requires BestAt(sqrt, h, points, threshold, e, p, j) && BestAt(sqrt, h, points, threshold, f, q, k)
    ensures e == f && p == q
  {
    hide Eligible, Score;
    assert points[j] == p && points[k] == q;
    assert Score(sqrt, h, f, points[k]) <= Score(sqrt, h, e, p) && Score(sqrt, h, e, points[j]) <= Score(sqrt, h, f, q);
  }

  lemma NoneLeft(sqrt: Root, points: seq<Point>, threshold: real, h: seq<Point>, a: seq<Point>)
    requires DugOut(sqrt, h, points, threshold)
    ensures !Digs(sqrt, points, threshold, h, a)
  {
    hide Eligible, Score, Between;
  }

  lemma {:induction false} RunsAgree(sqrt: Root, points: seq<Point>, threshold: real, r: seq<seq<Point>>,
                                     t: seq<seq<Point>>, i: nat)
    requires DigRun(sqrt, points, threshold, r) && DigRun(sqrt, points, threshold, t) && r[0] == t[0]
    requires i < |r| && i < |t|
    ensures r[i] == t[i]
  {
    hide Digs, DugOut;
    if i > 0 {
      RunsAgree(sqrt, points, threshold, r, t, i - 1);
      DigsOneWay(sqrt, points, threshold, r[i - 1], r[i - 1 + 1], t[i - 1 + 1]);
    }
  }

  /** The convex hull, the points and the threshold admit one run, so one outline. */
  lemma DigRunIsDetermined(sqrt: Root, points: seq<Point>, threshold: real, r: seq<seq<Point>>, t: seq<seq<Point>>)
    requires DigRun(sqrt, points, threshold, r) && DigRun(sqrt, points, threshold, t) && r[0] == t[0]
    ensures r == t
  {
    hide Digs, DugOut;
    var n := Min(|r|, |t|);
    forall i | 0 <= i < n ensures r[i] == t[i] { RunsAgree(sqrt, points, threshold, r, t, i); }
    if |r| > n { NoneLeft(sqrt, points, threshold, r[n - 1], r[n - 1 + 1]); }
    if |t| > n { NoneLeft(sqrt, points, threshold, t[n - 1], t[n - 1 + 1]); }
  }

  /** The bounded loop. The bound never stops it: it ends with nothing left to pull in. */
  method DigIn(sqrt: Root, convex: seq<Point>, points: seq<Point>, threshold: real)
    returns (hull: seq<Point>, ghost pos: seq<nat>, ghost run: seq<seq<Point>>)
    requires convex != [] && Distinct(convex) && forall p :: p in convex ==> p in points
    ensures DugFrom(convex, hull, points, pos)
    ensures DugOut(sqrt, hull, points, threshold)
    ensures DigRun(sqrt, points, threshold, run) && run[0] == convex && run[|run| - 1] == hull
  {
    hide Eligible, Score;
    hull, run := convex, [convex];
    pos := seq(|hull|, i requires 0 <= i < |hull| => i);
    DistinctFits(hull, points);
    var maxPasses := |points| * 2;
    for pass := 0 to maxPasses
      invariant |hull| == |convex| + pass && |hull| <= |points|
      invariant DugFrom(convex, hull, points, pos)
      invariant |run| == pass + 1 && run[0] == convex && run[pass] == hull
      invariant forall i :: 0 <= i < pass ==> Digs(sqrt, points, threshold, run[i], run[i + 1])
    {
      hide Digs;
      var best, at := BestDigCandidate(sqrt, hull, points, threshold);
      if best.None? {
        return;
      }
      var (edge, p) := best.value;
      assert best == Some((edge, p));
      EligibleIsOff(sqrt, hull, threshold, edge, p);
      pos := DigStep(convex, hull, points, pos, edge + 1, p);
      GoesBetween(sqrt, points, threshold, hull, edge, p, at);
      hull := InsertAt(hull, edge + 1, p);
      run := run + [hull];
    }
  }

  lemma GoesBetween(sqrt: Root, points: seq<Point>, threshold: real, h: seq<Point>, edge: nat, p: Point, at: nat)
    requires BestAt(sqrt, h, points, threshold, edge, p, at)
    ensures Digs(sqrt, points, threshold, h, InsertAt(h, edge + 1, p))
  {
    hide BestSoFar, FirstBest;
    assert Between(h, edge, p, InsertAt(h, edge + 1, p));
  }

  /** Two and a half times the mean spacing, floored by the tolerance and by epsilon. */
  ghost predicate IsThreshold(sqrt: Root, points: seq<Point>, tol: real, threshold: real) {
    exists nearest: seq<real> ::
      && |nearest| == |points| > 0
      && (forall i: nat :: i < |points| ==> IsNearest(points, i, nearest[i]))
      && threshold == MaxReal(MaxReal(SumRoots(sqrt, nearest) / |points| as real, tol), EPSILON) * DIG_THRESHOLD_FACTOR
  }

  lemma {:induction false} EqualRoots(sqrt: Root, s: seq<real>, d: real)
    requires forall i :: 0 <= i < |s| ==> s[i] == d
    ensures SumRoots(sqrt, s) == |s| as real * sqrt(d)
  {
    if s != [] {
      var n := |s| - 1;
      EqualRoots(sqrt, s[..n], d);
      OneMore(n, sqrt(d));
    }
  }

  lemma OneMore(n: nat, r: real)
    ensures n as real * r + r == (n + 1) as real * r
  {
  }

  lemma MeanOfEqual(n: nat, r: real, sum: real)
    requires n > 0 && sum == n as real * r
    ensures sum / n as real == r
  {
  }

  /** Where every point has its nearest neighbour at one spacing, edges from two and a half times that on are dug,
      but for a spacing below the tolerance or epsilon. */
  lemma EvenSpacing(sqrt: Root, points: seq<Point>, tol: real, threshold: real, d: real)
    requires IsThreshold(sqrt, points, tol, threshold) && forall i: nat :: i < |points| ==> IsNearest(points, i, d)
    ensures threshold >= 2.5 * sqrt(d) && threshold >= 2.5 * tol && threshold >= 2.5 / 8388608.0
    ensures threshold == 2.5 * sqrt(d) || threshold == 2.5 * tol || threshold == 2.5 / 8388608.0
  {
    hide *;
    var nearest := ThresholdOf(sqrt, points, tol, threshold);
    forall i | 0 <= i < |nearest| ensures nearest[i] == d { OneNearest(points, i, nearest[i], d); }
    MeanRoots(sqrt, nearest, d);
    LargestOfThree(sqrt(d), tol, threshold);
  }

  lemma ThresholdOf(sqrt: Root, points: seq<Point>, tol: real, threshold: real) returns (nearest: seq<real>)
    requires IsThreshold(sqrt, points, tol, threshold)
    ensures |nearest| == |points| > 0 && forall i: nat :: i < |points| ==> IsNearest(points, i, nearest[i])
    ensures threshold
         == MaxReal(MaxReal(SumRoots(sqrt, nearest) / |nearest| as real, tol), EPSILON) * DIG_THRESHOLD_FACTOR
  {
    hide SumRoots, MaxReal, IsNearest;
    nearest :|
      && |nearest| == |points| > 0
      && (forall i: nat :: i < |points| ==> IsNearest(points, i, nearest[i]))
      && threshold
           == MaxReal(MaxReal(SumRoots(sqrt, nearest) / |points| as real, tol), EPSILON) * DIG_THRESHOLD_FACTOR;
  }

  lemma MeanRoots(sqrt: Root, s: seq<real>, d: real)
    requires s != [] && forall i :: 0 <= i < |s| ==> s[i] == d
    ensures SumRoots(sqrt, s) / |s| as real == sqrt(d)
  {
    hide SumRoots;
    EqualRoots(sqrt, s, d);
    MeanOfEqual(|s|, sqrt(d), SumRoots(sqrt, s));
  }

  lemma OneNearest(points: seq<Point>, i: nat, d: real, e: real)
    requires i < |points| && IsNearest(points, i, d) && IsNearest(points, i, e)
    ensures d == e
  {
  }

  lemma LargestOfThree(mean: real, tol: real, threshold: real)
    requires threshold == MaxReal(MaxReal(mean, tol), EPSILON) * DIG_THRESHOLD_FACTOR
    ensures threshold >= 2.5 * mean && threshold >= 2.5 * tol && threshold >= 2.5 / 8388608.0
    ensures threshold == 2.5 * mean || threshold == 2.5 * tol || threshold == 2.5 / 8388608.0
  {
  }

  /** `convex` is what the dig-in starts from and `threshold` its edge length limit. */
  method ConcaveHull(sqrt: Root, points: seq<Point>, tol: real)
    returns (hull: seq<Point>, ghost convex: seq<Point>, ghost pos: seq<nat>, ghost threshold: real,
             ghost run: seq<seq<Point>>)
    ensures Collinear(points) ==> |hull| <= 2
    ensures forall p :: p in hull ==> p in points
    ensures !Collinear(points) ==>
              && IsConvexHull(convex, points)
              && DugFrom(convex, hull, points, pos)
              && DugOut(sqrt, hull, points, threshold)
              && DigRun(sqrt, points, threshold, run) && run[0] == convex && run[|run| - 1] == hull
              && IsThreshold(sqrt, points, tol, threshold)
  {
    hull := ConvexHull.ConvexHull(points);
    convex, pos, threshold, run := hull, [], 0.0, [];
    if |hull| < 3 {
      return;
    }
    CollinearSmall(points, hull);
    HullDistinct(hull, points);
    DistinctFits(hull, points);
    var mean, nearest := MeanNearestNeighbor(sqrt, points);
    var spacing := MaxReal(MaxReal(mean, tol), EPSILON);
    var digThreshold := spacing * DIG_THRESHOLD_FACTOR;
    threshold := digThreshold;
    hull, pos, run := DigIn(sqrt, hull, points, digThreshold);
  }

  lemma DistinctInsert(s: seq<Point>, k: nat, x: Point)
    requires Distinct(s) && k <= |s| && x !in s
    ensures Distinct(InsertAt(s, k, x))
  {
    var r := InsertAt(s, k, x);
    hide InsertAt;
    forall i, j | 0 <= i < j < |r| ensures r[i] != r[j] {
      assert i != k ==> r[i] == s[if i < k then i else i - 1];
      assert j != k ==> r[j] == s[if j < k then j else j - 1];
    }
  }

  lemma CollinearSmall(points: seq<Point>, hull: seq<Point>)
    requires Collinear(points) && (exists a, b :: a in points && b in points && a != b) ==> IsExtremes(hull, points)
    requires (forall a, b :: a in points && b in points ==> a == b) ==> |hull| <= 1
    ensures Collinear(points) ==> |hull| <= 2
  {
  }

  // ---- Bounding box ---------------------------------------------------------

  datatype Aabb = Aabb(minX: real, minY: real, maxX: real, maxY: real)

  /** The tight box: every point inside, every side touched. */
  ghost predicate Bounds(box: Aabb, s: seq<Point>) {
    && (forall p :: p in s ==> box.minX <= p.x <= box.maxX && box.minY <= p.y <= box.maxY)
    && (exists p :: p in s && p.x == box.minX) && (exists p :: p in s && p.x == box.maxX)
    && (exists p :: p in s && p.y == box.minY) && (exists p :: p in s && p.y == box.maxY)
  }

  method Bound(outline: seq<Point>) returns (box: Aabb)
    requires outline != []
    ensures Bounds(box, outline)
  {
    var q := outline[0];
    box := Aabb(q.x, q.y, q.x, q.y);
    assert outline[..1] == [q];
    for i := 1 to |outline|
      invariant Bounds(box, outline[..i])
    {
      var p := outline[i];
      ghost var was := box;
      box := Aabb(MinReal(box.minX, p.x), MinReal(box.minY, p.y), MaxReal(box.maxX, p.x), MaxReal(box.maxY, p.y));
      assert outline[..i + 1] == outline[..i] + [p];
      BoundsGrow(was, outline[..i], p, box);
    }
    assert outline[..|outline|] == outline;
  }

  lemma BoundsGrow(was: Aabb, s: seq<Point>, p: Point, box: Aabb)
    requires Bounds(was, s)
    requires box == Aabb(MinReal(was.minX, p.x), MinReal(was.minY, p.y), MaxReal(was.maxX, p.x), MaxReal(was.maxY, p.y))
    ensures Bounds(box, s + [p])
  {
    var a :| a in s && a.x == was.minX;
    var b :| b in s && b.x == was.maxX;
    var c :| c in s && c.y == was.minY;
    var d :| d in s && d.y == was.maxY;
    var t := s + [p];
    assert a in t && b in t && c in t && d in t && p in t;
  }

  function Along(alpha: real, beta: real, p: Point): real { alpha * p.x + beta * p.y }

  lemma {:induction false} Farthest(s: seq<Point>, alpha: real, beta: real) returns (m: nat)
    requires s != []
    ensures m < |s| && forall k :: 0 <= k < |s| ==> Along(alpha, beta, s[k]) <= Along(alpha, beta, s[m])
  {
    m := 0;
    for i := 1 to |s|
      invariant m < |s| && forall k :: 0 <= k < i ==> Along(alpha, beta, s[k]) <= Along(alpha, beta, s[m])
    {
      if Along(alpha, beta, s[i]) > Along(alpha, beta, s[m]) { m := i; }
    }
  }

  /** At a corner that turns left, nothing left of both its edges lies farther out than the
      corner in a direction in which neither neighbour does. */
  lemma CornerSupports(a: Point, v: Point, b: Point, q: Point, alpha: real, beta: real)
    requires Cross(a, v, b) > 0.0 && Cross(a, v, q) >= 0.0 && Cross(v, b, q) >= 0.0
    requires Along(alpha, beta, a) <= Along(alpha, beta, v) && Along(alpha, beta, b) <= Along(alpha, beta, v)
    ensures Along(alpha, beta, q) <= Along(alpha, beta, v)
  {
    var x, y, w := Sub(v, a), Sub(b, v), Sub(q, v);
    CrossShift(a, v, b); CrossShift(a, v, q); CrossIsDet(v, b, q);
    VectorIdentity(x, y, w);
    Combine(Det(x, w), Det(x, y), Det(y, w), alpha, beta, x, y, w);
    AlongSub(alpha, beta, v, a); AlongSub(alpha, beta, b, v); AlongSub(alpha, beta, q, v);
    SignArgument(Det(x, w), Det(x, y), Det(y, w), Along(alpha, beta, x), Along(alpha, beta, y), Along(alpha, beta, w));
  }

  lemma AlongSub(alpha: real, beta: real, p: Point, q: Point)
    ensures Along(alpha, beta, Sub(p, q)) == Along(alpha, beta, p) - Along(alpha, beta, q)
  {
  }

  lemma SignArgument(c: real, a: real, b: real, fx: real, fy: real, fw: real)
    requires c >= 0.0 && a > 0.0 && b >= 0.0 && fx >= 0.0 && fy <= 0.0
    requires c * fy == a * fw + b * fx
    ensures fw <= 0.0
  {
    MulNonNeg(b, fx);
    MulNonNeg(c, -fy);
    assert c * fy <= 0.0;
    MulSign(fw, a);
  }

  lemma Combine(c: real, a: real, b: real, alpha: real, beta: real, x: Point, y: Point, w: Point)
    requires c * y.x == a * w.x + b * x.x && c * y.y == a * w.y + b * x.y
    ensures c * Along(alpha, beta, y) == a * Along(alpha, beta, w) + b * Along(alpha, beta, x)
  {
    assert c * Along(alpha, beta, y) == alpha * (c * y.x) + beta * (c * y.y);
    assert a * Along(alpha, beta, w) == alpha * (a * w.x) + beta * (a * w.y);
    assert b * Along(alpha, beta, x) == alpha * (b * x.x) + beta * (b * x.y);
  }

  /** In every direction some hull vertex lies at least as far out as any input point. */
  lemma HullSupports(hull: seq<Point>, points: seq<Point>, alpha: real, beta: real) returns (m: nat)
    requires IsConvexHull(hull, points)
    ensures m < |hull| && forall q :: q in points ==> Along(alpha, beta, q) <= Along(alpha, beta, hull[m])
  {
    var n := |hull|;
    m := Farthest(hull, alpha, beta);
    var prev := if m == 0 then n - 1 else m - 1;
    assert Next(n, prev) == m;
    var nxt := Next(n, m);
    forall q | q in points ensures Along(alpha, beta, q) <= Along(alpha, beta, hull[m]) {
      assert Cross(hull[prev], hull[Next(n, prev)], hull[nxt]) > 0.0;
      assert Cross(hull[prev], hull[Next(n, prev)], q) >= 0.0;
      CornerSupports(hull[prev], hull[m], hull[nxt], q, alpha, beta);
    }
  }

  /** Any outline that keeps the convex hull's vertices and uses only input points has the box of
      the whole input, so digging in never changes it. */
  lemma DigInKeepsBox(convex: seq<Point>, hull: seq<Point>, points: seq<Point>, pos: seq<nat>, box: Aabb)
    requires IsConvexHull(convex, points) && Embeds(convex, hull, pos)
    requires forall p :: p in hull ==> p in points
    ensures Bounds(box, hull) <==> Bounds(box, points)
  {
    var e := HullSupports(convex, points, 1.0, 0.0);
    var w := HullSupports(convex, points, -1.0, 0.0);
    var n := HullSupports(convex, points, 0.0, 1.0);
    var s := HullSupports(convex, points, 0.0, -1.0);
    assert hull[pos[e]] == convex[e] && hull[pos[w]] == convex[w] && hull[pos[n]] == convex[n];
    assert hull[pos[s]] == convex[s];
    assert convex[e] in hull && convex[w] in hull && convex[n] in hull && convex[s] in hull;
    forall q | q in points ensures convex[w].x <= q.x <= convex[e].x && convex[s].y <= q.y <= convex[n].y {
      assert Along(1.0, 0.0, q) == q.x && Along(-1.0, 0.0, q) == -q.x && Along(0.0, 1.0, q) == q.y;
      assert Along(0.0, -1.0, q) == -q.y;
    }
    var tight := Aabb(convex[w].x, convex[s].y, convex[e].x, convex[n].y);
    assert Bounds(tight, hull) && Bounds(tight, points);
    if Bounds(box, hull) { BoxUnique(box, tight, hull); }
    if Bounds(box, points) { BoxUnique(box, tight, points); }
  }

  lemma BoxUnique(a: Aabb, b: Aabb, s: seq<Point>)
    requires Bounds(a, s) && Bounds(b, s)
    ensures a == b
  {
  }
}
