/** Splitting a polyline into the drawn runs of a dash pattern
    (crates/renderer-core/src/stroke_expand.rs). Segment lengths come in as exact values. */
module StrokeDash {
  import opened Planar

  /** `MIN_SEGMENT_LEN`. */
  const MIN_SEGMENT_LEN: real := 0.000001

  /** Segment `s` runs from `points[s]` to `points[s + 1]` and is `lens[s]` long. */
  predicate IsLengths(points: seq<Point>, lens: seq<real>) {
    && |lens| + 1 == |points|
    && forall s :: 0 <= s < |lens| ==> lens[s] >= 0.0 && lens[s] * lens[s] == Dist2(points[s + 1], points[s])
  }

  /** A segment too short to walk counts for nothing. */
  function Kept(len: real): real { if len < MIN_SEGMENT_LEN then 0.0 else len }

  /** Arc length up to vertex `s`. */
  function Arc(lens: seq<real>, s: nat): real
    requires s <= |lens|
  {
    if s == 0 then 0.0 else Arc(lens, s - 1) + Kept(lens[s - 1])
  }

  /** Only segments too short to walk lie between vertices `i` and `j`. */
  predicate Skipped(lens: seq<real>, i: nat, j: nat) {
    i <= j <= |lens| && forall k :: i <= k < j ==> lens[k] < MIN_SEGMENT_LEN
  }

  // ---- The pattern ----------------------------------------------------------

  predicate Usable(dash: seq<real>) { exists k :: 0 <= k < |dash| && dash[k] > 0.0 }

  /** The index that `m` steps around a pattern of `n` entries reach. */
  function Wrap(m: nat, n: nat): (r: nat)
    requires n > 0
    ensures r < n
  {
    if m < n then m else Wrap(m - n, n)
  }

  function Entry(dash: seq<real>, m: nat): real
    requires dash != []
  {
    dash[Wrap(m, |dash|)]
  }

  /** Where span `m` of the endlessly repeated pattern starts. */
  function SpanStart(dash: seq<real>, m: nat): real
    requires dash != []
  {
    if m == 0 then 0.0 else SpanStart(dash, m - 1) + (if Entry(dash, m - 1) > 0.0 then Entry(dash, m - 1) else 0.0)
  }

  predicate Spans(dash: seq<real>, m: nat, t: real)
    requires dash != []
  {
    SpanStart(dash, m) <= t < SpanStart(dash, m + 1)
  }

  /** The pattern is on at arc length `t`: an even-numbered span holds it. */
  ghost predicate On(dash: seq<real>, t: real)
    requires dash != []
  {
    exists m: nat :: m % 2 == 0 && Spans(dash, m, t)
  }

  lemma {:induction false} StartsRise(dash: seq<real>, i: nat, j: nat)
    requires dash != [] && i <= j
    ensures SpanStart(dash, i) <= SpanStart(dash, j)
    decreases j
  {
    if i < j { StartsRise(dash, i, j - 1); }
  }

  /** Only span `m` decides for the lengths it holds. */
  lemma OnInSpan(dash: seq<real>, m: nat, t: real)
    requires dash != [] && Spans(dash, m, t)
    ensures On(dash, t) <==> m % 2 == 0
  {
    if On(dash, t) {
      var k: nat :| k % 2 == 0 && Spans(dash, k, t);
      if k < m { StartsRise(dash, k + 1, m); }
      if m < k { StartsRise(dash, m + 1, k); }
    }
  }

  lemma {:induction false} FlatStretch(dash: seq<real>, i: nat, j: nat)
    requires dash != [] && i <= j && forall k: nat :: i <= k < j ==> Entry(dash, k) <= 0.0
    ensures SpanStart(dash, i) == SpanStart(dash, j)
    decreases j
  {
    if i < j { FlatStretch(dash, i, j - 1); }
  }

  lemma {:induction false} WrapAdd(m: nat, n: nat, d: nat)
    requires n > 0 && Wrap(m, n) + d < n
    ensures Wrap(m + d, n) == Wrap(m, n) + d
  {
    if m >= n { WrapAdd(m - n, n, d); }
  }

  lemma {:induction false} WrapDown(m: nat, n: nat)
    requires n > 0
    ensures Wrap(m, n) <= m && Wrap(m - Wrap(m, n), n) == 0
  {
    if m >= n { WrapDown(m - n, n); }
  }

  /** The index step of the walk. */
  lemma {:induction false} WrapNext(m: nat, n: nat)
    requires n > 0
    ensures Wrap(m + 1, n) == (Wrap(m, n) + 1) % n
  {
    if m >= n {
      WrapNext(m - n, n);
    } else if m + 1 == n {
      assert Wrap(n, n) == 0;
    }
  }

  /** A usable pattern has a positive entry within one turn after `m`. */
  lemma NextPositive(dash: seq<real>, m: nat) returns (p: nat)
    requires Usable(dash)
    ensures m < p <= m + |dash| && Entry(dash, p) > 0.0
  {
    var n, r := |dash|, Wrap(m, |dash|);
    var k :| 0 <= k < n && dash[k] > 0.0;
    if r < k {
      p := m + (k - r);
      WrapAdd(m, n, k - r);
    } else {
      WrapDown(m, n);
      p := m - r + n + k;
      assert Wrap(m - r + n, n) == 0;
      WrapAdd(m - r + n, n, k);
    }
  }

  // ---- Places on the polyline -----------------------------------------------

  function Along(a: Point, b: Point, len: real, w: real): Point
    requires len > 0.0
  {
    Point(a.x + (b.x - a.x) / len * w, a.y + (b.y - a.y) / len * w)
  }

  function Sq(x: real): real { x * x }

  lemma Cancel(a: real, b: real, c: real)
    requires c > 0.0 && a * c == b * c
    ensures a == b
  {
    assert (a - b) * c == 0.0;
  }

  lemma SqIs(a: real)
    ensures Sq(a) == a * a
  {
  }

  lemma Factor(a: real, b: real, c: real)
    ensures Sq(a * c) + Sq(b * c) == ((a * a + b * b) * c) * c
  {
    assert (a * c) * (a * c) == ((a * a) * c) * c;
    assert (b * c) * (b * c) == ((b * b) * c) * c;
  }

  lemma UnitVector(ux: real, uy: real, len: real, x: real, y: real)
    requires len > 0.0 && ux * len == x && uy * len == y && Sq(x) + Sq(y) == Sq(len)
    ensures ux * ux + uy * uy == 1.0
  {
    hide Sq;
    var n := ux * ux + uy * uy;
    Factor(ux, uy, len);
    SqIs(len);
    Cancel(n * len, len, len);
    Cancel(n, 1.0, len);
  }

  lemma Moved(ux: real, uy: real, ax: real, ay: real, w: real, v: real)
    requires ux * ux + uy * uy == 1.0
    ensures Dist2(Point(ax + ux * w, ay + uy * w), Point(ax + ux * v, ay + uy * v)) == (w - v) * (w - v)
  {
    var d := w - v;
    Factor(ux, uy, d);
    assert (ax + ux * w) - (ax + ux * v) == ux * d && (ay + uy * w) - (ay + uy * v) == uy * d;
    assert (ux * ux + uy * uy) * d == d;
  }

  /** Walking moves at unit speed and ends at the far vertex. */
  lemma UnitSpeed(a: Point, b: Point, len: real, w: real, v: real)
    requires len > 0.0 && len * len == Dist2(b, a)
    ensures Along(a, b, len, 0.0) == a && Along(a, b, len, len) == b
    ensures Dist2(Along(a, b, len, w), Along(a, b, len, v)) == (w - v) * (w - v)
  {
    AlongEnds(a, b, len);
    var ux, uy := (b.x - a.x) / len, (b.y - a.y) / len;
    UnitVector(ux, uy, len, b.x - a.x, b.y - a.y);
    Moved(ux, uy, a.x, a.y, w, v);
  }

  lemma AlongEnds(a: Point, b: Point, len: real)
    requires len > 0.0
    ensures Along(a, b, len, 0.0) == a && Along(a, b, len, len) == b
  {
  }

  /** `p` is the point of segment `s` at arc length `t`. */
  predicate At(points: seq<Point>, lens: seq<real>, s: nat, p: Point, t: real)
    requires |lens| + 1 == |points|
  {
    && s < |lens| && lens[s] >= MIN_SEGMENT_LEN && Arc(lens, s) <= t <= Arc(lens, s + 1)
    && p == Along(points[s], points[s + 1], lens[s], t - Arc(lens, s))
  }

  /** At arc length `t`, `p` is on segment `s`, or it is a vertex from which only segments too short
      to walk lead there. */
  ghost predicate Reaches(points: seq<Point>, lens: seq<real>, s: nat, p: Point, t: real)
    requires |lens| + 1 == |points|
  {
    || At(points, lens, s, p, t)
    || exists i: nat :: Skipped(lens, i, s) && p == points[i] && t == Arc(lens, i)
  }

  /** The stretch from `t` to `u` leads from `p` to `q` along one segment, or over skipped ones and
      then along one. */
  ghost predicate Piece(points: seq<Point>, lens: seq<real>, p: Point, q: Point, t: real, u: real)
    requires |lens| + 1 == |points|
  {
    t <= u && exists s: nat :: Reaches(points, lens, s, p, t) && At(points, lens, s, q, u)
  }

  /** The run's points follow the polyline, at the given arc lengths, skipping no vertex but those of
      segments too short to walk. */
  ghost predicate Traces(points: seq<Point>, lens: seq<real>, run: seq<Point>, arc: seq<real>)
    requires |lens| + 1 == |points|
  {
    |run| == |arc| && forall k :: 0 <= k < |run| - 1 ==> Piece(points, lens, run[k], run[k + 1], arc[k], arc[k + 1])
  }

  // ---- Which lengths are covered --------------------------------------------

  predicate IsSpan(arc: seq<real>) { |arc| >= 2 && arc[0] < arc[|arc| - 1] }

  predicate Holds(arc: seq<real>, t: real) { |arc| >= 2 && arc[0] <= t < arc[|arc| - 1] }

  predicate Covered(arcs: seq<seq<real>>, t: real) { exists i :: 0 <= i < |arcs| && Holds(arcs[i], t) }

  /** Runs in order, with a gap between each and the next. */
  predicate Ordered(arcs: seq<seq<real>>) {
    && (forall i :: 0 <= i < |arcs| ==> IsSpan(arcs[i]))
    && forall i, j :: 0 <= i < j < |arcs| ==> arcs[i][|arcs[i]| - 1] < arcs[j][0]
  }

  predicate EndBy(arcs: seq<seq<real>>, t: real) {
    forall i :: 0 <= i < |arcs| ==> |arcs[i]| >= 2 && arcs[i][|arcs[i]| - 1] <= t
  }
  predicate EndBefore(arcs: seq<seq<real>>, t: real) {
    forall i :: 0 <= i < |arcs| ==> |arcs[i]| >= 2 && arcs[i][|arcs[i]| - 1] < t
  }

  /** Up to `pos` exactly the on-lengths are in a finished run or in the open one from `from`. */
  ghost predicate Painted(dash: seq<real>, pos: real, arcs: seq<seq<real>>, drawing: bool, from: real)
    requires dash != []
  {
    forall t :: 0.0 <= t < pos ==> (On(dash, t) <==> Covered(arcs, t) || (drawing && from <= t))
  }

  /** Inside span `m`, with `remaining` of it left. */
  predicate InSpan(dash: seq<real>, m: nat, pos: real, remaining: real)
    requires dash != []
  {
    Entry(dash, m) > 0.0 && 0.0 <= SpanStart(dash, m) <= pos && remaining == SpanStart(dash, m + 1) - pos
    && remaining >= 0.0
  }

  /** Walking on within one span paints what the span says. */
  lemma Advance(dash: seq<real>, m: nat, pos: real, remaining: real, to: real, arcs: seq<seq<real>>, drawing: bool,
                from: real)
    requires dash != [] && InSpan(dash, m, pos, remaining) && pos <= to <= pos + remaining && drawing == (m % 2 == 0)
    requires Painted(dash, pos, arcs, drawing, from) && (drawing ==> from <= pos) && EndBy(arcs, pos)
    ensures Painted(dash, to, arcs, drawing, from)
  {
    hide On;
    forall t | 0.0 <= t < to ensures On(dash, t) <==> Covered(arcs, t) || (drawing && from <= t) {
      if t >= pos { OnInSpan(dash, m, t); }
    }
  }

  /** Closing the open run at `to`. */
  lemma CloseRun(dash: seq<real>, to: real, arcs: seq<seq<real>>, cur: seq<real>)
    requires dash != [] && Ordered(arcs) && IsSpan(cur) && EndBefore(arcs, cur[0]) && cur[|cur| - 1] == to
    requires Painted(dash, to, arcs, true, cur[0])
    ensures Ordered(arcs + [cur]) && EndBy(arcs + [cur], to) && Painted(dash, to, arcs + [cur], false, to)
  {
    hide On;
    var all := arcs + [cur];
    forall t | 0.0 <= t < to ensures Covered(all, t) <==> Covered(arcs, t) || cur[0] <= t {
      assert Holds(cur, t) <==> cur[0] <= t;
      assert all[|arcs|] == cur;
      if Covered(arcs, t) {
        var i :| 0 <= i < |arcs| && Holds(arcs[i], t);
        assert Holds(all[i], t);
      }
    }
  }

  // ---- The walk -------------------------------------------------------------

  function Retained(runs: seq<seq<Point>>): seq<seq<Point>> {
    if runs == [] then []
    else if |runs[|runs| - 1]| >= 2 then Retained(runs[..|runs| - 1]) + [runs[|runs| - 1]]
    else Retained(runs[..|runs| - 1])
  }

  lemma {:induction false} AllRetained(runs: seq<seq<Point>>)
    requires forall i :: 0 <= i < |runs| ==> |runs[i]| >= 2
    ensures Retained(runs) == runs
  {
    if runs != [] { AllRetained(runs[..|runs| - 1]); }
  }

  /** Everything the walk keeps: where it is in the pattern, what is painted, and in what order. */
  ghost predicate Walk(dash: seq<real>, m: nat, pos: real, remaining: real, drawing: bool, arcs: seq<seq<real>>,
                       cur: seq<real>)
    requires dash != []
  {
    && InSpan(dash, m, pos, remaining) && drawing == (m % 2 == 0) && Ordered(arcs)
    && (drawing ==> |cur| >= 1 && cur[0] <= SpanStart(dash, m) && EndBefore(arcs, cur[0]) && cur[|cur| - 1] <= pos)
    && (!drawing ==> cur == [] && EndBy(arcs, SpanStart(dash, m)))
    && Painted(dash, pos, arcs, drawing, if |cur| >= 1 then cur[0] else pos)
  }

  /** The finished runs and the open one follow the polyline; the open one's last point reaches segment `s`. */
  ghost predicate Drawn(points: seq<Point>, lens: seq<real>, s: nat, runs: seq<seq<Point>>, arcs: seq<seq<real>>,
                        current: seq<Point>, cur: seq<real>)
    requires |lens| + 1 == |points|
  {
    && |runs| == |arcs| && (forall i :: 0 <= i < |runs| ==> Traces(points, lens, runs[i], arcs[i]))
    && Traces(points, lens, current, cur)
    && (|cur| >= 1 ==> Reaches(points, lens, s, current[|cur| - 1], cur[|cur| - 1]))
  }

  lemma Widen(arcs: seq<seq<real>>, t: real, u: real)
    requires EndBy(arcs, t)
    ensures t <= u ==> EndBy(arcs, u)
    ensures t < u ==> EndBefore(arcs, u)
  {
  }

  /** Reaching the end of span `m`: `p` is the next span of positive length. */
  lemma CrossBoundary(dash: seq<real>, m: nat, pos: real, remaining: real, drawing: bool, arcs: seq<seq<real>>,
                      cur: seq<real>, p: nat)
    requires dash != [] && Walk(dash, m, pos, remaining, drawing, arcs, cur)
    requires m < p && Entry(dash, p) > 0.0 && forall k: nat :: m < k < p ==> Entry(dash, k) <= 0.0
    ensures var to, on := pos + remaining, p % 2 == 0;
            Walk(dash, p, to, Entry(dash, p), on,
                 if drawing && !on then arcs + [cur + [to]] else arcs,
                 if drawing == on then cur else if on then [to] else [])
  {
    hide On, Painted, Ordered, EndBy, EndBefore, Covered;
    var to := pos + remaining;
    FlatStretch(dash, m + 1, p);
    assert SpanStart(dash, p + 1) == SpanStart(dash, p) + Entry(dash, p);
    assert SpanStart(dash, m + 1) == SpanStart(dash, m) + Entry(dash, m);
    assert InSpan(dash, p, to, Entry(dash, p));
    if drawing {
      EndsBy(arcs, cur[0], pos);
      Advance(dash, m, pos, remaining, to, arcs, true, cur[0]);
      var next := cur + [to];
      assert next[0] == cur[0];
      if p % 2 != 0 { CloseRun(dash, to, arcs, next); }
    } else {
      Widen(arcs, SpanStart(dash, m), pos);
      Widen(arcs, SpanStart(dash, m), to);
      Advance(dash, m, pos, remaining, to, arcs, false, pos);
      StartRun(dash, to, arcs, pos);
    }
  }

  lemma EndsBy(arcs: seq<seq<real>>, t: real, u: real)
    requires EndBefore(arcs, t) && t <= u
    ensures EndBy(arcs, u)
  {
  }

  lemma StartRun(dash: seq<real>, to: real, arcs: seq<seq<real>>, from: real)
    requires dash != [] && Painted(dash, to, arcs, false, from)
    ensures Painted(dash, to, arcs, true, to) && Painted(dash, to, arcs, false, to)
  {
    hide On, Covered;
  }

  lemma WalkOn(dash: seq<real>, m: nat, pos: real, remaining: real, drawing: bool, arcs: seq<seq<real>>,
               cur: seq<real>, to: real)
    requires dash != [] && Walk(dash, m, pos, remaining, drawing, arcs, cur) && pos <= to <= pos + remaining
    ensures Walk(dash, m, to, remaining - (to - pos), drawing, arcs, cur)
    ensures drawing ==> Walk(dash, m, to, remaining - (to - pos), true, arcs, cur + [to])
  {
    hide On, Painted, Ordered, EndBy, EndBefore, Covered;
    if drawing {
      EndsBy(arcs, cur[0], pos);
      Advance(dash, m, pos, remaining, to, arcs, true, cur[0]);
      assert (cur + [to])[0] == cur[0];
    } else {
      Widen(arcs, SpanStart(dash, m), pos);
      Advance(dash, m, pos, remaining, to, arcs, false, pos);
      StartRun(dash, to, arcs, pos);
    }
  }

  lemma StartWalk(dash: seq<real>, m: nat)
    requires dash != [] && Entry(dash, m) > 0.0 && forall k: nat :: k < m ==> Entry(dash, k) <= 0.0
    ensures Walk(dash, m, 0.0, Entry(dash, m), m % 2 == 0, [], if m % 2 == 0 then [0.0] else [])
  {
    hide On, Covered;
    FlatStretch(dash, 0, m);
    assert SpanStart(dash, m + 1) == SpanStart(dash, m) + Entry(dash, m);
  }

  // ---- Following the polyline -----------------------------------------------

  lemma TracesPush(points: seq<Point>, lens: seq<real>, s: nat, run: seq<Point>, arc: seq<real>, p: Point, t: real)
    requires |lens| + 1 == |points| && Traces(points, lens, run, arc) && At(points, lens, s, p, t)
    requires |arc| >= 1 ==> Reaches(points, lens, s, run[|run| - 1], arc[|arc| - 1]) && arc[|arc| - 1] <= t
    ensures Traces(points, lens, run + [p], arc + [t])
  {
    hide At, Reaches;
    forall k | 0 <= k < |run|
      ensures Piece(points, lens, (run + [p])[k], (run + [p])[k + 1], (arc + [t])[k], (arc + [t])[k + 1])
    {
      if k < |run| - 1 { assert Piece(points, lens, run[k], run[k + 1], arc[k], arc[k + 1]); }
    }
  }

  lemma AtStart(points: seq<Point>, lens: seq<real>, s: nat)
    requires |lens| + 1 == |points| && s < |lens| && lens[s] >= MIN_SEGMENT_LEN
    ensures At(points, lens, s, points[s], Arc(lens, s)) && At(points, lens, s, points[s + 1], Arc(lens, s + 1))
    ensures Arc(lens, s + 1) == Arc(lens, s) + lens[s]
  {
    AlongEnds(points[s], points[s + 1], lens[s]);
  }

  lemma VertexReaches(points: seq<Point>, lens: seq<real>, s: nat)
    requires |lens| + 1 == |points| && s <= |lens|
    ensures Reaches(points, lens, s, points[s], Arc(lens, s))
  {
    assert Skipped(lens, s, s);
  }

  /** A vertex that reaches a segment too short to walk reaches the one after it. */
  lemma ReachesOver(points: seq<Point>, lens: seq<real>, s: nat, p: Point, t: real)
    requires |lens| + 1 == |points| && s < |lens| && lens[s] < MIN_SEGMENT_LEN && Reaches(points, lens, s, p, t)
    ensures Reaches(points, lens, s + 1, p, t)
  {
    var i: nat :| Skipped(lens, i, s) && p == points[i] && t == Arc(lens, i);
    assert Skipped(lens, i, s + 1);
  }

  lemma AtWalked(points: seq<Point>, lens: seq<real>, s: nat, w: real)
    requires |lens| + 1 == |points| && s < |lens| && lens[s] >= MIN_SEGMENT_LEN && 0.0 <= w <= lens[s]
    ensures At(points, lens, s, Along(points[s], points[s + 1], lens[s], w), Arc(lens, s) + w)
  {
    assert Arc(lens, s + 1) == Arc(lens, s) + lens[s];
    hide Along;
  }

  lemma MinPositive(dash: seq<real>) returns (d: real)
    ensures d > 0.0 && forall k :: 0 <= k < |dash| && dash[k] > 0.0 ==> dash[k] >= d
  {
    if dash == [] {
      d := 1.0;
    } else {
      d := MinPositive(dash[1..]);
      if 0.0 < dash[0] < d { d := dash[0]; }
      forall k | 0 <= k < |dash| && dash[k] > 0.0 ensures dash[k] >= d {
        if k > 0 { assert dash[k] == dash[1..][k - 1]; }
      }
    }
  }

  /** How many more spans of at least `d` fit. */
  function Turns(left: real, d: real): nat
    requires d > 0.0
  {
    if left <= 0.0 then 0 else (left / d).Floor + 1
  }

  lemma TurnsDrop(left: real, d: real, less: real)
    requires d > 0.0 && left > 0.0 && less <= left - d
    ensures Turns(less, d) < Turns(left, d)
  {
    if less > 0.0 {
      var q, r := left / d, less / d;
      assert q * d == left && r * d == less;
      if q < r + 1.0 { Below(q, r + 1.0, d); }
      FloorStep(r, q);
    } else {
      assert left / d >= 0.0;
    }
  }

  lemma FloorStep(r: real, q: real)
    requires r + 1.0 <= q
    ensures r.Floor + 1 <= q.Floor
  {
    assert (r.Floor + 1) as real <= q;
    assert q < (q.Floor + 1) as real;
  }

  lemma Below(a: real, b: real, d: real)
    requires d > 0.0 && a < b
    ensures a * d < b * d
  {
    assert (b - a) * d > 0.0;
  }

  // ---- The method -----------------------------------------------------------

  /** At vertex `s`: an open run has reached it, and has length once it has two points. */
  predicate AtVertex(lens: seq<real>, s: nat, drawing: bool, cur: seq<real>)
    requires s <= |lens|
  {
    drawing ==>
      |cur| >= 1 && cur[|cur| - 1] == Arc(lens, s) && (|cur| >= 2 ==> cur[0] < Arc(lens, s))
      && (|cur| == 1 ==> Arc(lens, s) == 0.0)
  }

  predicate Polylines(runs: seq<seq<Point>>, arcs: seq<seq<real>>) {
    |runs| == |arcs| && forall i :: 0 <= i < |runs| ==> |runs[i]| == |arcs[i]| >= 2
  }

  /** The finished answer: the runs in order, apart, tracing the polyline, and covering exactly
      the on-lengths of the pattern. */
  ghost predicate Dashed(points: seq<Point>, lens: seq<real>, dash: seq<real>, runs: seq<seq<Point>>,
                         arcs: seq<seq<real>>)
    requires |lens| + 1 == |points| && dash != []
  {
    && Polylines(runs, arcs) && Ordered(arcs) && EndBy(arcs, Arc(lens, |lens|))
    && (forall t :: 0.0 <= t < Arc(lens, |lens|) ==> (On(dash, t) <==> Covered(arcs, t)))
    && (forall i :: 0 <= i < |runs| ==> Traces(points, lens, runs[i], arcs[i]))
  }

  lemma SmallMod(a: nat, n: nat)
    requires a < n
    ensures a % n == a
  {
  }

  method SkipLeading(dash: seq<real>) returns (dashIdx: nat)
    requires Usable(dash)
    ensures dashIdx < |dash| && Entry(dash, dashIdx) > 0.0 && dash[dashIdx] == Entry(dash, dashIdx)
    ensures forall k: nat :: k < dashIdx ==> Entry(dash, k) <= 0.0
  {
    dashIdx := 0;
    ghost var p :| 0 <= p < |dash| && dash[p] > 0.0;
    forall k: nat | k < |dash| ensures Entry(dash, k) == dash[k] {}
    hide Entry;
    var remaining := dash[0];
    while remaining <= 0.0
      invariant dashIdx <= p && remaining == dash[dashIdx]
      invariant forall k: nat :: k < dashIdx ==> Entry(dash, k) <= 0.0
      decreases p - dashIdx
    {
      SmallMod(dashIdx + 1, |dash|);
      dashIdx := (dashIdx + 1) % |dash|;
      remaining := dash[dashIdx];
    }
  }

  method NextSpan(dash: seq<real>, ghost m: nat, dashIdx: nat, drawing: bool) returns (idx: nat, on: bool, ghost p: nat)
    requires Usable(dash) && dashIdx == Wrap(m, |dash|) && drawing == (m % 2 == 0)
    ensures idx < |dash| && dash[idx] > 0.0
    ensures m < p && idx == Wrap(p, |dash|) && on == (p % 2 == 0) && Entry(dash, p) > 0.0
    ensures forall k: nat :: m < k < p ==> Entry(dash, k) <= 0.0
  {
    ghost var q := NextPositive(dash, m);
    WrapNext(m, |dash|);
    p, idx, on := m + 1, (dashIdx + 1) % |dash|, !drawing;
    while dash[idx] <= 0.0
      invariant m < p <= q && idx == Wrap(p, |dash|) && on == (p % 2 == 0)
      invariant forall k: nat :: m < k < p ==> Entry(dash, k) <= 0.0
      decreases q - p
    {
      WrapNext(p, |dash|);
      p, idx, on := p + 1, (idx + 1) % |dash|, !on;
    }
  }

  /** The state between two steps, as one predicate. */
  ghost predicate Under(points: seq<Point>, lens: seq<real>, dash: seq<real>, s: nat, m: nat, pos: real,
                        remaining: real, drawing: bool, runs: seq<seq<Point>>, arcs: seq<seq<real>>,
                        current: seq<Point>, cur: seq<real>)
    requires |lens| + 1 == |points| && dash != []
  {
    && Walk(dash, m, pos, remaining, drawing, arcs, cur) && Polylines(runs, arcs) && |current| == |cur|
    && Drawn(points, lens, s, runs, arcs, current, cur)
  }

  lemma BoundaryDraws(points: seq<Point>, lens: seq<real>, dash: seq<real>, s: nat, m: nat, pos: real, remaining: real,
                      drawing: bool, runs: seq<seq<Point>>, arcs: seq<seq<real>>, current: seq<Point>, cur: seq<real>,
                      p: nat, w: real)
    requires |lens| + 1 == |points| && dash != [] && s < |lens| && lens[s] >= MIN_SEGMENT_LEN
    requires Under(points, lens, dash, s, m, pos, remaining, drawing, runs, arcs, current, cur)
    requires m < p && Entry(dash, p) > 0.0 && forall k: nat :: m < k < p ==> Entry(dash, k) <= 0.0
    requires pos + remaining == Arc(lens, s) + w && 0.0 <= w <= lens[s]
    ensures var on, at := p % 2 == 0, Along(points[s], points[s + 1], lens[s], w);
            && (drawing == on ==> Under(points, lens, dash, s, p, Arc(lens, s) + w, Entry(dash, p), on, runs, arcs,
                                        current, cur))
            && (drawing && !on ==> Under(points, lens, dash, s, p, Arc(lens, s) + w, Entry(dash, p), on,
                                         runs + [current + [at]], arcs + [cur + [Arc(lens, s) + w]], [], []))
            && (!drawing && on ==> Under(points, lens, dash, s, p, Arc(lens, s) + w, Entry(dash, p), on, runs, arcs,
                                         [at], [Arc(lens, s) + w]))
  {
    hide Walk, Drawn, Along, Arc, Entry, Polylines, SpanStart;
    CrossBoundary(dash, m, pos, remaining, drawing, arcs, cur, p);
    DrawnAcross(points, lens, s, runs, arcs, current, cur, w, drawing, pos);
    WalkTail(dash, m, pos, remaining, drawing, arcs, cur);
    if drawing && p % 2 != 0 {
      PolylinesPush(runs, arcs, current + [Along(points[s], points[s + 1], lens[s], w)], cur + [Arc(lens, s) + w]);
    }
  }

  lemma PolylinesPush(runs: seq<seq<Point>>, arcs: seq<seq<real>>, run: seq<Point>, arc: seq<real>)
    requires Polylines(runs, arcs) && |run| == |arc| >= 2
    ensures Polylines(runs + [run], arcs + [arc])
  {
  }

  lemma WalkTail(dash: seq<real>, m: nat, pos: real, remaining: real, drawing: bool, arcs: seq<seq<real>>,
                 cur: seq<real>)
    requires dash != [] && Walk(dash, m, pos, remaining, drawing, arcs, cur)
    ensures remaining >= 0.0 && (drawing ==> |cur| >= 1 && cur[|cur| - 1] <= pos) && (!drawing ==> cur == [])
  {
    hide Painted, Ordered, EndBy, EndBefore;
  }

  lemma DrawnAcross(points: seq<Point>, lens: seq<real>, s: nat, runs: seq<seq<Point>>, arcs: seq<seq<real>>,
                    current: seq<Point>, cur: seq<real>, w: real, drawing: bool, pos: real)
    requires |lens| + 1 == |points| && s < |lens| && lens[s] >= MIN_SEGMENT_LEN && 0.0 <= w <= lens[s]
    requires |current| == |cur|
    requires Drawn(points, lens, s, runs, arcs, current, cur)
    ensures var at := Along(points[s], points[s + 1], lens[s], w);
            && Drawn(points, lens, s, runs, arcs, [at], [Arc(lens, s) + w])
            && (|cur| >= 1 && cur[|cur| - 1] <= Arc(lens, s) + w ==>
                  Drawn(points, lens, s, runs + [current + [at]], arcs + [cur + [Arc(lens, s) + w]], [], []))
  {
    AtWalked(points, lens, s, w);
    var at, t := Along(points[s], points[s + 1], lens[s], w), Arc(lens, s) + w;
    hide Along, Arc, At, Skipped;
    if |cur| >= 1 && cur[|cur| - 1] <= t { TracesPush(points, lens, s, current, cur, at, t); }
    hide Piece;
  }

  lemma SegmentDraws(points: seq<Point>, lens: seq<real>, dash: seq<real>, s: nat, m: nat, pos: real, remaining: real,
                     drawing: bool, runs: seq<seq<Point>>, arcs: seq<seq<real>>, current: seq<Point>, cur: seq<real>)
    requires |lens| + 1 == |points| && dash != [] && s < |lens| && lens[s] >= MIN_SEGMENT_LEN
    requires Under(points, lens, dash, s, m, pos, remaining, drawing, runs, arcs, current, cur)
    requires pos <= Arc(lens, s + 1) <= pos + remaining
    ensures drawing ==>
              Under(points, lens, dash, s + 1, m, Arc(lens, s + 1), remaining - (Arc(lens, s + 1) - pos), true,
                              runs, arcs, current + [points[s + 1]], cur + [Arc(lens, s + 1)])
    ensures !drawing ==>
              Under(points, lens, dash, s + 1, m, Arc(lens, s + 1), remaining - (Arc(lens, s + 1) - pos), false, runs,
                    arcs, current, cur)
  {
    var to := Arc(lens, s + 1);
    WalkOn(dash, m, pos, remaining, drawing, arcs, cur, to);
    AtStart(points, lens, s);
    if drawing { TracesPush(points, lens, s, current, cur, points[s + 1], to); }
    VertexReaches(points, lens, s + 1);
    hide Along, Arc, At, Reaches, Painted, Ordered, EndBy, EndBefore, InSpan, On, Entry, Traces;
  }

  method DashSegments(points: seq<Point>, lens: seq<real>, dash: seq<real>)
      returns (runs: seq<seq<Point>>, ghost arcs: seq<seq<real>>)
    requires |points| >= 1 ==> IsLengths(points, lens)
    ensures |points| < 2 ==> runs == []
    ensures |points| >= 2 && (forall k :: 0 <= k < |dash| ==> dash[k] <= 0.0) ==> runs == [points]
    ensures |points| >= 2 && (exists k :: 0 <= k < |dash| && dash[k] > 0.0) ==>
              Usable(dash) && Dashed(points, lens, dash, runs, arcs)
  {
    arcs := [];
    if |points| < 2 {
      return [], [];
    }
    if dash == [] || forall k :: 0 <= k < |dash| ==> dash[k] <= 0.0 {
      return [points], [];
    }
    ghost var least := MinPositive(dash);
    runs := [];
    var current: seq<Point> := [];
    ghost var cur: seq<real> := [];
    var dashIdx := SkipLeading(dash);
    ghost var m := dashIdx;
    var remaining := dash[dashIdx];
    var drawing := dashIdx % 2 == 0;
    if drawing {
      current := [points[0]];
      cur := [0.0];
    }
    StartWalk(dash, m);
    StartDrawn(points, lens, current, cur);
    hide Walk, Drawn, IsLengths, Usable;
    for s := 0 to |lens|
      invariant Under(points, lens, dash, s, m, Arc(lens, s), remaining, drawing, runs, arcs, current, cur)
      invariant dashIdx == Wrap(m, |dash|) && drawing == (m % 2 == 0)
      invariant AtVertex(lens, s, drawing, cur)
    {
      var segLen := lens[s];
      if segLen < MIN_SEGMENT_LEN {
        Skip(points, lens, dash, s, m, remaining, drawing, runs, arcs, current, cur);
        continue;
      }
      runs, arcs, current, cur, m, dashIdx, remaining, drawing :=
        WalkSegment(points, lens, dash, s, least, runs, arcs, current, cur, m, dashIdx, remaining, drawing);
    }
    Finish(points, lens, dash, m, remaining, drawing, runs, arcs, current, cur);
    if drawing && |current| >= 2 {
      runs, arcs := runs + [current], arcs + [cur];
    }
    DashedRetained(points, lens, dash, runs, arcs);
    runs := Retained(runs);
  }

  lemma DashedRetained(points: seq<Point>, lens: seq<real>, dash: seq<real>, runs: seq<seq<Point>>,
                       arcs: seq<seq<real>>)
    requires |lens| + 1 == |points| && dash != [] && Dashed(points, lens, dash, runs, arcs)
    ensures Retained(runs) == runs
  {
    hide Ordered, EndBy, Covered, On, Traces;
    AllRetained(runs);
  }

  lemma Finish(points: seq<Point>, lens: seq<real>, dash: seq<real>, m: nat, remaining: real, drawing: bool,
               runs: seq<seq<Point>>, arcs: seq<seq<real>>, current: seq<Point>, cur: seq<real>)
    requires |lens| + 1 == |points| && dash != []
    requires Under(points, lens, dash, |lens|, m, Arc(lens, |lens|), remaining, drawing, runs, arcs, current, cur)
    requires AtVertex(lens, |lens|, drawing, cur)
    ensures if drawing && |current| >= 2 then Dashed(points, lens, dash, runs + [current], arcs + [cur])
            else Dashed(points, lens, dash, runs, arcs)
  {
    var to := Arc(lens, |lens|);
    hide On, Covered, Traces, Arc, Ordered, EndBy, EndBefore, InSpan;
    if drawing {
      EndsBy(arcs, cur[0], to);
      if |cur| >= 2 { CloseRun(dash, to, arcs, cur); }
    } else {
      SpanBegun(dash, m, to, remaining);
      Widen(arcs, SpanStart(dash, m), to);
    }
  }

  lemma SpanBegun(dash: seq<real>, m: nat, pos: real, remaining: real)
    requires dash != [] && InSpan(dash, m, pos, remaining)
    ensures SpanStart(dash, m) <= pos
  {
  }

  lemma StartDrawn(points: seq<Point>, lens: seq<real>, current: seq<Point>, cur: seq<real>)
    requires |lens| + 1 == |points| && ((current == [] && cur == []) || (current == [points[0]] && cur == [0.0]))
    ensures Drawn(points, lens, 0, [], [], current, cur)
  {
    VertexReaches(points, lens, 0);
    hide At, Reaches;
  }

  lemma Skip(points: seq<Point>, lens: seq<real>, dash: seq<real>, s: nat, m: nat, remaining: real, drawing: bool,
             runs: seq<seq<Point>>, arcs: seq<seq<real>>, current: seq<Point>, cur: seq<real>)
    requires |lens| + 1 == |points| && dash != [] && s < |lens| && lens[s] < MIN_SEGMENT_LEN
    requires Under(points, lens, dash, s, m, Arc(lens, s), remaining, drawing, runs, arcs, current, cur)
    requires AtVertex(lens, s, drawing, cur)
    ensures Under(points, lens, dash, s + 1, m, Arc(lens, s + 1), remaining, drawing, runs, arcs, current, cur)
    ensures AtVertex(lens, s + 1, drawing, cur)
  {
    hide Walk, Reaches, Traces;
    if |cur| >= 1 { ReachesOver(points, lens, s, current[|cur| - 1], cur[|cur| - 1]); }
  }

  method WalkSegment(points: seq<Point>, lens: seq<real>, dash: seq<real>, s: nat, ghost least: real,
                     runs0: seq<seq<Point>>, ghost arcs0: seq<seq<real>>, current0: seq<Point>, ghost cur0: seq<real>,
                     ghost m0: nat, dashIdx0: nat, remaining0: real, drawing0: bool)
      returns (runs: seq<seq<Point>>, ghost arcs: seq<seq<real>>, current: seq<Point>, ghost cur: seq<real>,
               ghost m: nat, dashIdx: nat, remaining: real, drawing: bool)
    requires |lens| + 1 == |points| && Usable(dash) && s < |lens| && lens[s] >= MIN_SEGMENT_LEN
    requires least > 0.0 && forall k :: 0 <= k < |dash| && dash[k] > 0.0 ==> dash[k] >= least
    requires Under(points, lens, dash, s, m0, Arc(lens, s), remaining0, drawing0, runs0, arcs0, current0, cur0)
    requires dashIdx0 == Wrap(m0, |dash|) && drawing0 == (m0 % 2 == 0) && AtVertex(lens, s, drawing0, cur0)
    ensures Under(points, lens, dash, s + 1, m, Arc(lens, s + 1), remaining, drawing, runs, arcs, current, cur)
    ensures dashIdx == Wrap(m, |dash|) && drawing == (m % 2 == 0) && AtVertex(lens, s + 1, drawing, cur)
  {
    runs, arcs, current, cur := runs0, arcs0, current0, cur0;
    m, dashIdx, remaining, drawing := m0, dashIdx0, remaining0, drawing0;
    var (a, b, segLen) := (points[s], points[s + 1], lens[s]);
    var walked := 0.0;
    AtStart(points, lens, s);
    hide Walk, Drawn, Usable, Along, Polylines, Arc;
    while segLen - walked > remaining
      invariant 0.0 <= walked <= segLen
      invariant Under(points, lens, dash, s, m, Arc(lens, s) + walked, remaining, drawing, runs, arcs, current, cur)
      invariant dashIdx == Wrap(m, |dash|) && drawing == (m % 2 == 0)
      invariant drawing ==> |cur| >= 1 && cur[0] < Arc(lens, s) + segLen
      decreases Turns(segLen - walked - remaining, least)
    {
      ghost var left := segLen - walked - remaining;
      ghost var pos, span := Arc(lens, s) + walked, m;
      RemainingIsLeft(points, lens, dash, s, m, pos, remaining, drawing, runs, arcs, current, cur);
      walked := walked + remaining;
      var at := Along(a, b, segLen, walked);
      var wasDrawing := drawing;
      ghost var p;
      dashIdx, drawing, p := NextSpan(dash, m, dashIdx, drawing);
      BoundaryDraws(points, lens, dash, s, m, pos, remaining, wasDrawing, runs, arcs, current, cur, p, walked);
      m, remaining := p, dash[dashIdx];
      TurnsDrop(left, least, segLen - walked - remaining);
      if drawing == wasDrawing {
        continue;
      }
      if wasDrawing {
        runs, arcs := runs + [current + [at]], arcs + [cur + [Arc(lens, s) + walked]];
        current, cur := [], [];
      } else {
        current, cur := [at], [Arc(lens, s) + walked];
      }
    }
    RemainingIsLeft(points, lens, dash, s, m, Arc(lens, s) + walked, remaining, drawing, runs, arcs, current, cur);
    SegmentDraws(points, lens, dash, s, m, Arc(lens, s) + walked, remaining, drawing, runs, arcs, current, cur);
    remaining := remaining - (segLen - walked);
    if drawing {
      current, cur := current + [b], cur + [Arc(lens, s + 1)];
    }
  }

  lemma RemainingIsLeft(points: seq<Point>, lens: seq<real>, dash: seq<real>, s: nat, m: nat, pos: real,
                        remaining: real, drawing: bool, runs: seq<seq<Point>>, arcs: seq<seq<real>>,
                        current: seq<Point>, cur: seq<real>)
    requires |lens| + 1 == |points| && dash != []
    requires Under(points, lens, dash, s, m, pos, remaining, drawing, runs, arcs, current, cur)
    ensures remaining >= 0.0 && |current| == |cur| && (drawing ==> |cur| >= 1) && (!drawing ==> cur == [])
  {
    hide Painted, Drawn, Ordered;
  }
}
