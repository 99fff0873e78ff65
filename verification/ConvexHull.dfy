/** Andrew's monotone chain (crates/renderer-core/src/outline.rs, `convex_hull`). */
module ConvexHull {
  import opened Planar

  // ---- Sorting and removal of repeats ---------------------------------------

  predicate Sorted(s: seq<Point>) {
    forall i, j :: 0 <= i < j < |s| ==> !LexLess(s[j], s[i])
  }

  predicate StrictlySorted(fwd: bool, s: seq<Point>) {
    forall i, j :: 0 <= i < j < |s| ==> Before(fwd, s[i], s[j])
  }

  function InsertSorted(p: Point, s: seq<Point>): (r: seq<Point>)
    requires Sorted(s)
    ensures Sorted(r)
    ensures forall q :: q in r <==> q == p || q in s
  {
    if s == [] || !LexLess(s[0], p) then [p] + s
    else
      var rest := InsertSorted(p, s[1..]);
      assert s == [s[0]] + s[1..];
      assert forall q :: q in rest ==> q == p || q in s[1..];
      assert forall k :: 0 <= k < |rest| ==> rest[k] in rest;
      [s[0]] + rest
  }

  function Sort(s: seq<Point>): (r: seq<Point>)
    ensures Sorted(r)
    ensures forall q :: q in r <==> q in s
  {
    if s == [] then []
    else
      assert s == [s[0]] + s[1..];
      InsertSorted(s[0], Sort(s[1..]))
  }

  /** Keep the first point of every run of equal neighbours. */
  function Dedup(s: seq<Point>): (r: seq<Point>)
    requires Sorted(s)
    ensures StrictlySorted(true, r)
    ensures forall q :: q in r <==> q in s
    ensures s != [] ==> r != [] && r[|r| - 1] == s[|s| - 1]
  {
    if |s| < 2 then s
    else
      var k := |s| - 1;
      var front := Dedup(s[..k]);
      assert s == s[..k] + [s[k]];
      if s[k] == s[k - 1] then front
      else front + [s[k]]
  }

  // ---- Chains ---------------------------------------------------------------

  /** A chain moves strictly in sweep order and turns strictly left at every inner vertex. */
  predicate Chain(fwd: bool, h: seq<Point>) {
    && (forall i :: 0 <= i < |h| - 1 ==> Before(fwd, h[i], h[i + 1]))
    && (forall i :: 0 <= i < |h| - 2 ==> Cross(h[i], h[i + 1], h[i + 2]) > 0.0)
  }

  /** `q` is left of, or on, every edge of `h`. */
  predicate LeftOfAll(h: seq<Point>, q: Point) {
    forall i :: 0 <= i < |h| - 1 ==> Cross(h[i], h[i + 1], q) >= 0.0
  }

  predicate Encloses(h: seq<Point>, qs: seq<Point>) {
    forall q :: q in qs ==> LeftOfAll(h, q)
  }

  /** `h` is the finished chain of the points `qs` swept so far. */
  predicate Swept(fwd: bool, h: seq<Point>, qs: seq<Point>) {
    && h != [] && qs != [] && h[0] == qs[0] && h[|h| - 1] == qs[|qs| - 1]
    && Chain(fwd, h) && Encloses(h, qs)
  }

  /** While `p` is being added: every swept point at or past the top of `h` is left of the
      segment from that top to `p`. */
  predicate Popping(fwd: bool, h: seq<Point>, qs: seq<Point>, p: Point) {
    && h != [] && qs != [] && h[0] == qs[0]
    && Chain(fwd, h) && Encloses(h, qs)
    && Before(fwd, h[|h| - 1], p)
    && forall q :: q in qs && !Before(fwd, q, h[|h| - 1]) ==> Cross(h[|h| - 1], p, q) >= 0.0
  }

  lemma {:induction false} ChainOrdered(fwd: bool, h: seq<Point>, i: nat, j: nat)
    requires Chain(fwd, h) && i < j < |h|
    ensures Before(fwd, h[i], h[j])
  {
    if i + 1 < j { ChainOrdered(fwd, h, i, j - 1); }
  }

  /** Directions of a chain's edges turn left from every earlier edge to every later one. */
  lemma {:induction false} EdgesTurnLeft(fwd: bool, h: seq<Point>, i: nat, j: nat)
    requires Chain(fwd, h) && i < j < |h| - 1
    ensures Det(Sub(h[i + 1], h[i]), Sub(h[j + 1], h[j])) > 0.0
  {
    CrossIsDet(h[j - 1], h[j], h[j + 1]);
    if i + 1 < j {
      EdgesTurnLeft(fwd, h, i, j - 1);
      BeforeIsAhead(fwd, h[i], h[i + 1]);
      BeforeIsAhead(fwd, h[j - 1], h[j]);
      BeforeIsAhead(fwd, h[j], h[j + 1]);
      SweepTransitive(fwd, Sub(h[i + 1], h[i]), Sub(h[j], h[j - 1]), Sub(h[j + 1], h[j]));
    }
  }

  /** A later vertex is strictly left of every earlier edge it does not touch. */
  lemma {:induction false} LaterVertexLeft(fwd: bool, h: seq<Point>, i: nat, k: nat)
    requires Chain(fwd, h) && i + 1 < k < |h|
    ensures Cross(h[i], h[i + 1], h[k]) > 0.0
    decreases k
  {
    CrossIsDet(h[i], h[i + 1], h[k]);
    if k == i + 2 {
    } else {
      LaterVertexLeft(fwd, h, i, k - 1);
      EdgesTurnLeft(fwd, h, i, k - 1);
      CrossIsDet(h[i], h[i + 1], h[k - 1]);
      DetLinear(Sub(h[i + 1], h[i]), Sub(h[k - 1], h[i]), Sub(h[k], h[k - 1]));
      assert Point(Sub(h[k - 1], h[i]).x + Sub(h[k], h[k - 1]).x, Sub(h[k - 1], h[i]).y + Sub(h[k], h[k - 1]).y)
          == Sub(h[k], h[i]);
    }
  }

  /** An earlier vertex is strictly left of every later edge it does not touch. */
  lemma {:induction false} EarlierVertexLeft(fwd: bool, h: seq<Point>, k: nat, i: nat)
    requires Chain(fwd, h) && k < i < |h| - 1
    ensures Cross(h[i], h[i + 1], h[k]) > 0.0
    decreases i - k
  {
    var d := Sub(h[i + 1], h[i]);
    EdgesTurnLeft(fwd, h, k, i);
    CrossIsDet(h[i], h[i + 1], h[k]);
    DetLinear(d, Sub(h[k + 1], h[k]), Sub(h[k], h[k + 1]));
    if k + 1 == i {
      assert Sub(h[k], h[i]).x == -Sub(h[i], h[k]).x && Sub(h[k], h[i]).y == -Sub(h[i], h[k]).y;
      DetNeg(d, Sub(h[i], h[k]));
    } else {
      EarlierVertexLeft(fwd, h, k + 1, i);
      CrossIsDet(h[i], h[i + 1], h[k + 1]);
      DetNeg(d, Sub(h[k + 1], h[k]));
      DetLinear(d, Sub(h[k + 1], h[i]), Sub(h[k], h[k + 1]));
      assert Point(Sub(h[k + 1], h[i]).x + Sub(h[k], h[k + 1]).x, Sub(h[k + 1], h[i]).y + Sub(h[k], h[k + 1]).y)
          == Sub(h[k], h[i]);
    }
  }

  lemma DetNeg(u: Point, v: Point)
    ensures Det(u, Point(-v.x, -v.y)) == Det(v, u)
  {
  }

  // ---- One step of the sweep ------------------------------------------------

  /** `T` is right of, or on, `S -> p`: then whatever was left of `T -> p` past `T`, or left of
      `S -> T` before `T`, is left of `S -> p`. */
  lemma SkippedVertex(fwd: bool, S: Point, T: Point, p: Point, q: Point)
    requires Before(fwd, S, T) && Before(fwd, T, p) && Cross(S, T, p) <= 0.0
    requires q == p || Before(fwd, q, p)
    requires if Before(fwd, q, T) then q == S || (Before(fwd, S, q) && Cross(S, T, q) >= 0.0) else Cross(T, p, q) >= 0.0
    ensures Cross(S, p, q) >= 0.0
  {
    var u, w := Sub(T, S), Sub(p, T);
    CrossIsDet(S, T, p); CrossIsDet(S, p, q); CrossIsDet(S, T, q); CrossIsDet(T, p, q);
    BeforeIsAhead(fwd, S, T); BeforeIsAhead(fwd, T, p); BeforeIsAhead(fwd, q, p); BeforeIsAhead(fwd, S, q);
    if Before(fwd, q, T) {
      // v = q - S and the long edge p - S: u x v >= 0 and (p - S) x u >= 0.
      if q != S {
        DetLinear(u, u, w);
        assert Sub(p, S) == Point(u.x + w.x, u.y + w.y);
        DetLinear(u, Sub(p, S), Sub(p, S));
        SweepTransitive(fwd, Sub(p, S), u, Sub(q, S));
      }
    } else {
      // Let r = p - q: r x (p - T) >= 0 and (p - T) x u >= 0.
      var r := Sub(p, q);
      assert Det(r, w) == Cross(T, p, q) by { DetSwap(w, Sub(q, p), r); CrossShift(T, p, q); }
      assert Det(w, u) >= 0.0 by { DetLinear(u, w, w); }
      SweepTransitive(fwd, r, w, u);
      assert Cross(S, p, q) == Det(r, Sub(p, S)) by { CrossShift(S, p, q); DetSwap(Sub(p, S), Sub(q, p), r); }
      DetLinear(r, u, w);
      assert Sub(p, S) == Point(u.x + w.x, u.y + w.y);
    }
  }

  lemma CrossShift(a: Point, b: Point, c: Point)
    ensures Cross(a, b, c) == Det(Sub(b, a), Sub(c, b))
  {
    CrossIsDet(a, b, c);
  }

  lemma DetSwap(u: Point, v: Point, r: Point)
    requires r == Point(-v.x, -v.y)
    ensures Det(u, v) == Det(r, u)
  {
  }

  /** A point behind `T` and left of `S -> T` stays left of the edge from `T` to a left turn `p`. */
  lemma BehindTop(fwd: bool, S: Point, T: Point, p: Point, q: Point)
    requires Before(fwd, S, T) && Before(fwd, T, p) && Before(fwd, q, T)
    requires Cross(S, T, p) > 0.0 && Cross(S, T, q) >= 0.0
    ensures Cross(T, p, q) >= 0.0
  {
    var u, w, v := Sub(T, S), Sub(p, T), Sub(T, q);
    CrossShift(S, T, p); CrossShift(S, T, q); CrossIsDet(T, p, q);
    BeforeIsAhead(fwd, S, T); BeforeIsAhead(fwd, T, p); BeforeIsAhead(fwd, q, T);
    DetSwap(u, Sub(q, T), v);
    DetSwap(w, Sub(q, T), v);
    SweepTransitive(fwd, v, u, w);
  }

  lemma StartPopping(fwd: bool, h: seq<Point>, qs: seq<Point>, p: Point)
    requires Swept(fwd, h, qs) && StrictlySorted(fwd, qs + [p])
    ensures Popping(fwd, h, qs, p)
  {
    var r := qs[|qs| - 1];
    assert (qs + [p])[|qs| - 1] == r && (qs + [p])[|qs|] == p;
    forall q | q in qs && !Before(fwd, q, r)
      ensures Cross(r, p, q) >= 0.0
    {
      var i :| 0 <= i < |qs| && qs[i] == q;
      assert (qs + [p])[i] == q;
      assert q == r;
    }
  }

  lemma PopKeeps(fwd: bool, h: seq<Point>, qs: seq<Point>, p: Point)
    requires Popping(fwd, h, qs, p) && StrictlySorted(fwd, qs + [p]) && |h| >= 2
    requires Cross(h[|h| - 2], h[|h| - 1], p) <= 0.0
    ensures Popping(fwd, h[..|h| - 1], qs, p)
  {
    var S, T := h[|h| - 2], h[|h| - 1];
    var g := h[..|h| - 1];
    forall q | q in qs ensures LeftOfAll(g, q) { assert LeftOfAll(h, q); }
    BeforeTrans(fwd, S, T, p);
    forall q | q in qs && !Before(fwd, q, S)
      ensures Cross(S, p, q) >= 0.0
    {
      var i :| 0 <= i < |qs| && qs[i] == q;
      assert (qs + [p])[i] == q && (qs + [p])[|qs|] == p;
      assert LeftOfAll(h, q);
      assert Cross(h[|h| - 2], h[|h| - 2 + 1], q) >= 0.0;
      SkippedVertex(fwd, S, T, p, q);
    }
  }

  lemma BeforeTrans(fwd: bool, a: Point, b: Point, c: Point)
    requires Before(fwd, a, b) && Before(fwd, b, c)
    ensures Before(fwd, a, c)
  {
  }

  lemma PushKeeps(fwd: bool, h: seq<Point>, qs: seq<Point>, p: Point)
    requires Popping(fwd, h, qs, p) && StrictlySorted(fwd, qs + [p])
    requires |h| >= 2 ==> Cross(h[|h| - 2], h[|h| - 1], p) > 0.0
    ensures Swept(fwd, h + [p], qs + [p])
  {
    PushedChain(fwd, h, p);
    PushedPointLeft(fwd, h, p);
    forall q | q in qs ensures LeftOfAll(h + [p], q) {
      PushedEdgeLeft(fwd, h, qs, p, q);
    }
    hide LeftOfAll, Chain, StrictlySorted;
  }

  lemma PushedChain(fwd: bool, h: seq<Point>, p: Point)
    requires Chain(fwd, h) && h != [] && Before(fwd, h[|h| - 1], p)
    requires |h| >= 2 ==> Cross(h[|h| - 2], h[|h| - 1], p) > 0.0
    ensures Chain(fwd, h + [p])
  {
    hide Cross, Before;
  }

  lemma PushedPointLeft(fwd: bool, h: seq<Point>, p: Point)
    requires Chain(fwd, h + [p])
    ensures LeftOfAll(h + [p], p)
  {
    var g := h + [p];
    forall i | 0 <= i < |g| - 1 ensures Cross(g[i], g[i + 1], p) >= 0.0 {
      if i + 1 < |h| { LaterVertexLeft(fwd, g, i, |h|); }
    }
  }

  lemma PushedEdgeLeft(fwd: bool, h: seq<Point>, qs: seq<Point>, p: Point, q: Point)
    requires Popping(fwd, h, qs, p) && StrictlySorted(fwd, qs + [p]) && q in qs
    requires |h| >= 2 ==> Cross(h[|h| - 2], h[|h| - 1], p) > 0.0
    ensures LeftOfAll(h + [p], q)
  {
    var g, n := h + [p], |h|;
    var T := h[n - 1];
    assert LeftOfAll(h, q);
    if Before(fwd, q, T) {
      if n == 1 {
        FirstIsFirst(fwd, qs, p, q);
      } else {
        assert Cross(h[n - 2], h[n - 2 + 1], q) >= 0.0;
        BehindTop(fwd, h[n - 2], T, p, q);
      }
    }
    assert Cross(T, p, q) >= 0.0;
    forall i | 0 <= i < n ensures Cross(g[i], g[i + 1], q) >= 0.0 {
      assert i < n - 1 ==> g[i] == h[i] && g[i + 1] == h[i + 1];
    }
  }

  lemma FirstIsFirst(fwd: bool, qs: seq<Point>, p: Point, q: Point)
    requires q in qs && StrictlySorted(fwd, qs + [p])
    ensures !Before(fwd, q, qs[0])
  {
    var i :| 0 <= i < |qs| && qs[i] == q;
    assert (qs + [p])[0] == qs[0] && (qs + [p])[i] == q;
  }

  // ---- The two chains together ----------------------------------------------

  function Next(n: nat, i: nat): (j: nat)
    requires i < n
  {
    if i + 1 < n then i + 1 else 0
  }

  /** A strictly convex counter-clockwise polygon round all of `points`: every other vertex is
      strictly left of each edge, every input point left of it or on it. */
  predicate IsConvexHull(hull: seq<Point>, points: seq<Point>) {
    && |hull| >= 3
    && (forall p :: p in hull ==> p in points)
    && (forall i, k :: 0 <= i < |hull| && 0 <= k < |hull| && k != i && k != Next(|hull|, i) ==>
          Cross(hull[i], hull[Next(|hull|, i)], hull[k]) > 0.0)
    && (forall i, q :: 0 <= i < |hull| && q in points ==>
          Cross(hull[i], hull[Next(|hull|, i)], q) >= 0.0)
  }

  predicate Collinear(points: seq<Point>) {
    forall a, b, c :: a in points && b in points && c in points ==> Cross(a, b, c) == 0.0
  }

  /** A vertex `v` on the line of an edge `a -> b` that has both neighbours of `v` on its left. */
  lemma OnEdgeLine(fwd: bool, a: Point, b: Point, s: Point, v: Point, t: Point)
    requires Before(fwd, a, b) && Before(fwd, s, v) && Before(fwd, v, t)
    requires Cross(a, b, s) >= 0.0 && Cross(a, b, t) >= 0.0 && Cross(a, b, v) == 0.0
    ensures Cross(t, v, s) <= 0.0
  {
    var d, x, y := Sub(b, a), Sub(t, v), Sub(v, s);
    CrossIsDet(a, b, v); CrossIsDet(a, b, t); CrossIsDet(a, b, s);
    DetLinear(d, Sub(v, a), x);
    assert Sub(t, a) == Point(Sub(v, a).x + x.x, Sub(v, a).y + x.y);
    DetLinear(d, Sub(s, a), y);
    assert Sub(v, a) == Point(Sub(s, a).x + y.x, Sub(s, a).y + y.y);
    DetLinear(d, y, y);
    BeforeIsAhead(fwd, a, b); BeforeIsAhead(fwd, s, v); BeforeIsAhead(fwd, v, t);
    SweepTransitive(fwd, y, d, x);
    CrossShift(t, v, s);
    DetNeg(Sub(v, t), y);
    assert Sub(s, v) == Point(-y.x, -y.y);
    DetNeg(y, x);
    assert Sub(v, t) == Point(-x.x, -x.y);
    DetLinear(x, y, y);
  }

  /** An inner vertex `v` of one chain, seen from an edge `a -> b` of the other. */
  lemma AcrossStrict(fwd: bool, a: Point, b: Point, s: Point, v: Point, t: Point)
    requires Before(fwd, a, b) && Before(fwd, s, v) && Before(fwd, v, t)
    requires Cross(t, v, s) > 0.0
    requires Cross(a, b, s) >= 0.0 && Cross(a, b, t) >= 0.0 && Cross(a, b, v) >= 0.0
    ensures Cross(a, b, v) > 0.0
  {
    if Cross(a, b, v) == 0.0 { OnEdgeLine(fwd, a, b, s, v, t); }
  }

  /** All points on the line through two distinct points are collinear. */
  lemma OnOneLine(p: Point, r: Point, a: Point, b: Point, c: Point)
    requires p != r
    requires Cross(p, r, a) == 0.0 && Cross(p, r, b) == 0.0 && Cross(p, r, c) == 0.0
    ensures Cross(a, b, c) == 0.0
  {
    var d := Sub(r, p);
    CrossIsDet(p, r, a); CrossIsDet(p, r, b); CrossIsDet(p, r, c);
    ParallelDifference(d, Sub(a, p), Sub(b, p), Sub(b, a));
    ParallelDifference(d, Sub(a, p), Sub(c, p), Sub(c, a));
    CrossIsDet(a, b, c);
    Parallel(d, Sub(b, a), Sub(c, a));
  }

  lemma ParallelDifference(d: Point, u: Point, v: Point, w: Point)
    requires Det(d, u) == 0.0 && Det(d, v) == 0.0 && w == Sub(v, u)
    ensures Det(d, w) == 0.0
  {
  }

  lemma Parallel(d: Point, u: Point, v: Point)
    requires d != Point(0.0, 0.0) && Det(d, u) == 0.0 && Det(d, v) == 0.0
    ensures Det(u, v) == 0.0
  {
    VectorIdentity(u, d, v);
    DetLinear(u, d, d);
    assert Det(u, v) * d.x == 0.0 && Det(u, v) * d.y == 0.0;
  }

  predicate BothSwept(lower: seq<Point>, upper: seq<Point>, points: seq<Point>) {
    && |lower| >= 2 && |upper| >= 2
    && lower[0] == upper[|upper| - 1] && upper[0] == lower[|lower| - 1]
    && Chain(true, lower) && Chain(false, upper)
    && Encloses(lower, points) && Encloses(upper, points)
    && (forall p :: p in lower ==> p in points) && (forall p :: p in upper ==> p in points)
  }

  /** Every vertex off a lower edge is strictly left of it. */
  lemma LowerEdgeStrict(lower: seq<Point>, upper: seq<Point>, points: seq<Point>, i: nat, k: nat)
    requires BothSwept(lower, upper, points) && i < |lower| - 1
    ensures k < |lower| && k != i && k != i + 1 ==> Cross(lower[i], lower[i + 1], lower[k]) > 0.0
    ensures 0 < k < |upper| - 1 ==> Cross(lower[i], lower[i + 1], upper[k]) > 0.0
  {
    if k < |lower| && k > i + 1 { LaterVertexLeft(true, lower, i, k); }
    if k < i { EarlierVertexLeft(true, lower, k, i); }
    if 0 < k < |upper| - 1 {
      assert LeftOfAll(lower, upper[k - 1]) && LeftOfAll(lower, upper[k]) && LeftOfAll(lower, upper[k + 1]);
      assert Before(false, upper[k - 1], upper[k - 1 + 1]);
      assert Cross(upper[k - 1], upper[k - 1 + 1], upper[k - 1 + 2]) > 0.0;
      AcrossStrict(true, lower[i], lower[i + 1], upper[k + 1], upper[k], upper[k - 1]);
    }
  }

  lemma UpperEdgeStrict(lower: seq<Point>, upper: seq<Point>, points: seq<Point>, i: nat, k: nat)
    requires BothSwept(lower, upper, points) && i < |upper| - 1
    ensures k < |upper| && k != i && k != i + 1 ==> Cross(upper[i], upper[i + 1], upper[k]) > 0.0
    ensures 0 < k < |lower| - 1 ==> Cross(upper[i], upper[i + 1], lower[k]) > 0.0
  {
    if k < |upper| && k > i + 1 { LaterVertexLeft(false, upper, i, k); }
    if k < i { EarlierVertexLeft(false, upper, k, i); }
    if 0 < k < |lower| - 1 {
      assert LeftOfAll(upper, lower[k - 1]) && LeftOfAll(upper, lower[k]) && LeftOfAll(upper, lower[k + 1]);
      assert Before(true, lower[k - 1], lower[k - 1 + 1]);
      assert Cross(lower[k - 1], lower[k - 1 + 1], lower[k - 1 + 2]) > 0.0;
      AcrossStrict(false, upper[i], upper[i + 1], lower[k + 1], lower[k], lower[k - 1]);
    }
  }

  /** Where edge `i` of the joined outline comes from. */
  lemma EdgeOfJoined(lower: seq<Point>, upper: seq<Point>, hull: seq<Point>, i: nat)
    requires |lower| >= 2 && |upper| >= 2 && lower[0] == upper[|upper| - 1] && upper[0] == lower[|lower| - 1]
    requires hull == lower + upper[1..|upper| - 1] && i < |hull|
    ensures i < |lower| - 1 ==> hull[i] == lower[i] && hull[Next(|hull|, i)] == lower[i + 1]
    ensures i >= |lower| - 1 ==> var u := i - |lower| + 1;
              u < |upper| - 1 && hull[i] == upper[u] && hull[Next(|hull|, i)] == upper[u + 1]
  {
  }

  /** Which chain, and where, vertex `k` of the joined outline is when seen from a lower edge. */
  lemma JoinedStrictLower(lower: seq<Point>, upper: seq<Point>, points: seq<Point>, i: nat, k: nat, v: Point)
    requires BothSwept(lower, upper, points) && i < |lower| - 1 && k < |lower| + |upper| - 2
    requires k != i && k != i + 1 && !(k == 0 && i + 1 == |lower| + |upper| - 2)
    requires v == if k < |lower| then lower[k] else upper[k - |lower| + 1]
    ensures Cross(lower[i], lower[i + 1], v) > 0.0
  {
    LowerEdgeStrict(lower, upper, points, i, if k < |lower| then k else k - |lower| + 1);
  }

  lemma JoinedStrictUpper(lower: seq<Point>, upper: seq<Point>, points: seq<Point>, i: nat, k: nat, v: Point)
    requires BothSwept(lower, upper, points) && i < |upper| - 1 && k < |lower| + |upper| - 2
    requires k != i + |lower| - 1 && k != i + |lower| && !(k == 0 && i == |upper| - 2)
    requires v == if k < |lower| then lower[k] else upper[k - |lower| + 1]
    ensures Cross(upper[i], upper[i + 1], v) > 0.0
  {
    UpperEdgeStrict(lower, upper, points, i,
      if k == 0 then |upper| - 1 else if k < |lower| - 1 then k else k - |lower| + 1);
  }

  lemma JoinedStrict(lower: seq<Point>, upper: seq<Point>, points: seq<Point>, hull: seq<Point>, i: nat, k: nat)
    requires BothSwept(lower, upper, points) && hull == lower + upper[1..|upper| - 1]
    requires i < |hull| && k < |hull| && k != i && k != Next(|hull|, i)
    ensures Cross(hull[i], hull[Next(|hull|, i)], hull[k]) > 0.0
  {
    EdgeOfJoined(lower, upper, hull, i);
    if i < |lower| - 1 {
      JoinedStrictLower(lower, upper, points, i, k, hull[k]);
    } else {
      JoinedStrictUpper(lower, upper, points, i - |lower| + 1, k, hull[k]);
    }
  }

  lemma JoinedEncloses(lower: seq<Point>, upper: seq<Point>, points: seq<Point>, hull: seq<Point>, i: nat, q: Point)
    requires BothSwept(lower, upper, points) && hull == lower + upper[1..|upper| - 1]
    requires i < |hull| && q in points
    ensures Cross(hull[i], hull[Next(|hull|, i)], q) >= 0.0
  {
    EdgeOfJoined(lower, upper, hull, i);
    assert LeftOfAll(lower, q) && LeftOfAll(upper, q);
  }

  lemma JoinedCollinear(lower: seq<Point>, upper: seq<Point>, points: seq<Point>)
    requires BothSwept(lower, upper, points)
    ensures Collinear(points) <==> |lower| == 2 && |upper| == 2
  {
    if |lower| >= 3 { assert Cross(lower[0], lower[0 + 1], lower[0 + 2]) > 0.0; }
    if |upper| >= 3 { assert Cross(upper[0], upper[0 + 1], upper[0 + 2]) > 0.0; }
    if |lower| == 2 && |upper| == 2 { TwoChainsCollinear(lower, upper, points); }
  }

  lemma JoinedIsHull(lower: seq<Point>, upper: seq<Point>, points: seq<Point>, hull: seq<Point>)
    requires BothSwept(lower, upper, points) && hull == lower + upper[1..|upper| - 1]
    ensures Collinear(points) ==> hull == [lower[0], lower[|lower| - 1]]
    ensures !Collinear(points) ==> IsConvexHull(hull, points)
  {
    JoinedCollinear(lower, upper, points);
    if !Collinear(points) {
      forall i, k | 0 <= i < |hull| && 0 <= k < |hull| && k != i && k != Next(|hull|, i)
        ensures Cross(hull[i], hull[Next(|hull|, i)], hull[k]) > 0.0
      {
        JoinedStrict(lower, upper, points, hull, i, k);
      }
      forall i, q | 0 <= i < |hull| && q in points
        ensures Cross(hull[i], hull[Next(|hull|, i)], q) >= 0.0
      {
        JoinedEncloses(lower, upper, points, hull, i, q);
      }
    }
  }

  lemma TwoChainsCollinear(lower: seq<Point>, upper: seq<Point>, points: seq<Point>)
    requires BothSwept(lower, upper, points) && |lower| == 2 && |upper| == 2
    ensures Collinear(points)
  {
    var p, r := lower[0], lower[1];
    assert Before(true, lower[0], lower[0 + 1]);
    forall q | q in points ensures Cross(p, r, q) == 0.0 {
      assert LeftOfAll(lower, q) && LeftOfAll(upper, q);
      assert Cross(lower[0], lower[0 + 1], q) >= 0.0 && Cross(upper[0], upper[0 + 1], q) >= 0.0;
      CrossReversed(p, r, q);
    }
    forall a, b, c | a in points && b in points && c in points ensures Cross(a, b, c) == 0.0 {
      OnOneLine(p, r, a, b, c);
    }
  }

  lemma CrossReversed(a: Point, b: Point, q: Point)
    ensures Cross(b, a, q) == -Cross(a, b, q)
  {
  }

  // ---- The algorithm --------------------------------------------------------

  function Reverse(s: seq<Point>): (r: seq<Point>)
    ensures |r| == |s| && forall i :: 0 <= i < |s| ==> r[i] == s[|s| - 1 - i]
  {
    seq(|s|, i requires 0 <= i < |s| => s[|s| - 1 - i])
  }

  lemma PrefixSorted(fwd: bool, s: seq<Point>, k: nat)
    requires StrictlySorted(fwd, s) && k < |s|
    ensures s[..k] + [s[k]] == s[..k + 1] && StrictlySorted(fwd, s[..k + 1])
  {
  }

  predicate IsExtremes(hull: seq<Point>, points: seq<Point>) {
    && |hull| == 2 && hull[0] in points && hull[1] in points && LexLess(hull[0], hull[1])
    && forall q :: q in points ==> !LexLess(q, hull[0]) && !LexLess(hull[1], q)
  }

  predicate RightTurn(s: seq<Point>, j: int, p: Point) {
    1 <= j < |s| && Cross(s[j - 1], s[j], p) <= 0.0
  }

  /** The inner loop of both sweeps: pop while the top two and `p` do not turn left. */
  method PopRightTurns(stack: seq<Point>, keep: nat, p: Point) returns (r: seq<Point>)
    requires keep >= 2
    ensures r <= stack && (|r| + 1 >= keep || r == stack)
    ensures |r| >= keep ==> Cross(r[|r| - 2], r[|r| - 1], p) > 0.0
    ensures forall j :: |r| <= j < |stack| ==> RightTurn(stack, j, p)
  {
    r := stack;
    while |r| >= keep && Cross(r[|r| - 2], r[|r| - 1], p) <= 0.0
      invariant r <= stack && (|r| + 1 >= keep || r == stack)
      invariant forall j :: |r| <= j < |stack| ==> RightTurn(stack, j, p)
    {
      r := r[..|r| - 1];
    }
  }

  lemma RightTurnsOfPrefix(h: seq<Point>, g: seq<Point>, m: nat, p: Point)
    requires 1 <= m < |h| && g == h[..|h| - 1]
    requires forall j :: m <= j < |h| ==> RightTurn(h, j, p)
    ensures forall j :: m <= j < |g| ==> RightTurn(g, j, p)
  {
    forall j | m <= j < |g| ensures RightTurn(g, j, p) {
      assert RightTurn(h, j, p);
      assert g[j] == h[j] && g[j - 1] == h[j - 1];
    }
  }

  lemma {:induction false} PopsKeep(fwd: bool, h: seq<Point>, m: nat, qs: seq<Point>, p: Point)
    requires Popping(fwd, h, qs, p) && StrictlySorted(fwd, qs + [p]) && 1 <= m <= |h|
    requires forall j :: m <= j < |h| ==> RightTurn(h, j, p)
    ensures Popping(fwd, h[..m], qs, p)
    decreases |h|
  {
    if m < |h| {
      assert RightTurn(h, |h| - 1, p);
      PopKeeps(fwd, h, qs, p);
      var g := h[..|h| - 1];
      RightTurnsOfPrefix(h, g, m, p);
      PopsKeep(fwd, g, m, qs, p);
      assert g[..m] == h[..m];
    } else {
      assert h[..m] == h;
    }
  }

  /** One round of a sweep whose chain `h` is popped down to its first `m` points. */
  lemma Round(fwd: bool, h: seq<Point>, m: nat, qs: seq<Point>, p: Point)
    requires Swept(fwd, h, qs) && StrictlySorted(fwd, qs + [p]) && 1 <= m <= |h|
    requires forall j :: m <= j < |h| ==> RightTurn(h, j, p)
    requires m >= 2 ==> Cross(h[m - 2], h[m - 1], p) > 0.0
    ensures Swept(fwd, h[..m] + [p], qs + [p])
  {
    StartPopping(fwd, h, qs, p);
    PopsKeep(fwd, h, m, qs, p);
    PushKeeps(fwd, h[..m], qs, p);
  }

  /** The first loop: left to right over the sorted points. */
  method LowerChain(pts: seq<Point>) returns (hull: seq<Point>)
    requires |pts| >= 3 && StrictlySorted(true, pts)
    ensures Swept(true, hull, pts)
    ensures forall q :: q in hull ==> q in pts
  {
    hull := [];
    for k := 0 to |pts|
      invariant k == 0 ==> hull == []
      invariant k > 0 ==> Swept(true, hull, pts[..k])
      invariant forall q :: q in hull ==> q in pts
    {
      var p := pts[k];
      var r := PopRightTurns(hull, 2, p);
      PrefixSorted(true, pts, k);
      if k > 0 {
        Round(true, hull, |r|, pts[..k], p);
        assert hull[..|r|] == r;
      }
      hull := r + [p];
    }
    assert pts[..|pts|] == pts;
  }

  /** `hull` is the lower chain with the rest of the upper chain `u` on top. */
  ghost predicate OnTop(lower: seq<Point>, u: seq<Point>, hull: seq<Point>) {
    lower != [] && u != [] && u[0] == lower[|lower| - 1] && hull == lower + u[1..]
  }

  /** What popping the common stack does to the upper chain alone. */
  lemma PopsOnTop(lower: seq<Point>, u: seq<Point>, hull: seq<Point>, r: seq<Point>, p: Point)
    requires OnTop(lower, u, hull) && r <= hull && |r| >= |lower|
    requires |r| > |lower| ==> Cross(r[|r| - 2], r[|r| - 1], p) > 0.0
    requires forall j :: |r| <= j < |hull| ==> RightTurn(hull, j, p)
    ensures var m := |r| - |lower| + 1;
              && m <= |u| && OnTop(lower, u[..m], r)
              && (m >= 2 ==> Cross(u[m - 2], u[m - 1], p) > 0.0)
              && (forall j :: m <= j < |u| ==> RightTurn(u, j, p))
  {
    var b := |lower| - 1;
    var m := |r| - b;
    assert r == lower + u[..m][1..];
    if m >= 2 {
      assert r[|r| - 1] == u[m - 1];
      assert r[|r| - 2] == u[m - 2];
    }
    forall j | m <= j < |u| ensures RightTurn(u, j, p) {
      assert RightTurn(hull, b + j, p);
      assert hull[b + j] == u[j];
      assert hull[b + j - 1] == u[j - 1];
    }
  }

  /** The second loop: right to left, on top of the lower chain. It first pushes the rightmost
      point a second time; the next point always pops that copy. */
  method UpperChain(rpts: seq<Point>, lower: seq<Point>) returns (hull: seq<Point>)
    requires |rpts| >= 3 && StrictlySorted(false, rpts)
    requires lower != [] && lower[|lower| - 1] == rpts[0]
    ensures |hull| >= |lower| && hull[..|lower|] == lower
    ensures Swept(false, hull[|lower| - 1..], rpts)
    ensures forall q :: q in hull ==> q in lower || q in rpts
  {
    hull := lower;
    var lowerLen := |hull| + 1;
    ghost var u := [rpts[0]];
    for k := 0 to |rpts|
      invariant OnTop(lower, u, hull)
      invariant k == 0 ==> u == [rpts[0]]
      invariant k == 1 ==> u == [rpts[0], rpts[0]]
      invariant k > 1 ==> Swept(false, u, rpts[..k])
      invariant forall q :: q in hull ==> q in lower || q in rpts
    {
      var p := rpts[k];
      var r := PopRightTurns(hull, lowerLen, p);
      PopsOnTop(lower, u, hull, r, p);
      ghost var m := |r| - |lower| + 1;
      PrefixSorted(false, rpts, k);
      if k == 1 {
        DoubledStart(rpts, u, m, p);
      } else if k > 1 {
        Round(false, u, m, rpts[..k], p);
      }
      u := u[..m] + [p];
      hull := r + [p];
    }
    assert rpts[..|rpts|] == rpts;
    assert hull[|lower| - 1..] == u;
  }

  /** The doubled rightmost point makes a zero turn, so it goes when the second point arrives. */
  lemma DoubledStart(rpts: seq<Point>, u: seq<Point>, m: nat, p: Point)
    requires |rpts| >= 2 && StrictlySorted(false, rpts) && p == rpts[1]
    requires u == [rpts[0], rpts[0]] && 1 <= m <= |u|
    requires m >= 2 ==> Cross(u[m - 2], u[m - 1], p) > 0.0
    ensures Swept(false, u[..m] + [p], rpts[..2])
  {
    var h := [rpts[0]];
    PrefixSorted(false, rpts, 1);
    Round(false, h, 1, rpts[..1], p);
    assert m == 1 && u[..1] == h && h[..1] == h;
  }

  /** Both loops: `full` still repeats its first point at the end. */
  lemma SweptBoth(pts: seq<Point>, points: seq<Point>, lower: seq<Point>, full: seq<Point>)
    requires |pts| >= 3 && StrictlySorted(true, pts) && (forall q :: q in points <==> q in pts)
    requires Swept(true, lower, pts) && |full| >= |lower| && full[..|lower|] == lower
    requires Swept(false, full[|lower| - 1..], Reverse(pts))
    requires forall q :: q in full ==> q in pts
    ensures BothSwept(lower, full[|lower| - 1..], points)
    ensures full[..|full| - 1] == lower + full[|lower| - 1..][1..|full| - |lower|]
    ensures lower[0] == pts[0] && lower[|lower| - 1] == pts[|pts| - 1]
  {
    var upper := full[|lower| - 1..];
    assert Before(true, pts[0], pts[|pts| - 1]);
    forall q | q in points ensures LeftOfAll(upper, q) {
      var i :| 0 <= i < |pts| && pts[i] == q;
      assert Reverse(pts)[|pts| - 1 - i] == q;
    }
    forall q | q in lower ensures q in points { assert q in full; }
    forall q | q in upper ensures q in points { assert q in full; }
  }

  method ConvexHull(points: seq<Point>) returns (hull: seq<Point>)
    ensures forall p :: p in hull ==> p in points
    ensures !Collinear(points) ==> IsConvexHull(hull, points)
    ensures Collinear(points) && (exists a, b :: a in points && b in points && a != b) ==> IsExtremes(hull, points)
    ensures (forall a, b :: a in points && b in points ==> a == b) ==> |hull| <= 1 && (hull == [] <==> points == [])
  {
    var pts := Dedup(Sort(points));
    hide Dedup, Sort, StrictlySorted, IsConvexHull, IsExtremes, Collinear, Swept, Reverse, BothSwept;
    if |pts| < 3 {
      FewPoints(points, pts);
      return pts;
    }
    ManyPoints(points, pts);
    var lower := LowerChain(pts);
    SweptLast(lower, pts);
    hull := UpperChain(Reverse(pts), lower);
    SweptBoth(pts, points, lower, hull);
    JoinedIsHull(lower, hull[|lower| - 1..], points, hull[..|hull| - 1]);
    ExtremesOf(points, pts);
    forall p | p in hull[..|hull| - 1] ensures p in points { assert p in hull; }
    hull := hull[..|hull| - 1];
  }

  lemma SweptLast(h: seq<Point>, qs: seq<Point>)
    requires Swept(true, h, qs)
    ensures h != [] && h[|h| - 1] == qs[|qs| - 1]
  {
  }

  lemma ManyPoints(points: seq<Point>, pts: seq<Point>)
    requires |pts| >= 3 && StrictlySorted(true, pts) && (forall q :: q in points <==> q in pts)
    ensures exists a, b :: a in points && b in points && a != b
    ensures StrictlySorted(false, Reverse(pts)) && |Reverse(pts)| == |pts| && Reverse(pts)[0] == pts[|pts| - 1]
    ensures forall q :: q in Reverse(pts) ==> q in pts
  {
    assert Before(true, pts[0], pts[1]);
    assert pts[0] in points && pts[1] in points;
  }

  lemma ExtremesOf(points: seq<Point>, pts: seq<Point>)
    requires |pts| >= 2 && StrictlySorted(true, pts) && (forall q :: q in points <==> q in pts)
    ensures IsExtremes([pts[0], pts[|pts| - 1]], points)
  {
    assert pts[0] in pts && pts[|pts| - 1] in pts;
    forall q | q in points ensures !LexLess(q, pts[0]) && !LexLess(pts[|pts| - 1], q) {
      var i :| 0 <= i < |pts| && pts[i] == q;
    }
  }

  lemma FewPoints(points: seq<Point>, pts: seq<Point>)
    requires |pts| < 3 && StrictlySorted(true, pts) && (forall q :: q in points <==> q in pts)
    ensures Collinear(points)
    ensures |pts| == 2 ==> IsExtremes(pts, points)
    ensures (exists a, b :: a in points && b in points && a != b) <==> |pts| == 2
    ensures points == [] <==> pts == []
  {
    if points != [] { assert points[0] in points; }
    if pts != [] { assert pts[0] in points; }
    if |pts| == 2 {
      ExtremesOf(points, pts);
      assert pts == [pts[0], pts[1]];
      assert pts[0] in points && pts[1] in points && pts[0] != pts[1] by { assert Before(true, pts[0], pts[1]); }
    }
    forall a, b, c | a in points && b in points && c in points ensures Cross(a, b, c) == 0.0 {
      assert a in pts && b in pts && c in pts;
    }
  }
}
