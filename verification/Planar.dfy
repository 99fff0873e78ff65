/** Exact planar geometry shared by the outline, curve and stroke models: real coordinates
    stand for the source's floating-point pixels. */
module Planar {
  datatype Point = Point(x: real, y: real)

  function Sub(a: Point, b: Point): Point { Point(a.x - b.x, a.y - b.y) }

  /** The determinant of two vectors. */
  function Det(u: Point, v: Point): real { u.x * v.y - u.y * v.x }

  function Dot(u: Point, v: Point): real { u.x * v.x + u.y * v.y }

  /** Positive when `c` is left of the directed segment `a -> b`, zero when collinear. */
  function Cross(a: Point, b: Point, c: Point): real {
    (b.x - a.x) * (c.y - a.y) - (b.y - a.y) * (c.x - a.x)
  }

  function Dist2(a: Point, b: Point): real {
    (a.x - b.x) * (a.x - b.x) + (a.y - b.y) * (a.y - b.y)
  }

  /** The point of the segment at parameter `t`. */
  function Lerp(a: Point, b: Point, t: real): Point {
    Point(a.x + (b.x - a.x) * t, a.y + (b.y - a.y) * t)
  }

  predicate LexLess(a: Point, b: Point) { a.x < b.x || (a.x == b.x && a.y < b.y) }

  /** `a` comes before `b` in the left-to-right sweep (`fwd`) or the right-to-left one. */
  predicate Before(fwd: bool, a: Point, b: Point) { if fwd then LexLess(a, b) else LexLess(b, a) }

  lemma CrossIsDet(a: Point, b: Point, c: Point)
    ensures Cross(a, b, c) == Det(Sub(b, a), Sub(c, a)) == Det(Sub(b, a), Sub(c, b))
  {
    assert (b.x - a.x) * (c.y - a.y) - (b.y - a.y) * (c.x - a.x)
        == (b.x - a.x) * (c.y - b.y) - (b.y - a.y) * (c.x - b.x);
  }

  lemma DetLinear(u: Point, v: Point, w: Point)
    ensures Det(u, Point(v.x + w.x, v.y + w.y)) == Det(u, v) + Det(u, w)
    ensures Det(u, v) == -Det(v, u)
  {
  }

  /** Any three plane vectors are dependent with their determinants as coefficients. */
  lemma VectorIdentity(u: Point, v: Point, w: Point)
    ensures Det(u, w) * v.x == Det(u, v) * w.x + Det(v, w) * u.x
    ensures Det(u, w) * v.y == Det(u, v) * w.y + Det(v, w) * u.y
  {
  }

  lemma MulNonNeg(a: real, b: real)
    requires a >= 0.0 && b >= 0.0
    ensures a * b >= 0.0
  {
  }

  lemma MulSign(a: real, b: real)
    requires b > 0.0
    ensures a * b >= 0.0 <==> a >= 0.0
    ensures a * b > 0.0 <==> a > 0.0
  {
  }

  predicate Ahead(u: Point) { u.x > 0.0 || (u.x == 0.0 && u.y > 0.0) }

  predicate AheadOrZero(u: Point) { Ahead(u) || u == Point(0.0, 0.0) }

  /** Orientation is transitive on vectors of one half plane. */
  lemma HalfPlaneTransitive(u: Point, v: Point, w: Point)
    requires AheadOrZero(u) && Ahead(v) && AheadOrZero(w)
    requires Det(u, v) >= 0.0 && Det(v, w) >= 0.0
    ensures Det(u, w) >= 0.0
    ensures Det(u, v) > 0.0 && Det(v, w) > 0.0 ==> Det(u, w) > 0.0
  {
    VectorIdentity(u, v, w);
    if v.x > 0.0 {
      MulNonNeg(Det(u, v), w.x);
      MulNonNeg(Det(v, w), u.x);
      MulSign(Det(u, w), v.x);
      if Det(u, v) > 0.0 && Det(v, w) > 0.0 {
        if u.x > 0.0 {
          MulSign(u.x, Det(v, w));
        } else if w.x > 0.0 {
          MulSign(w.x, Det(u, v));
        } else {
          MulNonNeg(u.y, v.x);
        }
      }
    } else {
      assert Det(v, w) == -v.y * w.x;
      MulSign(-w.x, v.y);
      assert w.x == 0.0;
      MulNonNeg(u.x, w.y);
    }
  }

  function Oriented(fwd: bool, u: Point): Point { if fwd then u else Point(-u.x, -u.y) }

  /** The same for either sweep direction: turning every vector round keeps determinants. */
  lemma SweepTransitive(fwd: bool, u: Point, v: Point, w: Point)
    requires AheadOrZero(Oriented(fwd, u)) && Ahead(Oriented(fwd, v)) && AheadOrZero(Oriented(fwd, w))
    requires Det(u, v) >= 0.0 && Det(v, w) >= 0.0
    ensures Det(u, w) >= 0.0
    ensures Det(u, v) > 0.0 && Det(v, w) > 0.0 ==> Det(u, w) > 0.0
  {
    HalfPlaneTransitive(Oriented(fwd, u), Oriented(fwd, v), Oriented(fwd, w));
  }

  lemma BeforeIsAhead(fwd: bool, a: Point, b: Point)
    ensures Before(fwd, a, b) <==> Ahead(Oriented(fwd, Sub(b, a)))
    ensures a == b ==> AheadOrZero(Oriented(fwd, Sub(b, a)))
  {
  }
}
