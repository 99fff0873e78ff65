/** The even-odd test on strictly convex rings, told by orientation alone
    (crates/renderer-core/src/hit_test_object.rs, `point_in_polygon`). */
module ConvexRings {
  import opened Planar
  import opened HitTest

  // ---- One edge -------------------------------------------------------------

  /** The edge from `b` to `a` goes up across the level of `p`. */
  predicate Up(b: Point, a: Point, p: Point) { b.y <= p.y < a.y }

  /** The ray meets a straddling edge exactly when `p` is left of the edge directed upwards. */
  lemma CrossesBySide(b: Point, a: Point, p: Point)
    ensures Crosses(a, b, p) <==> (Up(b, a, p) && Cross(b, a, p) > 0.0) || (Up(a, b, p) && Cross(a, b, p) > 0.0)
  {
    if Up(b, a, p) { SideIsMeet(b, a, p); }
    if Up(a, b, p) { SideIsMeet(a, b, p); }
    hide Cross, MeetX;
  }

  lemma SideIsMeet(b: Point, a: Point, p: Point)
    requires Up(b, a, p)
    ensures Cross(b, a, p) > 0.0 <==> p.x < MeetX(a, b, p)
    ensures Cross(b, a, p) > 0.0 <==> p.x < MeetX(b, a, p)
  {
    var h := a.y - b.y;
    var m, n := MeetX(a, b, p) - p.x, MeetX(b, a, p) - p.x;
    MeetTimes(a, b, p);
    MeetTimes(b, a, p);
    assert m * h == Cross(b, a, p);
    assert n * h == Cross(b, a, p);
    MulSign(m, h);
    MulSign(n, h);
  }

  lemma MeetTimes(a: Point, b: Point, p: Point)
    requires Straddles(a, b, p)
    ensures (MeetX(a, b, p) - a.x) * (b.y - a.y) == (b.x - a.x) * (p.y - a.y)
  {
    var q := (b.x - a.x) * (p.y - a.y) / (b.y - a.y);
    assert q * (b.y - a.y) == (b.x - a.x) * (p.y - a.y);
  }

  lemma CrossesEitherWay(a: Point, b: Point, p: Point)
    ensures Crosses(a, b, p) <==> Crosses(b, a, p)
  {
    CrossesBySide(b, a, p);
    CrossesBySide(a, b, p);
    hide Crosses, Cross;
  }

  // ---- Two edges ------------------------------------------------------------

  /** Where an edge meets the level of `p`, times the edge's height. */
  function LevelX(b: Point, a: Point, p: Point): real { (a.y - p.y) * b.x + (p.y - b.y) * a.x }

  /** How far right of `x` an edge of height `h` meets a level at `l / h`, times `h`. */
  function Gap(l: real, h: real, x: real): real { l - h * x }

  /** How far one meeting lies right of another, times both heights. */
  function Skew(h: real, l: real, h': real, l': real): real { h * l' - h' * l }

  lemma SideAtLevel(b: Point, a: Point, p: Point)
    ensures Cross(b, a, p) == Gap(LevelX(b, a, p), a.y - b.y, p.x)
  {
  }

  /** The point where one edge meets the level, seen from another edge, times both heights. */
  lemma SeenAtLevel(b: Point, a: Point, b': Point, a': Point, p: Point)
    ensures (a.y - p.y) * Cross(b', a', b) + (p.y - b.y) * Cross(b', a', a)
         == (a.y - b.y) * LevelX(b', a', p) - (a'.y - b'.y) * LevelX(b, a, p)
  {
    var d, h, h' := a'.x - b'.x, a.y - b.y, a'.y - b'.y;
    var u, v := a.y - p.y, p.y - b.y;
    SideParts(b', a', b);
    SideParts(b', a', a);
    assert u * (d * (b.y - b'.y)) + v * (d * (a.y - b'.y)) == d * (u * (b.y - b'.y) + v * (a.y - b'.y));
    assert u * (b.y - b'.y) + v * (a.y - b'.y) == h * (p.y - b'.y);
    assert u * (h' * (b.x - b'.x)) + v * (h' * (a.x - b'.x)) == h' * (u * (b.x - b'.x) + v * (a.x - b'.x));
    assert u * (b.x - b'.x) + v * (a.x - b'.x) == LevelX(b, a, p) - h * b'.x;
    assert LevelX(b', a', p) == h' * b'.x + (p.y - b'.y) * d;
    hide LevelX, Cross;
    Regroup(u, v, d, h, h', p.y - b'.y, b'.x, Cross(b', a', b), Cross(b', a', a), b.y - b'.y, a.y - b'.y,
            b.x - b'.x, a.x - b'.x, LevelX(b, a, p), LevelX(b', a', p));
  }

  lemma SideParts(b: Point, a: Point, q: Point)
    ensures Cross(b, a, q) == (a.x - b.x) * (q.y - b.y) - (a.y - b.y) * (q.x - b.x)
  {
  }

  lemma Regroup(u: real, v: real, d: real, h: real, h': real, e: real, x: real, c1: real, c2: real,
                y1: real, y2: real, x1: real, x2: real, l: real, l': real)
    requires c1 == d * y1 - h' * x1 && c2 == d * y2 - h' * x2
    requires u * y1 + v * y2 == h * e && u * x1 + v * x2 == l - h * x && l' == h' * x + e * d
    ensures u * c1 + v * c2 == h * l' - h' * l
  {
    assert u * c1 + v * c2 == d * (u * y1 + v * y2) - h' * (u * x1 + v * x2);
  }

  /** The excess of one edge's meeting with the level over another's, times both heights. */
  function Excess(b: Point, a: Point, b': Point, a': Point, p: Point): real {
    Skew(a.y - b.y, LevelX(b, a, p), a'.y - b'.y, LevelX(b', a', p))
  }

  lemma ExcessTurns(b: Point, a: Point, b': Point, a': Point, p: Point)
    ensures Excess(b', a', b, a, p) == -Excess(b, a, b', a', p)
  {
    hide LevelX;
  }

  /** An edge across the level whose ends lie left of another edge meets the level no farther right. */
  lemma LevelSeen(b: Point, a: Point, b': Point, a': Point, p: Point)
    requires Up(b, a, p) && Cross(b', a', b) >= 0.0 && Cross(b', a', a) >= 0.0
    ensures Excess(b, a, b', a', p) >= 0.0
    ensures Excess(b, a, b', a', p) == 0.0 ==> Cross(b', a', b) == 0.0
  {
    SeenAtLevel(b, a, b', a', p);
    hide Cross, LevelX;
    WeightedSum(a.y - p.y, Cross(b', a', b), p.y - b.y, Cross(b', a', a));
  }

  lemma WeightedSum(u: real, s: real, v: real, t: real)
    requires u > 0.0 && s >= 0.0 && v >= 0.0 && t >= 0.0
    ensures u * s + v * t >= 0.0
    ensures u * s + v * t == 0.0 ==> s == 0.0
  {
    MulNonNeg(u, s);
    MulNonNeg(v, t);
    if s > 0.0 { MulSign(u, s); }
  }

  // ---- Rings ----------------------------------------------------------------

  function Prev(n: nat, i: nat): (r: nat)
    requires i < n
    ensures r < n
  {
    if i == 0 then n - 1 else i - 1
  }

  /** Every vertex off an edge is strictly left of it: strictly convex, counter-clockwise. */
  predicate Convex(poly: seq<Point>) {
    |poly| >= 3 && forall i, k :: 0 <= i < |poly| && 0 <= k < |poly| ==> LeftOf(poly, i, k)
  }

  predicate LeftOf(poly: seq<Point>, i: nat, k: nat)
    requires i < |poly| && k < |poly|
  {
    k == i || k == Prev(|poly|, i) || Cross(VertexBefore(poly, i), poly[i], poly[k]) > 0.0
  }

  /** On which side of edge `i` the point is: positive on the left. */
  function Side(poly: seq<Point>, i: nat, p: Point): real
    requires i < |poly|
  {
    Cross(VertexBefore(poly, i), poly[i], p)
  }

  predicate Rises(poly: seq<Point>, i: nat, p: Point)
    requires i < |poly|
  {
    Up(VertexBefore(poly, i), poly[i], p)
  }

  predicate Falls(poly: seq<Point>, i: nat, p: Point)
    requires i < |poly|
  {
    Up(poly[i], VertexBefore(poly, i), p)
  }

  lemma VertexSides(poly: seq<Point>, i: nat, k: nat)
    requires Convex(poly) && i < |poly| && k < |poly|
    ensures Side(poly, i, poly[k]) >= 0.0
    ensures Side(poly, i, poly[k]) == 0.0 ==> k == i || k == Prev(|poly|, i)
    ensures VertexBefore(poly, k) == poly[Prev(|poly|, k)]
  {
    assert LeftOf(poly, i, k);
  }

  /** The ends of edge `i` seen from edge `j`. */
  lemma EndsSeen(poly: seq<Point>, i: nat, j: nat)
    requires Convex(poly) && i < |poly| && j < |poly|
    ensures Cross(VertexBefore(poly, j), poly[j], VertexBefore(poly, i)) >= 0.0
    ensures Cross(VertexBefore(poly, j), poly[j], poly[i]) >= 0.0
    ensures Cross(VertexBefore(poly, j), poly[j], VertexBefore(poly, i)) == 0.0 && i != j ==> Prev(|poly|, i) == j
    ensures Cross(VertexBefore(poly, j), poly[j], poly[i]) == 0.0 && i != j ==> i == Prev(|poly|, j)
  {
    VertexSides(poly, j, Prev(|poly|, i));
    VertexSides(poly, i, i);
    VertexSides(poly, j, i);
    hide Cross, Convex;
  }

  lemma NotBothWays(n: nat, i: nat, j: nat)
    requires n >= 3 && i < n && j < n && Prev(n, i) == j
    ensures Prev(n, j) != i
  {
  }

  lemma ThreeCorners(poly: seq<Point>)
    requires Convex(poly)
    ensures |poly| >= 3
  {
  }

  /** At most one edge rises across a level. */
  lemma OneRises(poly: seq<Point>, p: Point, i: nat, j: nat)
    requires Convex(poly) && i < |poly| && j < |poly| && Rises(poly, i, p) && Rises(poly, j, p)
    ensures i == j
  {
    hide *;
    var b, a, b', a' := VertexBefore(poly, i), poly[i], VertexBefore(poly, j), poly[j];
    RisesIs(poly, i, p); RisesIs(poly, j, p);
    EndsSeen(poly, i, j);
    EndsSeen(poly, j, i);
    LevelSeen(b, a, b', a', p);
    LevelSeen(b', a', b, a, p);
    ExcessTurns(b, a, b', a', p);
    ThreeCorners(poly);
    if Prev(|poly|, i) == j { NotBothWays(|poly|, i, j); }
  }

  lemma RisesIs(poly: seq<Point>, i: nat, p: Point)
    requires i < |poly|
    ensures Rises(poly, i, p) <==> Up(VertexBefore(poly, i), poly[i], p)
    ensures Falls(poly, i, p) <==> Up(poly[i], VertexBefore(poly, i), p)
    ensures Side(poly, i, p) == Cross(VertexBefore(poly, i), poly[i], p)
  {
  }

  lemma Backwards(a: Point, b: Point, c: Point)
    ensures Cross(a, b, c) == -Cross(b, a, c)
  {
  }

  /** Turning one edge round turns the excess round. */
  lemma ExcessBackwards(b: Point, a: Point, b': Point, a': Point, p: Point)
    ensures Excess(b, a, a', b', p) == -Excess(b, a, b', a', p)
  {
    assert LevelX(a', b', p) == -LevelX(b', a', p);
    hide LevelX;
  }

  /** At most one edge falls across it. */
  lemma OneFalls(poly: seq<Point>, p: Point, i: nat, j: nat)
    requires Convex(poly) && i < |poly| && j < |poly| && Falls(poly, i, p) && Falls(poly, j, p)
    ensures i == j
  {
    hide *;
    var b, a, b', a' := VertexBefore(poly, i), poly[i], VertexBefore(poly, j), poly[j];
    RisesIs(poly, i, p); RisesIs(poly, j, p);
    EndsSeen(poly, i, j);
    EndsSeen(poly, j, i);
    LevelSeen(a, b, b', a', p);
    LevelSeen(a', b', b, a, p);
    ExcessTurns(a, b, b', a', p);
    ExcessBackwards(b', a', a, b, p);
    ExcessTurns(b', a', b, a, p);
    ExcessBackwards(b, a, a', b', p);
    ExcessTurns(b, a, a', b', p);
    ThreeCorners(poly);
    if i == Prev(|poly|, j) { NotBothWays(|poly|, j, i); }
  }

  // ---- Going round ----------------------------------------------------------

  /** A flag that every step round the ring keeps is everywhere once it is somewhere. */
  lemma {:induction false} Spreads(flags: seq<bool>, k: nat, j: nat)
    requires k < |flags| && j < |flags| && flags[k]
    requires forall i :: 0 <= i < |flags| ==> (flags[Prev(|flags|, i)] ==> flags[i])
    ensures flags[j]
    decreases if k <= j then j - k else j + |flags|
  {
    if j != k { Spreads(flags, k, Prev(|flags|, j)); }
  }

  predicate Low(poly: seq<Point>, i: nat, p: Point)
    requires i < |poly|
  {
    poly[i].y <= p.y
  }

  /** A ring with vertices on both sides of a level rises across it and falls across it. */
  lemma RisesAndFalls(poly: seq<Point>, p: Point, k: nat, j: nat) returns (u: nat, d: nat)
    requires k < |poly| && j < |poly| && Low(poly, k, p) && !Low(poly, j, p)
    ensures u < |poly| && Rises(poly, u, p) && d < |poly| && Falls(poly, d, p)
  {
    var n := |poly|;
    var low := seq(n, i requires 0 <= i < n => Low(poly, i, p));
    var high := seq(n, i requires 0 <= i < n => !Low(poly, i, p));
    if forall i :: 0 <= i < n ==> (low[Prev(n, i)] ==> low[i]) { Spreads(low, k, j); }
    if forall i :: 0 <= i < n ==> (high[Prev(n, i)] ==> high[i]) { Spreads(high, j, k); }
    var u' :| 0 <= u' < n && low[Prev(n, u')] && !low[u'];
    var d' :| 0 <= d' < n && high[Prev(n, d')] && !high[d'];
    u, d := u', d';
  }

  lemma {:induction false} OddOne(flags: seq<bool>, k: nat)
    requires k < |flags| && forall i :: 0 <= i < |flags| && i != k ==> !flags[i]
    ensures Odd(flags) <==> flags[k]
  {
    var n := |flags| - 1;
    if k == n { NoneSet(flags[..n]); } else { OddOne(flags[..n], k); }
  }

  lemma {:induction false} OddTwo(flags: seq<bool>, u: nat, d: nat)
    requires u < |flags| && d < |flags| && u != d && forall i :: 0 <= i < |flags| && i != u && i != d ==> !flags[i]
    ensures Odd(flags) <==> flags[u] != flags[d]
  {
    var n := |flags| - 1;
    if u == n {
      OddOne(flags[..n], d);
    } else if d == n {
      OddOne(flags[..n], u);
    } else {
      OddTwo(flags[..n], u, d);
    }
  }

  // ---- Inside and outside ---------------------------------------------------

  lemma FlagIs(poly: seq<Point>, p: Point, i: nat)
    requires i < |poly|
    ensures Crossings(poly, p)[i]
       <==> (Rises(poly, i, p) && Side(poly, i, p) > 0.0) || (Falls(poly, i, p) && Side(poly, i, p) < 0.0)
  {
    CrossesBySide(VertexBefore(poly, i), poly[i], p);
    Backwards(poly[i], VertexBefore(poly, i), p);
    hide Cross, Crosses;
  }

  /** What rises is met no farther left than what falls. */
  lemma FallsBeforeRise(poly: seq<Point>, p: Point, u: nat, d: nat)
    requires Convex(poly) && u < |poly| && d < |poly| && Rises(poly, u, p) && Falls(poly, d, p)
    ensures Side(poly, d, p) < 0.0 ==> Side(poly, u, p) > 0.0
  {
    hide *;
    var b, a, b', a' := VertexBefore(poly, u), poly[u], poly[d], VertexBefore(poly, d);
    RisesIs(poly, u, p); RisesIs(poly, d, p);
    EndsSeen(poly, d, u);
    SideAtLevel(b, a, p);
    SideAtLevel(b', a', p);
    Backwards(b', a', p);
    LevelSeen(b', a', b, a, p);
    ExcessIs(b', a', b, a, p);
    UpIs(b, a, p); UpIs(b', a', p);
    LevelOrder(a.y - b.y, a'.y - b'.y, LevelX(b, a, p), LevelX(b', a', p), p.x);
  }

  lemma ExcessIs(b: Point, a: Point, b': Point, a': Point, p: Point)
    ensures Excess(b, a, b', a', p) == Skew(a.y - b.y, LevelX(b, a, p), a'.y - b'.y, LevelX(b', a', p))
  {
  }

  lemma UpIs(b: Point, a: Point, p: Point)
    ensures Up(b, a, p) ==> a.y - b.y > 0.0
  {
  }

  lemma LevelOrder(h: real, h': real, l: real, l': real, x: real)
    requires h > 0.0 && h' > 0.0 && Skew(h', l', h, l) >= 0.0
    ensures Gap(l', h', x) > 0.0 ==> Gap(l, h, x) > 0.0
  {
    GapsDiffer(h, h', l, l', x);
    hide Gap, Skew;
    MulSign(Gap(l', h', x), h);
    MulSign(Gap(l, h, x), h');
  }

  lemma GapsDiffer(h: real, h': real, l: real, l': real, x: real)
    ensures Gap(l, h, x) * h' == Gap(l', h', x) * h + Skew(h', l', h, l)
  {
    assert (l - h * x) * h' == l * h' - (h * x) * h';
    assert (l' - h' * x) * h == l' * h - (h' * x) * h;
  }

  /** The point is strictly left of the edge that rises across its level and not right of the one that falls. */
  ghost predicate Between(poly: seq<Point>, p: Point) {
    exists u: nat, d: nat ::
      && u < |poly| && d < |poly| && Rises(poly, u, p) && Falls(poly, d, p)
      && Side(poly, u, p) > 0.0 && Side(poly, d, p) >= 0.0
  }

  /** In a strictly convex counter-clockwise ring the test is exactly that. */
  lemma InsideIff(poly: seq<Point>, p: Point)
    requires Convex(poly)
    ensures InPolygon(poly, p) <==> Between(poly, p)
  {
    var n, flags := |poly|, Crossings(poly, p);
    forall i | 0 <= i < n
      ensures flags[i]
         <==> (Rises(poly, i, p) && Side(poly, i, p) > 0.0) || (Falls(poly, i, p) && Side(poly, i, p) < 0.0)
    {
      FlagIs(poly, p, i);
    }
    if k: nat, j: nat :| k < n && j < n && Low(poly, k, p) && !Low(poly, j, p) {
      var u, d := RisesAndFalls(poly, p, k, j);
      FallsBeforeRise(poly, p, u, d);
      forall i | 0 <= i < n ensures Rises(poly, i, p) ==> i == u { if Rises(poly, i, p) { OneRises(poly, p, i, u); } }
      forall i | 0 <= i < n ensures Falls(poly, i, p) ==> i == d { if Falls(poly, i, p) { OneFalls(poly, p, i, d); } }
      hide Side, Convex, Odd, Crossings;
      OddTwo(flags, u, d);
    } else {
      forall i | 0 <= i < n ensures !Rises(poly, i, p) && !Falls(poly, i, p) {
        assert Low(poly, i, p) <==> Low(poly, Prev(n, i), p);
      }
      hide Side, Convex, Odd, Crossings;
      NoneSet(flags);
    }
  }

  /** A point strictly right of some edge is outside. */
  lemma RightIsOutside(poly: seq<Point>, p: Point, j: nat)
    requires Convex(poly) && j < |poly| && Side(poly, j, p) < 0.0
    ensures !InPolygon(poly, p)
  {
    InsideIff(poly, p);
    if u: nat, d: nat :| u < |poly| && d < |poly| && Rises(poly, u, p) && Falls(poly, d, p)
                         && Side(poly, u, p) > 0.0 && Side(poly, d, p) >= 0.0 {
      BetweenIsLeft(poly, p, u, d, j);
    }
  }

  lemma BetweenIsLeft(poly: seq<Point>, p: Point, u: nat, d: nat, j: nat)
    requires Convex(poly) && u < |poly| && d < |poly| && j < |poly| && Rises(poly, u, p) && Falls(poly, d, p)
    requires Side(poly, u, p) > 0.0 && Side(poly, d, p) >= 0.0
    ensures Side(poly, j, p) >= 0.0
  {
    hide *;
    var b, a, b', a' := VertexBefore(poly, u), poly[u], poly[d], VertexBefore(poly, d);
    var c, e := VertexBefore(poly, j), poly[j];
    RisesIs(poly, u, p); RisesIs(poly, d, p); RisesIs(poly, j, p);
    EndsSeen(poly, u, j);
    EndsSeen(poly, d, j);
    SideAtLevel(b, a, p); SideAtLevel(b', a', p); SideAtLevel(c, e, p);
    Backwards(b', a', p);
    LevelSeen(b, a, c, e, p);
    LevelSeen(b', a', c, e, p);
    ExcessIs(b, a, c, e, p); ExcessIs(b', a', c, e, p);
    UpIs(b, a, p); UpIs(b', a', p);
    LeftBetween(a.y - b.y, a'.y - b'.y, e.y - c.y, LevelX(b, a, p), LevelX(b', a', p), LevelX(c, e, p), p.x);
  }

  /** A side that is not negative at two places of a level is not negative between them. */
  lemma LeftBetween(h: real, h': real, g: real, l: real, l': real, m: real, x: real)
    requires h > 0.0 && h' > 0.0 && Skew(h, l, g, m) >= 0.0 && Skew(h', l', g, m) >= 0.0
    requires Gap(l, h, x) > 0.0 && Gap(l', h', x) <= 0.0
    ensures Gap(m, g, x) >= 0.0
  {
    GapsDiffer(g, h, m, l, x);
    GapsDiffer(g, h', m, l', x);
    hide Gap, Skew;
    if g >= 0.0 {
      MulNonNeg(g, Gap(l, h, x));
      MulSign(Gap(m, g, x), h);
    } else {
      MulNonNeg(-g, -Gap(l', h', x));
      assert Gap(l', h', x) * g == (-g) * (-Gap(l', h', x));
      MulSign(Gap(m, g, x), h');
    }
  }

  // ---- A point strictly left of every edge ----------------------------------

  predicate LeftOfAll(poly: seq<Point>, p: Point) { forall i :: 0 <= i < |poly| ==> Side(poly, i, p) > 0.0 }

  /** Turned by a quarter, so that what is above (below) the origin lies ahead. */
  function Turned(above: bool, w: Point): Point { if above then Point(w.y, -w.x) else Point(-w.y, w.x) }

  lemma TurnedDet(above: bool, v: Point, w: Point)
    ensures Det(Turned(above, v), Turned(above, w)) == Det(v, w)
  {
  }

  lemma SideIsDet(poly: seq<Point>, i: nat, p: Point)
    requires i < |poly|
    ensures Side(poly, i, p) == Det(Sub(VertexBefore(poly, i), p), Sub(poly[i], p))
  {
    var b, a := VertexBefore(poly, i), poly[i];
    CrossIsDet(b, a, p);
    assert (a.x - b.x) * (p.y - b.y) - (a.y - b.y) * (p.x - b.x)
        == (b.x - p.x) * (a.y - p.y) - (b.y - p.y) * (a.x - p.x);
  }

  /** Seen from a point with every vertex strictly above it (below it), the ring would have to turn back. */
  lemma {:induction false} TurnsOn(poly: seq<Point>, p: Point, above: bool, k: nat)
    requires 1 <= k < |poly| && LeftOfAll(poly, p)
    requires forall i :: 0 <= i < |poly| ==> if above then poly[i].y > p.y else poly[i].y < p.y
    ensures Det(Sub(poly[0], p), Sub(poly[k], p)) > 0.0
  {
    SideIsDet(poly, k, p);
    hide Cross, Det;
    if k > 1 {
      TurnsOn(poly, p, above, k - 1);
      var u, v, w := Sub(poly[0], p), Sub(poly[k - 1], p), Sub(poly[k], p);
      TurnedDet(above, u, v); TurnedDet(above, v, w); TurnedDet(above, u, w);
      HalfPlaneTransitive(Turned(above, u), Turned(above, v), Turned(above, w));
    }
  }

  lemma NotAllOneSide(poly: seq<Point>, p: Point, above: bool)
    requires |poly| >= 3 && LeftOfAll(poly, p)
    ensures exists i :: 0 <= i < |poly| && !(if above then poly[i].y > p.y else poly[i].y < p.y)
  {
    if forall i :: 0 <= i < |poly| ==> if above then poly[i].y > p.y else poly[i].y < p.y {
      var n := |poly| - 1;
      TurnsOn(poly, p, above, n);
      SideIsDet(poly, 0, p);
      DetLinear(Sub(poly[n], p), Sub(poly[0], p), Sub(poly[0], p));
      hide Det, Cross;
    }
  }

  /** A vertex on the level of such a point has one neighbour above it or both below cannot be. */
  lemma LevelVertex(poly: seq<Point>, p: Point, i: nat, next: nat)
    requires i < |poly| && next < |poly| && Prev(|poly|, next) == i && LeftOfAll(poly, p) && poly[i].y == p.y
    ensures VertexBefore(poly, i).y > p.y || poly[next].y > p.y
  {
    SideIsDet(poly, i, p);
    SideIsDet(poly, next, p);
    var t, x, v := Sub(VertexBefore(poly, i), p), Sub(poly[i], p), Sub(poly[next], p);
    assert VertexBefore(poly, next) == poly[i];
    assert Det(t, x) == -(t.y * x.x) && Det(x, v) == x.x * v.y;
    if t.y <= 0.0 {
      if x.x <= 0.0 { MulNonNeg(-t.y, -x.x); }
      if v.y <= 0.0 { MulNonNeg(-v.y, x.x); }
    }
  }

  /** Such a point has a vertex above it and one at its level or below. */
  lemma AboveAndBelow(poly: seq<Point>, p: Point) returns (k: nat, j: nat)
    requires |poly| >= 3 && LeftOfAll(poly, p)
    ensures k < |poly| && j < |poly| && Low(poly, k, p) && !Low(poly, j, p)
  {
    NotAllOneSide(poly, p, true);
    NotAllOneSide(poly, p, false);
    var k' :| 0 <= k' < |poly| && !(poly[k'].y > p.y);
    var j' :| 0 <= j' < |poly| && !(poly[j'].y < p.y);
    k, j := k', j';
    if poly[j].y == p.y {
      var next := if j == |poly| - 1 then 0 else j + 1;
      LevelVertex(poly, p, j, next);
      j := if poly[next].y > p.y then next else Prev(|poly|, j);
    }
  }

  /** A point strictly left of every edge is inside. */
  lemma LeftIsInside(poly: seq<Point>, p: Point)
    requires Convex(poly) && LeftOfAll(poly, p)
    ensures InPolygon(poly, p)
  {
    var k, j := AboveAndBelow(poly, p);
    var u, d := RisesAndFalls(poly, p, k, j);
    InsideIff(poly, p);
    hide Convex, Side, InPolygon;
  }

  // ---- Either orientation ---------------------------------------------------

  function Reversed<T>(s: seq<T>): (r: seq<T>)
    ensures |r| == |s|
  {
    seq(|s|, i requires 0 <= i < |s| => s[|s| - 1 - i])
  }

  lemma {:induction false} OddReversed(flags: seq<bool>)
    ensures Odd(Reversed(flags)) <==> Odd(flags)
  {
    if flags == [] {
      assert Reversed(flags) == flags;
    } else {
      var n := |flags| - 1;
      OddReversed(flags[..n]);
      assert Reversed(flags) == [flags[n]] + Reversed(flags[..n]);
      OddConcat([flags[n]], Reversed(flags[..n]));
      OddConcat(flags[..n], [flags[n]]);
      assert flags == flags[..n] + [flags[n]];
    }
  }

  /** Edge `i` of the reversed ring is an edge of the ring, the other way. */
  lemma ReversedFlag(poly: seq<Point>, p: Point, i: nat)
    requires i < |poly|
    ensures Crossings(Reversed(poly), p)[i] == Crossings(poly, p)[if i == 0 then 0 else |poly| - i]
  {
    var r := Reversed(poly);
    CrossesEitherWay(r[i], VertexBefore(r, i), p);
    hide Crosses;
  }

  /** Which way round the ring goes does not matter. */
  lemma RingReversed(poly: seq<Point>, p: Point)
    ensures InPolygon(Reversed(poly), p) == InPolygon(poly, p)
  {
    var n, f, r := |poly|, Crossings(poly, p), Crossings(Reversed(poly), p);
    forall i | 0 <= i < n ensures r[i] == f[if i == 0 then 0 else n - i] { ReversedFlag(poly, p, i); }
    hide Odd, Crossings;
    if poly != [] {
      assert r == [f[0]] + Reversed(f[1..]);
      assert f == [f[0]] + f[1..];
      OddReversed(f[1..]);
      OddConcat([f[0]], Reversed(f[1..]));
      OddConcat([f[0]], f[1..]);
    }
  }

  lemma TriangleIsConvex(a: Point, b: Point, c: Point)
    requires Cross(a, b, c) > 0.0
    ensures Convex([a, b, c])
  {
    CrossIsDet(a, b, c);
    assert Cross(b, c, a) == Cross(a, b, c) == Cross(c, a, b);
    hide Cross;
  }

  /** A triangle of either orientation: strictly on the inner side of all three edges is inside, strictly on
      the outer side of any is outside. */
  lemma TriangleHolds(a: Point, b: Point, c: Point, p: Point)
    requires Cross(a, b, c) != 0.0
    ensures var s := if Cross(a, b, c) > 0.0 then 1.0 else -1.0;
            && (s * Cross(a, b, p) > 0.0 && s * Cross(b, c, p) > 0.0 && s * Cross(c, a, p) > 0.0 ==>
                  InPolygon([a, b, c], p))
            && (s * Cross(a, b, p) < 0.0 || s * Cross(b, c, p) < 0.0 || s * Cross(c, a, p) < 0.0 ==>
                  !InPolygon([a, b, c], p))
  {
    hide InPolygon;
    if Cross(a, b, c) > 0.0 {
      TriangleIsConvex(a, b, c);
      TriangleSides(a, b, c, p);
    } else {
      Backwards(a, b, p); Backwards(b, c, p); Backwards(c, a, p);
      assert Cross(c, b, a) == -Cross(a, b, c);
      assert Reversed([a, b, c]) == [c, b, a];
      RingReversed([a, b, c], p);
      TriangleIsConvex(c, b, a);
      TriangleSides(c, b, a, p);
    }
  }

  lemma TriangleSides(a: Point, b: Point, c: Point, p: Point)
    requires Convex([a, b, c])
    ensures Cross(a, b, p) > 0.0 && Cross(b, c, p) > 0.0 && Cross(c, a, p) > 0.0 ==> InPolygon([a, b, c], p)
    ensures Cross(a, b, p) < 0.0 || Cross(b, c, p) < 0.0 || Cross(c, a, p) < 0.0 ==> !InPolygon([a, b, c], p)
  {
    hide InPolygon, Convex, Cross;
    var t := [a, b, c];
    assert Side(t, 0, p) == Cross(c, a, p) && Side(t, 1, p) == Cross(a, b, p) && Side(t, 2, p) == Cross(b, c, p);
    if LeftOfAll(t, p) { LeftIsInside(t, p); }
    if Side(t, 0, p) < 0.0 { RightIsOutside(t, p, 0); }
    if Side(t, 1, p) < 0.0 { RightIsOutside(t, p, 1); }
    if Side(t, 2, p) < 0.0 { RightIsOutside(t, p, 2); }
  }
}
