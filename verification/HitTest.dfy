/** Projective hit testing (crates/renderer-core/src/hit_test_object.rs), over exact reals. */
module HitTest {
  import opened Sequences
  import opened Planar

  datatype Mat3 = Mat3(m00: real, m01: real, m02: real, m10: real, m11: real, m12: real, m20: real, m21: real,
                       m22: real)

  /** A homogeneous point. */
  datatype Hom = Hom(x: real, y: real, w: real)

  const IDENTITY: Mat3 := Mat3(1.0, 0.0, 0.0, 0.0, 1.0, 0.0, 0.0, 0.0, 1.0)

  /** `f64::EPSILON`. */
  const EPSILON: real := 1.0 / 4503599627370496.0

  function Abs(x: real): (r: real)
    ensures r >= x && r >= -x && (r == x || r == -x)
  {
    if x < 0.0 then -x else x
  }

  function Lift(p: Point): Hom { Hom(p.x, p.y, 1.0) }

  function Dot(a: real, b: real, c: real, v: Hom): real { a * v.x + b * v.y + c * v.w }

  function MulV(m: Mat3, v: Hom): Hom {
    Hom(Dot(m.m00, m.m01, m.m02, v), Dot(m.m10, m.m11, m.m12, v), Dot(m.m20, m.m21, m.m22, v))
  }

  function Scaled(v: Hom, t: real): Hom { Hom(v.x * t, v.y * t, v.w * t) }

  function Col(m: Mat3, j: nat): Hom
    requires j < 3
  {
    if j == 0 then Hom(m.m00, m.m10, m.m20) else if j == 1 then Hom(m.m01, m.m11, m.m21) else Hom(m.m02, m.m12, m.m22)
  }

  function FromCols(a: Hom, b: Hom, c: Hom): Mat3 { Mat3(a.x, b.x, c.x, a.y, b.y, c.y, a.w, b.w, c.w) }

  /** Matrix product, column by column. */
  function Mul(a: Mat3, b: Mat3): Mat3 {
    FromCols(MulV(a, Col(b, 0)), MulV(a, Col(b, 1)), MulV(a, Col(b, 2)))
  }

  function Entry(m: Mat3, i: nat, j: nat): real
    requires i < 3 && j < 3
  {
    var c := Col(m, j);
    if i == 0 then c.x else if i == 1 then c.y else c.w
  }

  function Cell(a: Mat3, b: Mat3, i: nat, j: nat): real
    requires i < 3 && j < 3
  {
    Entry(a, i, 0) * Entry(b, 0, j) + Entry(a, i, 1) * Entry(b, 1, j) + Entry(a, i, 2) * Entry(b, 2, j)
  }

  lemma CellsAreProduct(a: Mat3, b: Mat3)
    ensures Mul(a, b) == Mat3(Cell(a, b, 0, 0), Cell(a, b, 0, 1), Cell(a, b, 0, 2), Cell(a, b, 1, 0), Cell(a, b, 1, 1),
                              Cell(a, b, 1, 2), Cell(a, b, 2, 0), Cell(a, b, 2, 1), Cell(a, b, 2, 2))
  {
  }

  method Mat3Mul(a: Mat3, b: Mat3) returns (product: Mat3)
    ensures product == Mul(a, b)
  {
    hide Entry, Mul, Cell;
    var cells := new real[3, 3];
    for i := 0 to 3
      invariant forall r, c :: 0 <= r < i && 0 <= c < 3 ==> cells[r, c] == Cell(a, b, r, c)
    {
      for j := 0 to 3
        invariant forall r, c :: 0 <= r < i && 0 <= c < 3 ==> cells[r, c] == Cell(a, b, r, c)
        invariant forall c :: 0 <= c < j ==> cells[i, c] == Cell(a, b, i, c)
      {
        CellIs(a, b, i, j);
        cells[i, j] := Entry(a, i, 0) * Entry(b, 0, j) + Entry(a, i, 1) * Entry(b, 1, j)
          + Entry(a, i, 2) * Entry(b, 2, j);
      }
    }
    CellsAreProduct(a, b);
    product := Mat3(cells[0, 0], cells[0, 1], cells[0, 2], cells[1, 0], cells[1, 1], cells[1, 2], cells[2, 0],
                    cells[2, 1], cells[2, 2]);
  }

  lemma CellIs(a: Mat3, b: Mat3, i: nat, j: nat)
    requires i < 3 && j < 3
    ensures Cell(a, b, i, j)
              == Entry(a, i, 0) * Entry(b, 0, j) + Entry(a, i, 1) * Entry(b, 1, j) + Entry(a, i, 2) * Entry(b, 2, j)
  {
  }

  function Minor(a: real, b: real, c: real, d: real): real { a * d - b * c }

  function Determinant(m: Mat3): real {
    m.m00 * Minor(m.m11, m.m12, m.m21, m.m22) + m.m01 * Minor(m.m12, m.m10, m.m22, m.m20)
      + m.m02 * Minor(m.m10, m.m11, m.m20, m.m21)
  }

  function Adjugate(m: Mat3): Mat3 {
    Mat3(Minor(m.m11, m.m12, m.m21, m.m22), Minor(m.m02, m.m01, m.m22, m.m21), Minor(m.m01, m.m02, m.m11, m.m12),
         Minor(m.m12, m.m10, m.m22, m.m20), Minor(m.m00, m.m02, m.m20, m.m22), Minor(m.m02, m.m00, m.m12, m.m10),
         Minor(m.m10, m.m11, m.m20, m.m21), Minor(m.m01, m.m00, m.m21, m.m20), Minor(m.m00, m.m01, m.m10, m.m11))
  }

  function Times(m: Mat3, t: real): Mat3 {
    Mat3(m.m00 * t, m.m01 * t, m.m02 * t, m.m10 * t, m.m11 * t, m.m12 * t, m.m20 * t, m.m21 * t, m.m22 * t)
  }

  function Invert(m: Mat3): Option<Mat3> {
    if Abs(Determinant(m)) < EPSILON then None else Some(Times(Adjugate(m), 1.0 / Determinant(m)))
  }

  /** `None` at infinity, where the divide is not finite. */
  function Project(v: Hom): Option<Point> { if v.w == 0.0 then None else Some(Point(v.x / v.w, v.y / v.w)) }

  function Apply(m: Mat3, p: Point): Option<Point> { Project(MulV(m, Lift(p))) }

  function WorldToLocal(m: Mat3, p: Point): Option<Point> {
    match Invert(m)
    case None => None
    case Some(inv) => Apply(inv, p)
  }

  // ---- Linear algebra -------------------------------------------------------

  lemma DotScaled(a: real, b: real, c: real, v: Hom, t: real)
    ensures Dot(a, b, c, Scaled(v, t)) == Dot(a, b, c, v) * t
  {
  }

  lemma MulVScaled(m: Mat3, v: Hom, t: real)
    ensures MulV(m, Scaled(v, t)) == Scaled(MulV(m, v), t)
  {
    DotScaled(m.m00, m.m01, m.m02, v, t);
    DotScaled(m.m10, m.m11, m.m12, v, t);
    DotScaled(m.m20, m.m21, m.m22, v, t);
    hide Dot;
  }

  lemma MulVIs(m: Mat3, v: Hom)
    ensures MulV(m, v).x == Dot(m.m00, m.m01, m.m02, v) && MulV(m, v).y == Dot(m.m10, m.m11, m.m12, v)
    ensures MulV(m, v).w == Dot(m.m20, m.m21, m.m22, v)
  {
    hide Dot;
  }

  lemma TimesFields(m: Mat3, t: real)
    ensures var n := Times(m, t);
            && n.m00 == m.m00 * t && n.m01 == m.m01 * t && n.m02 == m.m02 * t
            && n.m10 == m.m10 * t && n.m11 == m.m11 * t && n.m12 == m.m12 * t
            && n.m20 == m.m20 * t && n.m21 == m.m21 * t && n.m22 == m.m22 * t
  {
  }

  lemma TimesRows(m: Mat3, t: real, v: Hom)
    ensures var n := Times(m, t);
            && Dot(n.m00, n.m01, n.m02, v) == Dot(m.m00, m.m01, m.m02, v) * t
            && Dot(n.m10, n.m11, n.m12, v) == Dot(m.m10, m.m11, m.m12, v) * t
            && Dot(n.m20, n.m21, n.m22, v) == Dot(m.m20, m.m21, m.m22, v) * t
  {
    hide Dot, Times;
    var n := Times(m, t);
    TimesFields(m, t);
    RowTimes(m.m00, m.m01, m.m02, n.m00, n.m01, n.m02, v, t);
    RowTimes(m.m10, m.m11, m.m12, n.m10, n.m11, n.m12, v, t);
    RowTimes(m.m20, m.m21, m.m22, n.m20, n.m21, n.m22, v, t);
  }

  lemma TimesV(m: Mat3, t: real, v: Hom)
    ensures MulV(Times(m, t), v) == Scaled(MulV(m, v), t)
  {
    hide Dot, Times, MulV;
    MulVIs(m, v);
    MulVIs(Times(m, t), v);
    TimesRows(m, t, v);
  }

  lemma RowTimes(a: real, b: real, c: real, p: real, q: real, r: real, v: Hom, t: real)
    requires p == a * t && q == b * t && r == c * t
    ensures Dot(p, q, r, v) == Dot(a, b, c, v) * t
  {
    TimesDot(a, b, c, v, t);
  }

  lemma TimesDot(a: real, b: real, c: real, v: Hom, t: real)
    ensures Dot(a * t, b * t, c * t, v) == Dot(a, b, c, v) * t
  {
  }

  /** A row of a product is the row of products. */
  lemma DotMul(p: real, q: real, r: real, m: Mat3, v: Hom)
    ensures Dot(p, q, r, MulV(m, v))
              == Dot(Dot(p, q, r, Col(m, 0)), Dot(p, q, r, Col(m, 1)), Dot(p, q, r, Col(m, 2)), v)
  {
  }

  /** A product acts as one matrix after the other. */
  lemma MulAct(a: Mat3, b: Mat3, v: Hom)
    ensures MulV(Mul(a, b), v) == MulV(a, MulV(b, v))
  {
    DotMul(a.m00, a.m01, a.m02, b, v);
    DotMul(a.m10, a.m11, a.m12, b, v);
    DotMul(a.m20, a.m21, a.m22, b, v);
    hide Dot;
  }

  lemma MulAssociative(a: Mat3, b: Mat3, c: Mat3)
    ensures Mul(Mul(a, b), c) == Mul(a, Mul(b, c))
  {
    MulAct(a, b, Col(c, 0));
    MulAct(a, b, Col(c, 1));
    MulAct(a, b, Col(c, 2));
    hide Dot, MulV;
  }

  function CrossOf(u: Hom, v: Hom): Hom {
    Hom(Minor(u.y, u.w, v.y, v.w), Minor(u.w, u.x, v.w, v.x), Minor(u.x, u.y, v.x, v.y))
  }

  function Triple(u: Hom, v: Hom, w: Hom): real { Dot(u.x, u.y, u.w, CrossOf(v, w)) }

  lemma TripleTurns(u: Hom, v: Hom, w: Hom)
    ensures Triple(u, v, w) == Triple(v, w, u)
  {
  }

  lemma TripleFlat(u: Hom, v: Hom)
    ensures Triple(u, u, v) == 0.0 && Triple(u, v, u) == 0.0
  {
  }

  function Row(m: Mat3, i: nat): Hom
    requires i < 3
  {
    if i == 0 then Hom(m.m00, m.m01, m.m02) else if i == 1 then Hom(m.m10, m.m11, m.m12) else Hom(m.m20, m.m21, m.m22)
  }

  lemma DetIsTriple(m: Mat3)
    ensures Determinant(m) == Triple(Row(m, 0), Row(m, 1), Row(m, 2))
    ensures Determinant(m) == Triple(Col(m, 0), Col(m, 1), Col(m, 2))
  {
  }

  lemma AdjugateCols(m: Mat3)
    ensures Col(Adjugate(m), 0) == CrossOf(Row(m, 1), Row(m, 2))
    ensures Col(Adjugate(m), 1) == CrossOf(Row(m, 2), Row(m, 0))
    ensures Col(Adjugate(m), 2) == CrossOf(Row(m, 0), Row(m, 1))
  {
    MinorSwaps(m.m21, m.m22, m.m01, m.m02);
    MinorSwaps(m.m22, m.m20, m.m02, m.m00);
    MinorSwaps(m.m20, m.m21, m.m00, m.m01);
    hide Minor;
  }

  lemma MinorSwaps(a: real, b: real, c: real, d: real)
    ensures Minor(a, b, c, d) == Minor(d, c, b, a) == Minor(a, c, b, d)
  {
  }

  lemma AdjugateRows(m: Mat3)
    ensures Row(Adjugate(m), 0) == CrossOf(Col(m, 1), Col(m, 2))
    ensures Row(Adjugate(m), 1) == CrossOf(Col(m, 2), Col(m, 0))
    ensures Row(Adjugate(m), 2) == CrossOf(Col(m, 0), Col(m, 1))
  {
    forall a: real, b: real, c: real, d: real ensures Minor(a, b, c, d) == Minor(d, c, b, a) == Minor(a, c, b, d) {
      MinorSwaps(a, b, c, d);
    }
    hide Minor;
  }

  lemma DotSwaps(u: Hom, v: Hom)
    ensures Dot(u.x, u.y, u.w, v) == Dot(v.x, v.y, v.w, u)
  {
  }

  /** Expanding along the right line gives the determinant, along a wrong one zero. */
  lemma RowExpansions(u: Hom, v: Hom, w: Hom, d: real)
    requires d == Triple(u, v, w)
    ensures Triple(u, v, w) == Triple(v, w, u) == Triple(w, u, v) == d
    ensures Triple(u, w, u) == Triple(u, u, v) == Triple(v, v, w) == Triple(v, u, v) == Triple(w, v, w)
              == Triple(w, w, u) == 0.0
  {
    TripleTurns(u, v, w); TripleTurns(v, w, u);
    TripleFlat(u, v); TripleFlat(v, w); TripleFlat(w, u);
    TripleFlat(u, w); TripleFlat(v, u); TripleFlat(w, v);
    hide Triple;
  }

  function Diagonal(d: real): Mat3 { Mat3(d, 0.0, 0.0, 0.0, d, 0.0, 0.0, 0.0, d) }

  lemma MulRight(m: Mat3)
    ensures Mul(m, Adjugate(m)) == Diagonal(Determinant(m))
  {
    DetIsTriple(m);
    AdjugateCols(m);
    RowExpansions(Row(m, 0), Row(m, 1), Row(m, 2), Determinant(m));
    hide Dot, Determinant, CrossOf, Adjugate;
  }

  lemma MulLeft(m: Mat3)
    ensures Mul(Adjugate(m), m) == Diagonal(Determinant(m))
  {
    DetIsTriple(m);
    AdjugateRows(m);
    RowExpansions(Col(m, 0), Col(m, 1), Col(m, 2), Determinant(m));
    var a := Adjugate(m);
    DotSwaps(Row(a, 0), Col(m, 0)); DotSwaps(Row(a, 0), Col(m, 1)); DotSwaps(Row(a, 0), Col(m, 2));
    DotSwaps(Row(a, 1), Col(m, 0)); DotSwaps(Row(a, 1), Col(m, 1)); DotSwaps(Row(a, 1), Col(m, 2));
    DotSwaps(Row(a, 2), Col(m, 0)); DotSwaps(Row(a, 2), Col(m, 1)); DotSwaps(Row(a, 2), Col(m, 2));
    hide Dot, Determinant, CrossOf, Adjugate;
  }

  lemma IdentityAct(v: Hom)
    ensures MulV(IDENTITY, v) == v
  {
  }

  lemma TimesCols(m: Mat3, t: real)
    ensures forall j :: 0 <= j < 3 ==> Col(Times(m, t), j) == Scaled(Col(m, j), t)
  {
  }

  lemma ScaledCols(u: Hom, v: Hom, w: Hom, t: real)
    ensures FromCols(Scaled(u, t), Scaled(v, t), Scaled(w, t)) == Times(FromCols(u, v, w), t)
  {
  }

  lemma ColTimes(a: Mat3, b: Mat3, t: real)
    ensures Mul(Times(a, t), b) == Times(Mul(a, b), t) == Mul(a, Times(b, t))
  {
    TimesCols(b, t);
    TimesV(a, t, Col(b, 0)); TimesV(a, t, Col(b, 1)); TimesV(a, t, Col(b, 2));
    MulVScaled(a, Col(b, 0), t); MulVScaled(a, Col(b, 1), t); MulVScaled(a, Col(b, 2), t);
    ScaledCols(MulV(a, Col(b, 0)), MulV(a, Col(b, 1)), MulV(a, Col(b, 2)), t);
    hide Dot, MulV, FromCols, Col, Times, Scaled;
  }

  lemma DiagonalTimes(d: real, t: real)
    requires d * t == 1.0
    ensures Times(Diagonal(d), t) == IDENTITY
  {
  }

  /** Above the threshold the inverse is two-sided; below it there is none. */
  lemma InverseIsTwoSided(m: Mat3)
    ensures Invert(m).Some? <==> Abs(Determinant(m)) >= EPSILON
    ensures Invert(m).Some? ==> Mul(Invert(m).value, m) == IDENTITY && Mul(m, Invert(m).value) == IDENTITY
  {
    if Abs(Determinant(m)) >= EPSILON {
      var d := Determinant(m);
      hide Determinant, Adjugate, Mul, Times;
      MulLeft(m);
      MulRight(m);
      ColTimes(Adjugate(m), m, 1.0 / d);
      ColTimes(m, Adjugate(m), 1.0 / d);
      DiagonalTimes(d, 1.0 / d);
    }
  }

  lemma InverseAct(m: Mat3, v: Hom)
    requires Invert(m).Some?
    ensures MulV(Invert(m).value, MulV(m, v)) == v && MulV(m, MulV(Invert(m).value, v)) == v
  {
    var inv := Invert(m).value;
    InverseIsTwoSided(m);
    MulAct(inv, m, v);
    MulAct(m, inv, v);
    IdentityAct(v);
    hide MulV, Mul, Invert;
  }

  // ---- Projective action ----------------------------------------------------

  lemma ProjectIs(v: Hom, p: Point)
    ensures Project(v) == Some(p) <==> v.w != 0.0 && v == Scaled(Lift(p), v.w)
  {
    if v.w != 0.0 {
      assert (v.x / v.w) * v.w == v.x && (v.y / v.w) * v.w == v.y;
      if v == Scaled(Lift(p), v.w) {
        assert v.x / v.w == p.x && v.y / v.w == p.y;
      }
    }
  }

  /** Scaling back down undoes scaling up. */
  lemma Unscale(v: Hom, u: Hom, t: real)
    requires t != 0.0 && v == Scaled(u, t)
    ensures u == Scaled(v, 1.0 / t)
  {
    assert (u.x * t) * (1.0 / t) == u.x && (u.y * t) * (1.0 / t) == u.y && (u.w * t) * (1.0 / t) == u.w;
  }

  /** World and local coordinates are inverse to each other: each point has at most the one preimage. */
  lemma WorldLocalRoundTrip(m: Mat3, world: Point, local: Point)
    requires Abs(Determinant(m)) >= EPSILON
    ensures WorldToLocal(m, world) == Some(local) <==> Apply(m, local) == Some(world)
  {
    var inv := Invert(m).value;
    var there, back := MulV(m, Lift(local)), MulV(inv, Lift(world));
    InverseAct(m, Lift(local));
    InverseAct(m, Lift(world));
    ProjectIs(there, world);
    ProjectIs(back, local);
    hide MulV, Invert, Determinant;
    if Project(there) == Some(world) {
      MulVScaled(inv, Lift(world), there.w);
      Unscale(Lift(local), back, there.w);
    }
    if Project(back) == Some(local) {
      MulVScaled(m, Lift(local), back.w);
      Unscale(Lift(world), there, back.w);
    }
  }

  /** Composing matrices composes their actions. */
  lemma ApplyComposes(d: Mat3, m: Mat3, p: Point, q: Point)
    requires Apply(m, p) == Some(q)
    ensures Apply(Mul(d, m), p) == Apply(d, q)
  {
    var v, u := MulV(m, Lift(p)), MulV(d, Lift(q));
    ProjectIs(v, q);
    MulAct(d, m, Lift(p));
    MulVScaled(d, Lift(q), v.w);
    hide MulV, Mul;
    var t := MulV(Mul(d, m), Lift(p));
    assert t == Scaled(u, v.w);
    if u.w != 0.0 {
      assert t.w == u.w * v.w;
      assert t.w != 0.0;
      assert t.x / t.w == u.x / u.w && t.y / t.w == u.y / u.w by { Cancel(u.x, u.w, v.w); Cancel(u.y, u.w, v.w); }
    }
  }

  lemma Cancel(a: real, b: real, t: real)
    requires b != 0.0 && t != 0.0 && b * t != 0.0
    ensures (a * t) / (b * t) == a / b
  {
    assert (a / b) * (b * t) == a * t;
  }

  /** A matrix that survives composition with an invertible one merges no two vectors. */
  lemma Injective(d: Mat3, m: Mat3, u: Hom, v: Hom)
    requires Invert(m).Some? && Invert(Mul(d, m)).Some? && MulV(d, u) == MulV(d, v)
    ensures u == v
  {
    var inv := Invert(m).value;
    InverseAct(m, u);
    InverseAct(m, v);
    MulAct(d, m, MulV(inv, u));
    MulAct(d, m, MulV(inv, v));
    InverseAct(Mul(d, m), MulV(inv, u));
    InverseAct(Mul(d, m), MulV(inv, v));
    hide MulV, Mul, Invert;
  }

  lemma Rescale(v: Hom, t: real, w: real)
    requires t != 0.0
    ensures Scaled(Scaled(v, t), w / t) == Scaled(v, w)
  {
    assert (v.x * t) * (w / t) == v.x * w && (v.y * t) * (w / t) == v.y * w && (v.w * t) * (w / t) == v.w * w by {
      assert t * (w / t) == w;
      ScaleTwice(v.x, t, w / t); ScaleTwice(v.y, t, w / t); ScaleTwice(v.w, t, w / t);
    }
  }

  lemma ScaleTwice(a: real, b: real, c: real)
    ensures (a * b) * c == a * (b * c)
  {
  }

  /** A delta moves a world point and the object alike: the local point is the same. */
  lemma LocalPointEquivariant(d: Mat3, m: Mat3, p: Point, q: Point)
    requires Abs(Determinant(m)) >= EPSILON && Abs(Determinant(Mul(d, m))) >= EPSILON && Apply(d, p) == Some(q)
    ensures WorldToLocal(Mul(d, m), q) == WorldToLocal(m, p)
  {
    hide Mul, Determinant, WorldToLocal, EPSILON, MulV;
    if WorldToLocal(m, p).Some? {
      var l := WorldToLocal(m, p).value;
      WorldLocalRoundTrip(m, p, l);
      ApplyComposes(d, m, l, p);
      WorldLocalRoundTrip(Mul(d, m), q, l);
    } else if WorldToLocal(Mul(d, m), q).Some? {
      var l := WorldToLocal(Mul(d, m), q).value;
      WorldLocalRoundTrip(Mul(d, m), q, l);
      PullBack(d, m, l, p, q);
      WorldLocalRoundTrip(m, p, l);
    }
  }

  /** The only world point that `d` can have sent to the image of `l` is the image of `l`. */
  lemma PullBack(d: Mat3, m: Mat3, l: Point, p: Point, q: Point)
    requires Abs(Determinant(m)) >= EPSILON && Abs(Determinant(Mul(d, m))) >= EPSILON
    requires Apply(d, p) == Some(q) && Apply(Mul(d, m), l) == Some(q)
    ensures Apply(m, l) == Some(p)
  {
    var v, a, b := MulV(m, Lift(l)), MulV(Mul(d, m), Lift(l)), MulV(d, Lift(p));
    MulAct(d, m, Lift(l));
    ProjectIs(a, q);
    ProjectIs(b, q);
    ProjectIs(v, p);
    InverseIsTwoSided(m);
    InverseIsTwoSided(Mul(d, m));
    hide MulV, Mul, Invert, Determinant;
    Rescale(Lift(q), b.w, a.w);
    MulVScaled(d, Lift(p), a.w / b.w);
    Injective(d, m, v, Scaled(Lift(p), a.w / b.w));
    ScaledW(Lift(p), a.w / b.w);
  }

  lemma ScaledW(v: Hom, t: real)
    requires v.w == 1.0
    ensures Scaled(v, t).w == t
  {
  }

  // ---- The even-odd test ----------------------------------------------------

  predicate Straddles(a: Point, b: Point, p: Point) { (a.y > p.y) != (b.y > p.y) }

  /** The ray from `p` towards +x meets the edge from `b` to `a`. */
  predicate Crosses(a: Point, b: Point, p: Point) { Straddles(a, b, p) && p.x < MeetX(a, b, p) }

  /** Where the edge from `b` to `a` meets the horizontal line through `p`. */
  function MeetX(a: Point, b: Point, p: Point): real
    requires Straddles(a, b, p)
  {
    (b.x - a.x) * (p.y - a.y) / (b.y - a.y) + a.x
  }

  /** For each vertex, whether the ray meets the edge that arrives there. */
  function Crossings(poly: seq<Point>, p: Point): (r: seq<bool>)
    ensures |r| == |poly|
  {
    seq(|poly|, i requires 0 <= i < |poly| => Crosses(poly[i], VertexBefore(poly, i), p))
  }

  /** The vertex before vertex `i` around the ring. */
  function VertexBefore(poly: seq<Point>, i: nat): Point
    requires i < |poly|
  {
    if i == 0 then poly[|poly| - 1] else poly[i - 1]
  }

  /** An odd number of flags is set. */
  predicate Odd(flags: seq<bool>) {
    flags != [] && Odd(flags[..|flags| - 1]) != flags[|flags| - 1]
  }

  predicate InPolygon(poly: seq<Point>, p: Point) { |poly| >= 3 && Odd(Crossings(poly, p)) }

  lemma OddSnoc(flags: seq<bool>, b: bool)
    ensures Odd(flags + [b]) <==> Odd(flags) != b
  {
    assert (flags + [b])[..|flags|] == flags;
  }

  lemma {:induction false} OddConcat(a: seq<bool>, b: seq<bool>)
    ensures Odd(a + b) <==> Odd(a) != Odd(b)
  {
    if b == [] {
      assert a + b == a;
    } else {
      var n := |b| - 1;
      OddConcat(a, b[..n]);
      OddSnoc(a + b[..n], b[n]);
      assert a + b == (a + b[..n]) + [b[n]];
    }
  }

  method PointInPolygon(poly: seq<Point>, p: Point) returns (inside: bool)
    ensures inside == InPolygon(poly, p)
  {
    var n := |poly|;
    if n < 3 {
      return false;
    }
    inside := false;
    hide MeetX, Odd, Straddles;
    NoneSet([]);
    var j := n - 1;
    ghost var flags := Crossings(poly, p);
    for i := 0 to n
      invariant j == if i == 0 then n - 1 else i - 1
      invariant inside == Odd(flags[..i])
    {
      var a, b := poly[i], poly[j];
      assert b == VertexBefore(poly, i) && flags[i] == Crosses(a, b, p);
      var crosses := Straddles(a, b, p) && p.x < MeetX(a, b, p);
      if crosses {
        inside := !inside;
      }
      OddSnoc(flags[..i], flags[i]);
      assert flags[..i + 1] == flags[..i] + [flags[i]];
      j := i;
    }
    assert flags[..n] == flags;
  }

  lemma {:induction false} NoneSet(flags: seq<bool>)
    requires forall i :: 0 <= i < |flags| ==> !flags[i]
    ensures !Odd(flags)
  {
    if flags != [] { NoneSet(flags[..|flags| - 1]); }
  }

  /** Around the ring up to `k`, an odd number of straddles means ending on the other side. */
  lemma StraddlesJoin(a: Point, b: Point, c: Point, p: Point)
    ensures Straddles(a, c, p) <==> Straddles(a, b, p) != Straddles(b, c, p)
  {
  }

  lemma {:induction false} StraddleParity(poly: seq<Point>, p: Point, flags: seq<bool>, k: nat)
    requires 0 < k <= |poly| == |flags|
    requires forall i :: 0 <= i < |poly| ==> flags[i] == Straddles(poly[i], VertexBefore(poly, i), p)
    ensures Odd(flags[..k]) <==> Straddles(poly[k - 1], poly[|poly| - 1], p)
  {
    hide Straddles, Odd;
    assert flags[..k] == flags[..k - 1] + [flags[k - 1]];
    OddSnoc(flags[..k - 1], flags[k - 1]);
    if k > 1 {
      StraddleParity(poly, p, flags, k - 1);
      StraddlesJoin(poly[k - 1], poly[k - 2], poly[|poly| - 1], p);
    } else {
      assert flags[..0] == [];
      NoneOdd();
    }
  }

  lemma NoneOdd()
    ensures !Odd([])
  {
  }

  /** The meeting point lies between the edge's ends. */
  lemma MeetsBetween(a: Point, b: Point, p: Point)
    requires Straddles(a, b, p)
    ensures a.x <= MeetX(a, b, p) <= b.x || b.x <= MeetX(a, b, p) <= a.x
  {
    var dx, h, e := b.x - a.x, p.y - a.y, b.y - a.y;
    var t := h / e;
    assert 0.0 <= t <= 1.0 by {
      assert t * e == h;
      assert (t - 1.0) * e == h - e;
      Sign(t, e);
      Sign(t - 1.0, e);
    }
    assert dx * h / e == dx * t by { assert dx * h == (dx * t) * e by { ScaleTwice(dx, t, e); } }
    if dx >= 0.0 { Between(dx, t); } else { Between(-dx, t); }
  }

  lemma Sign(s: real, e: real)
    requires e != 0.0
    ensures s > 0.0 && e > 0.0 ==> s * e > 0.0
    ensures s > 0.0 && e < 0.0 ==> s * e < 0.0
    ensures s < 0.0 && e > 0.0 ==> s * e < 0.0
    ensures s < 0.0 && e < 0.0 ==> s * e > 0.0
  {
  }

  lemma Between(d: real, t: real)
    requires d >= 0.0 && 0.0 <= t <= 1.0
    ensures 0.0 <= d * t <= d
  {
    assert d * t + d * (1.0 - t) == d;
  }

  /** No edge can be met from a point with every vertex to its left, above it or below it. */
  lemma NoEdgeMet(poly: seq<Point>, p: Point)
    requires (forall i :: 0 <= i < |poly| ==> poly[i].x <= p.x) || (forall i :: 0 <= i < |poly| ==> poly[i].y > p.y)
          || (forall i :: 0 <= i < |poly| ==> poly[i].y <= p.y)
    ensures !InPolygon(poly, p)
  {
    hide MeetX, Odd, Crosses;
    forall i | 0 <= i < |poly| ensures !Crossings(poly, p)[i] { NoCrossing(poly[i], VertexBefore(poly, i), p); }
    NoneSet(Crossings(poly, p));
  }

  /** From the far left every straddling edge is met, and a ring has an even number of those. */
  lemma EvenFromTheLeft(poly: seq<Point>, p: Point)
    requires forall i :: 0 <= i < |poly| ==> poly[i].x > p.x
    ensures !InPolygon(poly, p)
  {
    hide *;
    if InPolygon(poly, p) {
      InPolygonIs(poly, p);
      var flags := Crossings(poly, p);
      forall i | 0 <= i < |poly| ensures flags[i] == Straddles(poly[i], VertexBefore(poly, i), p) {
        LeftFlag(poly, p, i);
      }
      StraddleParity(poly, p, flags, |poly|);
      assert flags[..|poly|] == flags;
      NoStraddle(poly[|poly| - 1], p);
    }
  }

  lemma InPolygonIs(poly: seq<Point>, p: Point)
    ensures InPolygon(poly, p) <==> |poly| >= 3 && Odd(Crossings(poly, p))
  {
  }

  lemma NoStraddle(a: Point, p: Point)
    ensures !Straddles(a, a, p)
  {
  }

  lemma LeftFlag(poly: seq<Point>, p: Point, i: nat)
    requires i < |poly| && forall i :: 0 <= i < |poly| ==> poly[i].x > p.x
    ensures Crossings(poly, p)[i] == Straddles(poly[i], VertexBefore(poly, i), p)
  {
    SureCrossing(poly[i], VertexBefore(poly, i), p);
    hide MeetX, Crosses;
  }

  /** No point outside the half-open bounding box of the outline is ever inside. */
  lemma InsideIsInBox(poly: seq<Point>, p: Point)
    requires InPolygon(poly, p)
    ensures exists i, j :: 0 <= i < |poly| && 0 <= j < |poly| && poly[i].x <= p.x < poly[j].x
    ensures exists i, j :: 0 <= i < |poly| && 0 <= j < |poly| && poly[i].y <= p.y < poly[j].y
  {
    hide InPolygon;
    if forall i :: 0 <= i < |poly| ==> poly[i].x > p.x { EvenFromTheLeft(poly, p); }
    if (forall i :: 0 <= i < |poly| ==> poly[i].x <= p.x) || (forall i :: 0 <= i < |poly| ==> poly[i].y > p.y)
      || (forall i :: 0 <= i < |poly| ==> poly[i].y <= p.y)
    { NoEdgeMet(poly, p); }
  }

  lemma NoCrossing(a: Point, b: Point, p: Point)
    ensures (a.x <= p.x && b.x <= p.x) || (a.y > p.y && b.y > p.y) || (a.y <= p.y && b.y <= p.y) ==> !Crosses(a, b, p)
  {
    if Straddles(a, b, p) { MeetsBetween(a, b, p); }
    hide MeetX;
  }

  lemma SureCrossing(a: Point, b: Point, p: Point)
    ensures a.x > p.x && b.x > p.x ==> Crosses(a, b, p) == Straddles(a, b, p)
  {
    if Straddles(a, b, p) { MeetsBetween(a, b, p); }
    hide MeetX;
  }

  /** Where the ring starts does not matter. */
  lemma RingStart(poly: seq<Point>, p: Point)
    requires poly != []
    ensures InPolygon(poly[1..] + [poly[0]], p) == InPolygon(poly, p)
  {
    hide Crosses, Odd;
    var f := Crossings(poly, p);
    assert Crossings(poly[1..] + [poly[0]], p) == f[1..] + [f[0]];
    assert f == [f[0]] + f[1..];
    OddConcat([f[0]], f[1..]);
    OddConcat(f[1..], [f[0]]);
  }

  /** A rectangle holds its left and top sides but not its right and bottom ones, so abutting
      rectangles share no point. */
  lemma RectangleIsHalfOpen(x0: real, y0: real, x1: real, y1: real, p: Point)
    requires x0 < x1 && y0 < y1
    ensures InPolygon([Point(x0, y0), Point(x1, y0), Point(x1, y1), Point(x0, y1)], p)
       <==> x0 <= p.x < x1 && y0 <= p.y < y1
  {
    hide MeetX, Odd;
    NoneSet([]);
    var a, b, c, d := Point(x0, y0), Point(x1, y0), Point(x1, y1), Point(x0, y1);
    var f := Crossings([a, b, c, d], p);
    assert f == [Crosses(a, d, p), Crosses(b, a, p), Crosses(c, b, p), Crosses(d, c, p)];
    OddSnoc([], f[0]);
    OddSnoc([f[0]], f[1]);
    OddSnoc([f[0], f[1]], f[2]);
    OddSnoc([f[0], f[1], f[2]], f[3]);
    assert [] + [f[0]] == [f[0]] && [f[0]] + [f[1]] == [f[0], f[1]] && [f[0], f[1]] + [f[2]] == [f[0], f[1], f[2]];
    assert [f[0], f[1], f[2]] + [f[3]] == f;
    if Straddles(a, d, p) { MeetsBetween(a, d, p); }
    if Straddles(c, b, p) { MeetsBetween(c, b, p); }
  }

  // ---- Hit testing ----------------------------------------------------------

  predicate Hit(m: Mat3, outline: seq<Point>, world: Point) {
    match WorldToLocal(m, world)
    case None => false
    case Some(local) => InPolygon(outline, local)
  }

  method HitTestObject(m: Mat3, outline: seq<Point>, world: Point) returns (hit: bool)
    ensures hit == Hit(m, outline, world)
  {
    var local := WorldToLocal(m, world);
    if local.None? {
      return false;
    }
    hit := PointInPolygon(outline, local.value);
  }

  /** A gesture delta carries the object and the pointer together: hits do not change, as long as the
      composed matrix stays above the threshold, and below it nothing is ever hit. */
  lemma GestureEquivariance(d: Mat3, m: Mat3, outline: seq<Point>, p: Point, q: Point)
    requires Abs(Determinant(m)) >= EPSILON && Apply(d, p) == Some(q)
    ensures Hit(Mul(d, m), outline, q) <==> Abs(Determinant(Mul(d, m))) >= EPSILON && Hit(m, outline, p)
  {
    hide Mul, Determinant, Apply, EPSILON, InPolygon;
    if Abs(Determinant(Mul(d, m))) >= EPSILON { LocalPointEquivariant(d, m, p, q); }
  }

  /** A hit names the local point that the transform sends to the pointer. */
  lemma HitIsImage(m: Mat3, outline: seq<Point>, world: Point)
    requires Abs(Determinant(m)) >= EPSILON
    ensures Hit(m, outline, world) <==> exists l :: InPolygon(outline, l) && Apply(m, l) == Some(world)
  {
    hide Determinant, Apply, EPSILON, InPolygon, Invert;
    var local := WorldToLocal(m, world);
    if local.Some? { WorldLocalRoundTrip(m, world, local.value); }
    forall l | InPolygon(outline, l) && Apply(m, l) == Some(world) ensures local == Some(l) {
      WorldLocalRoundTrip(m, world, l);
    }
  }

  // ---- Resizing -------------------------------------------------------------

  datatype Corner = Nw | Ne | Se | Sw | N | S | E | W

  datatype Box = Box(minX: real, minY: real, maxX: real, maxY: real)

  function ScaleAbout(sx: real, sy: real, ax: real, ay: real): Mat3 {
    Mat3(sx, 0.0, ax - sx * ax, 0.0, sy, ay - sy * ay, 0.0, 0.0, 1.0)
  }

  function AxisScale(start: real, now: real, anchor: real): real {
    if Abs(start - anchor) < EPSILON then 1.0 else (now - anchor) / (start - anchor)
  }

  /** The fixed point of a resize: the corner opposite the handle. */
  function Anchor(b: Box, c: Corner): Point {
    match c
    case Nw => Point(b.maxX, b.maxY)
    case Ne => Point(b.minX, b.maxY)
    case Se => Point(b.minX, b.minY)
    case Sw => Point(b.maxX, b.minY)
    case N => Point(b.minX, b.maxY)
    case S => Point(b.minX, b.minY)
    case E => Point(b.minX, b.minY)
    case W => Point(b.maxX, b.minY)
  }

  function ResizeDelta(b: Box, c: Corner, now: Point, start: Point): Mat3 {
    var a := Anchor(b, c);
    ScaleAbout(if ScalesX(c) then AxisScale(start.x, now.x, a.x) else 1.0,
               if ScalesY(c) then AxisScale(start.y, now.y, a.y) else 1.0, a.x, a.y)
  }

  lemma AxisMoves(start: real, now: real, anchor: real)
    ensures AxisScale(start, now, anchor) * start + (anchor - AxisScale(start, now, anchor) * anchor)
              == if Abs(start - anchor) >= EPSILON then now else start
  {
    var s := AxisScale(start, now, anchor);
    if Abs(start - anchor) >= EPSILON { assert s * (start - anchor) == now - anchor; }
  }

  lemma ScaleAboutActs(sx: real, sy: real, ax: real, ay: real, p: Point)
    ensures Apply(ScaleAbout(sx, sy, ax, ay), p) == Some(Point(sx * p.x + (ax - sx * ax), sy * p.y + (ay - sy * ay)))
  {
    var v := MulV(ScaleAbout(sx, sy, ax, ay), Lift(p));
    assert v.w == 1.0;
    var u := sx * p.x + (ax - sx * ax);
    assert v.x == u && v.x / v.w == u;
    var t := sy * p.y + (ay - sy * ay);
    assert v.y == t && v.y / v.w == t;
  }

  predicate ScalesX(c: Corner) { !c.N? && !c.S? }
  predicate ScalesY(c: Corner) { !c.E? && !c.W? }

  /** A resize holds its anchor still. On each axis on its own: the grabbed point goes to the pointer when
      the handle scales that axis and starts off the anchor there, and stays where it is otherwise. */
  lemma ResizeTracksPointer(b: Box, c: Corner, now: Point, start: Point)
    ensures Apply(ResizeDelta(b, c, now, start), Anchor(b, c)) == Some(Anchor(b, c))
    ensures var (grabbed, a) := (Apply(ResizeDelta(b, c, now, start), start), Anchor(b, c));
            && grabbed.Some?
            && grabbed.value.x == (if ScalesX(c) && Abs(start.x - a.x) >= EPSILON then now.x else start.x)
            && grabbed.value.y == (if ScalesY(c) && Abs(start.y - a.y) >= EPSILON then now.y else start.y)
  {
    hide Apply, ScaleAbout, AxisScale;
    var a := Anchor(b, c);
    var sx := if ScalesX(c) then AxisScale(start.x, now.x, a.x) else 1.0;
    var sy := if ScalesY(c) then AxisScale(start.y, now.y, a.y) else 1.0;
    AnchorFixed(sx, sy, a);
    AxisMoves(start.x, now.x, a.x);
    AxisMoves(start.y, now.y, a.y);
    ScaleAboutActs(sx, sy, a.x, a.y, start);
  }

  lemma AnchorFixed(sx: real, sy: real, a: Point)
    ensures Apply(ScaleAbout(sx, sy, a.x, a.y), a) == Some(a)
  {
    ScaleAboutActs(sx, sy, a.x, a.y, a);
  }
}
