/** What a dash pattern means along the whole line, and how long the drawn pieces are
    (crates/renderer-core/src/stroke_expand.rs, `dash_segments`). */
module DashPattern {
  import opened Planar
  import opened StrokeDash

  // ---- The pattern repeats --------------------------------------------------

  /** What the entries from `k` on add up to; those that are not positive count for nothing. */
  function Sum(dash: seq<real>, k: nat): real
    requires k <= |dash|
    decreases |dash| - k
  {
    if k == |dash| then 0.0 else (if dash[k] > 0.0 then dash[k] else 0.0) + Sum(dash, k + 1)
  }

  lemma {:induction false} WrapTurn(m: nat, n: nat)
    requires n > 0
    ensures Wrap(m + n, n) == Wrap(m, n)
  {
  }

  lemma {:induction false} FirstTurn(dash: seq<real>, k: nat)
    requires dash != [] && k <= |dash|
    ensures SpanStart(dash, k) + Sum(dash, k) == Sum(dash, 0)
  {
    if k > 0 { FirstTurn(dash, k - 1); }
  }

  /** A turn later every span starts one sum later. */
  lemma {:induction false} StartTurn(dash: seq<real>, m: nat)
    requires dash != []
    ensures SpanStart(dash, m + |dash|) == SpanStart(dash, m) + Sum(dash, 0)
  {
    if m == 0 {
      FirstTurn(dash, |dash|);
    } else {
      StartTurn(dash, m - 1);
      WrapTurn(m - 1, |dash|);
      assert m - 1 + |dash| == m + |dash| - 1;
    }
  }

  lemma {:induction false} SumPositive(dash: seq<real>, k: nat)
    requires k <= |dash|
    ensures Sum(dash, k) >= 0.0 && ((exists j :: k <= j < |dash| && dash[j] > 0.0) ==> Sum(dash, k) > 0.0)
    decreases |dash| - k
  {
    if k < |dash| { SumPositive(dash, k + 1); }
  }

  lemma {:induction false} SpanWithin(dash: seq<real>, m: nat, t: real) returns (k: nat)
    requires dash != [] && 0.0 <= t < SpanStart(dash, m)
    ensures Spans(dash, k, t)
  {
    if t >= SpanStart(dash, m - 1) { k := m - 1; } else { k := SpanWithin(dash, m - 1, t); }
  }

  /** Some span holds every length. */
  lemma {:induction false} SpanExists(dash: seq<real>, t: real) returns (k: nat)
    requires dash != [] && Usable(dash) && t >= 0.0
    ensures Spans(dash, k, t)
    decreases if Sum(dash, 0) > 0.0 then Turns(t, Sum(dash, 0)) else 0
  {
    var sum := Sum(dash, 0);
    SumPositive(dash, 0);
    StartTurn(dash, 0);
    if t < sum {
      k := SpanWithin(dash, |dash|, t);
    } else {
      TurnsDrop(t, sum, t - sum);
      k := SpanExists(dash, t - sum);
      StartTurn(dash, k);
      StartTurn(dash, k + 1);
      k := k + |dash|;
    }
  }

  /** A turn later a pattern of even length is the same, and one of odd length its opposite. */
  lemma PatternTurns(dash: seq<real>, t: real)
    requires dash != [] && Usable(dash) && t >= 0.0
    ensures On(dash, t + Sum(dash, 0)) <==> if |dash| % 2 == 0 then On(dash, t) else !On(dash, t)
  {
    hide *;
    var m := SpanExists(dash, t);
    SpanTurns(dash, m, t);
    OnInSpan(dash, m, t);
    OnInSpan(dash, m + |dash|, t + Sum(dash, 0));
    Parity(m, |dash|);
  }

  lemma SpanTurns(dash: seq<real>, m: nat, t: real)
    requires dash != [] && Spans(dash, m, t)
    ensures Spans(dash, m + |dash|, t + Sum(dash, 0))
  {
    hide SpanStart, Sum;
    StartTurn(dash, m);
    StartTurn(dash, m + 1);
    assert m + 1 + |dash| == m + |dash| + 1;
  }

  lemma Parity(m: nat, n: nat)
    ensures (m + n) % 2 == 0 <==> ((n % 2 == 0) <==> (m % 2 == 0))
  {
  }

  /** Within the first turn the entries are on and off by turns, the first one on. */
  lemma FirstTurnAlternates(dash: seq<real>, k: nat, t: real)
    requires k < |dash| && dash[k] > 0.0
    requires Sum(dash, 0) - Sum(dash, k) <= t < Sum(dash, 0) - Sum(dash, k) + dash[k]
    ensures On(dash, t) <==> k % 2 == 0
  {
    FirstTurn(dash, k);
    FirstTurn(dash, k + 1);
    assert Spans(dash, k, t);
    OnInSpan(dash, k, t);
  }

  // ---- Drawn lengths --------------------------------------------------------

  lemma {:induction false} ArcOverSkipped(lens: seq<real>, i: nat, j: nat)
    requires Skipped(lens, i, j)
    ensures Arc(lens, i) == Arc(lens, j)
    decreases j
  {
    if i < j { ArcOverSkipped(lens, i, j - 1); }
  }

  /** Two places on one segment are as far apart as their arc lengths. */
  lemma ApartOnSegment(points: seq<Point>, lens: seq<real>, s: nat, p: Point, t: real, q: Point, u: real)
    requires |lens| + 1 == |points| && IsLengths(points, lens)
    requires At(points, lens, s, p, t) && At(points, lens, s, q, u)
    ensures Dist2(p, q) == Sq(u - t)
  {
    hide *;
    LengthIs(points, lens, s, p, t);
    LengthIs(points, lens, s, q, u);
    var a, b, l, from := points[s], points[s + 1], lens[s], Arc(lens, s);
    WalkedApart(a, b, l, t - from, u - from, u - t);
  }

  lemma WalkedApart(a: Point, b: Point, len: real, w: real, v: real, d: real)
    requires len > 0.0 && len * len == Dist2(b, a) && d == v - w
    ensures Dist2(Along(a, b, len, w), Along(a, b, len, v)) == Sq(d)
  {
    hide Dist2, Along;
    UnitSpeed(a, b, len, w, v);
    SquareTurns(w, v, d);
  }

  lemma LengthIs(points: seq<Point>, lens: seq<real>, s: nat, p: Point, t: real)
    requires IsLengths(points, lens) && At(points, lens, s, p, t)
    ensures s < |lens| && lens[s] > 0.0 && lens[s] * lens[s] == Dist2(points[s + 1], points[s])
    ensures p == Along(points[s], points[s + 1], lens[s], t - Arc(lens, s))
  {
    hide Along, Arc, Dist2;
  }

  lemma SquareTurns(a: real, b: real, d: real)
    requires d == b - a
    ensures (a - b) * (a - b) == Sq(d)
  {
  }

  /** The straight piece that ends at `q` with arc length `u` starts at `v`, which is `p` itself or the vertex
      that only segments too short to walk part from `p`. */
  ghost predicate Leads(points: seq<Point>, lens: seq<real>, p: Point, v: Point, i: nat, s: nat)
    requires |lens| + 1 == |points|
  {
    v == p || (Skipped(lens, i, s) && p == points[i] && v == points[s])
  }

  /** Consecutive points of a run are as far apart as their arc lengths, but for segments too short to walk. */
  lemma DrawnLength(points: seq<Point>, lens: seq<real>, run: seq<Point>, arc: seq<real>, k: nat)
      returns (v: Point, i: nat, s: nat)
    requires IsLengths(points, lens) && Traces(points, lens, run, arc) && k + 1 < |run|
    ensures Leads(points, lens, run[k], v, i, s)
    ensures Dist2(v, run[k + 1]) == Sq(arc[k + 1] - arc[k])
  {
    var p, q, t, u := run[k], run[k + 1], arc[k], arc[k + 1];
    s := PieceOf(points, lens, run, arc, k);
    if At(points, lens, s, p, t) {
      v, i := p, s;
    } else {
      v := points[s];
      i := OverSkipped(points, lens, s, p, t);
    }
    hide *;
    ApartOnSegment(points, lens, s, v, t, q, u);
  }

  lemma PieceOf(points: seq<Point>, lens: seq<real>, run: seq<Point>, arc: seq<real>, k: nat) returns (s: nat)
    requires |lens| + 1 == |points| && Traces(points, lens, run, arc) && k + 1 < |run|
    ensures Reaches(points, lens, s, run[k], arc[k]) && At(points, lens, s, run[k + 1], arc[k + 1])
  {
    hide Reaches, At;
    assert Piece(points, lens, run[k], run[k + 1], arc[k], arc[k + 1]);
    s :| Reaches(points, lens, s, run[k], arc[k]) && At(points, lens, s, run[k + 1], arc[k + 1]);
  }

  lemma OverSkipped(points: seq<Point>, lens: seq<real>, s: nat, p: Point, t: real) returns (i: nat)
    requires |lens| + 1 == |points| && Reaches(points, lens, s, p, t) && !At(points, lens, s, p, t)
    requires s < |lens| && lens[s] >= MIN_SEGMENT_LEN
    ensures Skipped(lens, i, s) && i < |points| && p == points[i] && At(points, lens, s, points[s], t)
  {
    hide At, Arc;
    i :| Skipped(lens, i, s) && p == points[i] && t == Arc(lens, i);
    ArcOverSkipped(lens, i, s);
    AtStart(points, lens, s);
  }
}
