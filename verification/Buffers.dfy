/** Merged buffers: parts laid end to end, and in-place writes over one part. */
module Buffers {
  function Flat<T>(parts: seq<seq<T>>): seq<T> {
    if parts == [] then [] else Flat(parts[..|parts| - 1]) + parts[|parts| - 1]
  }

  /** Where part `i` starts. */
  function Start<T>(parts: seq<seq<T>>, i: nat): (r: nat)
    requires i <= |parts|
  {
    |Flat(parts[..i])|
  }

  lemma FlatSnoc<T>(parts: seq<seq<T>>, p: seq<T>)
    ensures Flat(parts + [p]) == Flat(parts) + p
  {
    assert (parts + [p])[..|parts|] == parts;
  }

  lemma StartStep<T>(parts: seq<seq<T>>, i: nat)
    requires i < |parts|
    ensures Start(parts, i + 1) == Start(parts, i) + |parts[i]|
  {
    assert parts[..i + 1] == parts[..i] + [parts[i]];
    FlatSnoc(parts[..i], parts[i]);
  }

  lemma {:induction false} FlatConcat<T>(a: seq<seq<T>>, b: seq<seq<T>>)
    ensures Flat(a + b) == Flat(a) + Flat(b)
  {
    if b == [] {
      assert a + b == a;
    } else {
      hide Flat;
      var front, p := b[..|b| - 1], b[|b| - 1];
      FlatConcat(a, front);
      FlatSnoc(a + front, p);
      FlatSnoc(front, p);
      assert b == front + [p] && a + b == (a + front) + [p];
    }
  }

  /** The buffer around part `i`. */
  lemma FlatAround<T>(parts: seq<seq<T>>, i: nat)
    requires i < |parts|
    ensures Flat(parts) == Flat(parts[..i]) + parts[i] + Flat(parts[i + 1..])
  {
    hide Flat;
    var before, rest := parts[..i], parts[i + 1..];
    FlatSnoc(before, parts[i]);
    assert parts == (before + [parts[i]]) + rest;
    FlatConcat(before + [parts[i]], rest);
  }

  /** Reading part `i` back. */
  lemma SliceOfFlat<T>(parts: seq<seq<T>>, i: nat)
    requires i < |parts|
    ensures Start(parts, i) + |parts[i]| <= |Flat(parts)|
    ensures Flat(parts)[Start(parts, i)..Start(parts, i) + |parts[i]|] == parts[i]
  {
    FlatAround(parts, i);
  }

  /** A write of `data` at `at`; the device refuses one that does not fit. */
  function Splice<T>(buf: seq<T>, at: nat, data: seq<T>): (r: seq<T>)
    ensures |r| == |buf|
  {
    if at + |data| <= |buf| then buf[..at] + data + buf[at + |data|..] else buf
  }

  lemma SpliceMiddle<T>(x: seq<T>, y: seq<T>, z: seq<T>, data: seq<T>)
    requires |data| == |y|
    ensures Splice(x + y + z, |x|, data) == x + data + z
  {
    var buf := x + y + z;
    assert buf[..|x|] == x && buf[|x| + |data|..] == z;
  }

  /** Writing over part `i` with as many elements replaces exactly that part. */
  lemma SplicePart<T>(parts: seq<seq<T>>, i: nat, data: seq<T>)
    requires i < |parts| && |data| == |parts[i]|
    ensures Splice(Flat(parts), Start(parts, i), data) == Flat(parts[i := data])
  {
    var q := parts[i := data];
    FlatAround(parts, i);
    FlatAround(q, i);
    hide Flat;
    assert q[..i] == parts[..i] && q[i + 1..] == parts[i + 1..];
    SpliceMiddle(Flat(parts[..i]), parts[i], Flat(parts[i + 1..]), data);
  }

  predicate SameLengths<T>(a: seq<seq<T>>, b: seq<seq<T>>) {
    |a| == |b| && forall i :: 0 <= i < |a| ==> |a[i]| == |b[i]|
  }

  lemma {:induction false} SameStarts<T>(a: seq<seq<T>>, b: seq<seq<T>>, i: nat)
    requires |a| >= i && |b| >= i && forall j :: 0 <= j < i ==> |a[j]| == |b[j]|
    ensures Start(a, i) == Start(b, i)
    decreases i
  {
    if i > 0 {
      SameStarts(a, b, i - 1);
      StartStep(a, i - 1);
      StartStep(b, i - 1);
    } else {
      assert a[..0] == [] && b[..0] == [];
    }
  }

  /** The first `k` parts of `b`, then the rest of `a`. */
  function Mixed<T>(a: seq<seq<T>>, b: seq<seq<T>>, k: nat): (r: seq<seq<T>>)
    requires k <= |a| == |b|
  {
    b[..k] + a[k..]
  }

  /** One in-place write moves the mix one part further, whether it writes or the parts agree. */
  lemma MixStep<T>(a: seq<seq<T>>, b: seq<seq<T>>, k: nat)
    requires SameLengths(a, b) && k < |a|
    ensures Splice(Flat(Mixed(a, b, k)), Start(a, k), b[k]) == Flat(Mixed(a, b, k + 1))
    ensures a[k] == b[k] ==> Mixed(a, b, k) == Mixed(a, b, k + 1)
    ensures b[k] == [] ==> Mixed(a, b, k) == Mixed(a, b, k + 1)
  {
    var m := Mixed(a, b, k);
    assert m[k] == a[k];
    SplicePart(m, k, b[k]);
    SameStarts(m, a, k);
    assert m[k := b[k]] == Mixed(a, b, k + 1);
  }

  /** A guarded write: an empty part needs none. */
  lemma MixWrite<T>(buf: seq<T>, a: seq<seq<T>>, b: seq<seq<T>>, k: nat, at: nat, skip: bool)
    requires SameLengths(a, b) && k < |a| && buf == Flat(Mixed(a, b, k)) && at == Start(a, k)
    requires skip ==> b[k] == []
    ensures (if skip then buf else Splice(buf, at, b[k])) == Flat(Mixed(a, b, k + 1))
  {
    MixStep(a, b, k);
  }

  method WriteBuffer<T>(buf: array<T>, at: nat, data: seq<T>)
    modifies buf
    ensures buf[..] == Splice(old(buf[..]), at, data)
  {
    if at + |data| > buf.Length {
      return;
    }
    for i := 0 to |data|
      invariant buf[..] == Splice(old(buf[..]), at, data[..i])
    {
      buf[at + i] := data[i];
      assert data[..i + 1] == data[..i] + [data[i]];
    }
    assert data[..|data|] == data;
  }
}
