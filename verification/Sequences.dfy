/** Small sequence vocabulary shared by the models. */
module Sequences {
  datatype Option<T> = None | Some(value: T)

  function Max(a: int, b: int): int { if a >= b then a else b }
  function Min(a: int, b: int): int { if a <= b then a else b }
  function MaxReal(a: real, b: real): real { if a >= b then a else b }
  function MinReal(a: real, b: real): real { if a <= b then a else b }

  /** `s` is the subsequence of `t` at the strictly increasing positions `pos`. */
  predicate Embeds<T(==)>(s: seq<T>, t: seq<T>, pos: seq<nat>) {
    && |pos| == |s|
    && (forall i :: 0 <= i < |pos| ==> pos[i] < |t| && t[pos[i]] == s[i])
    && (forall i, j :: 0 <= i < j < |pos| ==> pos[i] < pos[j])
  }

  predicate Distinct<T(==)>(s: seq<T>) {
    forall i, j :: 0 <= i < j < |s| ==> s[i] != s[j]
  }

  function InsertAt<T(!new)>(s: seq<T>, k: nat, x: T): (r: seq<T>)
    requires k <= |s|
    ensures |r| == |s| + 1 && r[k] == x
    ensures forall i :: 0 <= i < k ==> r[i] == s[i]
    ensures forall i :: k <= i < |s| ==> r[i + 1] == s[i]
    ensures forall y :: y in r <==> y == x || y in s
  {
    assert s == s[..k] + s[k..];
    s[..k] + [x] + s[k..]
  }

  function Elements<T>(s: seq<T>): set<T> { set x | x in s }

  lemma {:induction false} ElementsSize<T>(s: seq<T>)
    ensures |Elements(s)| <= |s|
    ensures Distinct(s) ==> |Elements(s)| == |s|
  {
    if s == [] {
    } else {
      var k := |s| - 1;
      ElementsSize(s[..k]);
      assert s == s[..k] + [s[k]];
      assert Elements(s) == Elements(s[..k]) + {s[k]};
      if Distinct(s) { assert s[k] !in s[..k]; }
    }
  }

  /** A sequence without repeats is no longer than a sequence that contains its elements. */
  lemma DistinctFits<T(!new)>(s: seq<T>, t: seq<T>)
    requires Distinct(s) && forall x :: x in s ==> x in t
    ensures |s| <= |t|
  {
    ElementsSize(s);
    ElementsSize(t);
    SubsetSize(Elements(s), Elements(t));
  }

  lemma SubsetSize<T>(a: set<T>, b: set<T>)
    requires a <= b
    ensures |a| <= |b|
  {
    assert b == a + (b - a);
  }
}
