/** Clip depth of every object by a memoised walk up the parent links, which may form cycles
    (crates/renderer-core/src/object_pipeline.rs). */
module ClipRefs {
  import opened Sequences

  datatype Node = Node(parent: Option<string>, clip: bool)
  datatype SceneObject = SceneObject(id: string, parent: Option<string>, clip: bool)

  /** The `k`-th step up from `id`; a missing object has no parent. */
  function Up(lookup: map<string, Node>, id: string, k: nat): Option<string> {
    if k == 0 then Some(id)
    else
      match Up(lookup, id, k - 1)
      case None => None
      case Some(x) => if x in lookup then lookup[x].parent else None
  }

  /** `x` is a strict ancestor of `id`. */
  ghost predicate Above(lookup: map<string, Node>, x: string, id: string) {
    exists k: nat :: k >= 1 && Up(lookup, id, k) == Some(x)
  }

  /** The walk up from `id` ends. */
  ghost predicate Grounded(lookup: map<string, Node>, id: string) {
    exists k: nat :: Up(lookup, id, k) == None
  }

  ghost function ClipAncestors(lookup: map<string, Node>, id: string): set<string> {
    set x | x in lookup && lookup[x].clip && Above(lookup, x, id)
  }

  /** The stencil reference an object should have. */
  ghost function ClipDepth(lookup: map<string, Node>, id: string): nat {
    if |ClipAncestors(lookup, id)| < 255 then |ClipAncestors(lookup, id)| else 255
  }

  // ---- Chains ---------------------------------------------------------------

  lemma {:induction false} UpAdd(lookup: map<string, Node>, id: string, j: nat, k: nat)
    requires Up(lookup, id, j).Some?
    ensures Up(lookup, id, j + k) == Up(lookup, Up(lookup, id, j).value, k)
  {
    if k > 0 { UpAdd(lookup, id, j, k - 1); }
  }

  lemma {:induction false} StaysEnded(lookup: map<string, Node>, id: string, j: nat, k: nat)
    requires j <= k && Up(lookup, id, j) == None
    ensures Up(lookup, id, k) == None
    decreases k
  {
    if j < k { StaysEnded(lookup, id, j, k - 1); }
  }

  lemma AboveStep(lookup: map<string, Node>, id: string, p: string, x: string)
    requires id in lookup && lookup[id].parent == Some(p)
    ensures Above(lookup, x, id) <==> x == p || Above(lookup, x, p)
  {
    assert Up(lookup, id, 0) == Some(id);
    assert Up(lookup, id, 1) == Some(p);
    if Above(lookup, x, id) && x != p {
      var k: nat :| k >= 1 && Up(lookup, id, k) == Some(x);
      UpAdd(lookup, id, 1, k - 1);
    }
    if Above(lookup, x, p) {
      var k: nat :| k >= 1 && Up(lookup, p, k) == Some(x);
      UpAdd(lookup, id, 1, k);
    }
  }

  /** One step past an ancestor is an ancestor. */
  lemma ParentAbove(lookup: map<string, Node>, y: string, id: string, p: string)
    requires Above(lookup, id, y) && id in lookup && lookup[id].parent == Some(p)
    ensures Above(lookup, p, y)
  {
    var k: nat :| k >= 1 && Up(lookup, y, k) == Some(id);
    assert Up(lookup, y, k + 1) == Some(p);
  }

  lemma {:induction false} Laps(lookup: map<string, Node>, id: string, k: nat, n: nat)
    requires Up(lookup, id, k) == Some(id)
    ensures Up(lookup, id, n * k) == Some(id)
  {
    if n > 0 {
      Laps(lookup, id, k, n - 1);
      UpAdd(lookup, id, (n - 1) * k, k);
      assert (n - 1) * k + k == n * k;
    }
  }

  /** A walk that ends never meets its start again. */
  lemma GroundedNotOwnAncestor(lookup: map<string, Node>, id: string)
    requires Grounded(lookup, id)
    ensures !Above(lookup, id, id)
  {
    if Above(lookup, id, id) {
      var k: nat :| k >= 1 && Up(lookup, id, k) == Some(id);
      var n: nat :| Up(lookup, id, n) == None;
      Laps(lookup, id, k, n);
      assert n <= n * k;
      StaysEnded(lookup, id, n, n * k);
    }
  }

  lemma GroundedParent(lookup: map<string, Node>, id: string, p: string)
    requires id in lookup && lookup[id].parent == Some(p)
    ensures Grounded(lookup, id) <==> Grounded(lookup, p)
  {
    assert Up(lookup, id, 0) == Some(id);
    assert Up(lookup, id, 1) == Some(p);
    if Grounded(lookup, id) {
      var k: nat :| Up(lookup, id, k) == None;
      UpAdd(lookup, id, 1, k - 1);
    }
    if Grounded(lookup, p) {
      var k: nat :| Up(lookup, p, k) == None;
      UpAdd(lookup, id, 1, k);
    }
  }

  /** The recurrence the walk computes: saturating addition of the parent's clip flag. */
  lemma DepthStep(lookup: map<string, Node>, id: string, p: string)
    requires Grounded(lookup, id) && id in lookup && lookup[id].parent == Some(p)
    ensures Grounded(lookup, p)
    ensures ClipDepth(lookup, id) == SaturatingAdd(ClipDepth(lookup, p), if p in lookup && lookup[p].clip then 1 else 0)
  {
    GroundedParent(lookup, id, p);
    GroundedNotOwnAncestor(lookup, p);
    forall x ensures Above(lookup, x, id) <==> x == p || Above(lookup, x, p) { AboveStep(lookup, id, p, x); }
    if p in lookup && lookup[p].clip {
      assert ClipAncestors(lookup, id) == ClipAncestors(lookup, p) + {p};
    } else {
      assert ClipAncestors(lookup, id) == ClipAncestors(lookup, p);
    }
  }

  lemma NoParentDepth(lookup: map<string, Node>, id: string)
    requires id !in lookup || lookup[id].parent.None?
    ensures ClipDepth(lookup, id) == 0
  {
    assert Up(lookup, id, 0) == Some(id);
    assert Up(lookup, id, 1) == None;
    forall x, k: nat | k >= 1 ensures Up(lookup, id, k) != Some(x) { StaysEnded(lookup, id, 1, k); }
    assert ClipAncestors(lookup, id) == {};
  }

  // ---- Cycles ---------------------------------------------------------------

  ghost predicate DistinctUpTo(lookup: map<string, Node>, id: string, n: nat) {
    forall i: nat, j: nat :: i < j < n && Up(lookup, id, i).Some? ==> Up(lookup, id, i) != Up(lookup, id, j)
  }

  /** A walk that never ends stays inside the lookup, so it cannot be free of repeats for long. */
  lemma WalkRepeats(lookup: map<string, Node>, id: string)
    requires !Grounded(lookup, id)
    ensures !DistinctUpTo(lookup, id, |lookup.Keys| + 1)
  {
    var n := |lookup.Keys| + 1;
    if DistinctUpTo(lookup, id, n) {
      var walked := seq(n, i requires 0 <= i < n => if Up(lookup, id, i).Some? then Up(lookup, id, i).value else id);
      forall i | 0 <= i < n ensures Some(walked[i]) == Up(lookup, id, i) && walked[i] in lookup {
        assert Up(lookup, id, i) != None && Up(lookup, id, i + 1) != None;
      }
      forall i, j | 0 <= i < j < n ensures walked[i] != walked[j] {
        assert Up(lookup, id, i) != Up(lookup, id, j);
      }
      ElementsSize(walked);
      SubsetSize(Elements(walked), lookup.Keys);
    }
  }

  /** The walk from `id` ends exactly when neither it nor any ancestor is its own ancestor. */
  lemma GroundedIffAcyclic(lookup: map<string, Node>, id: string)
    ensures Grounded(lookup, id)
       <==> !Above(lookup, id, id) && forall x :: Above(lookup, x, id) ==> !Above(lookup, x, x)
  {
    if Grounded(lookup, id) {
      GroundedNotOwnAncestor(lookup, id);
      forall x | Above(lookup, x, id) ensures !Above(lookup, x, x) {
        var k: nat :| k >= 1 && Up(lookup, id, k) == Some(x);
        var n: nat :| Up(lookup, id, n) == None;
        StaysEnded(lookup, id, n, k + n);
        UpAdd(lookup, id, k, n);
        GroundedNotOwnAncestor(lookup, x);
      }
    } else {
      var n := |lookup.Keys| + 1;
      WalkRepeats(lookup, id);
      var i: nat, j: nat :| i < j < n && Up(lookup, id, i).Some? && Up(lookup, id, i) == Up(lookup, id, j);
      var x := Up(lookup, id, i).value;
      UpAdd(lookup, id, i, j - i);
      assert Above(lookup, x, x);
    }
  }

  // ---- The walk -------------------------------------------------------------

  function SaturatingAdd(a: nat, b: nat): nat { if a + b <= 255 then a + b else 255 }

  /** Every settled entry of a grounded object is its clip depth; `open` ids are still being walked. */
  ghost predicate Settled(lookup: map<string, Node>, refs: map<string, nat>, open: set<string>) {
    forall x :: x in refs && x !in open && Grounded(lookup, x) ==> refs[x] == ClipDepth(lookup, x)
  }

  ghost predicate Extends(refs: map<string, nat>, more: map<string, nat>) {
    forall x :: x in refs ==> x in more && more[x] == refs[x]
  }

  method ClipRefFor(id: string, lookup: map<string, Node>, refs: map<string, nat>, ghost open: set<string>)
      returns (value: nat, more: map<string, nat>)
    requires open <= refs.Keys && Settled(lookup, refs, open)
    requires forall y :: y in open ==> Above(lookup, id, y)
    ensures Extends(refs, more) && id in more && more[id] == value && Settled(lookup, more, open)
    ensures Grounded(lookup, id) ==> value == ClipDepth(lookup, id)
    decreases |lookup.Keys - refs.Keys|
  {
    if id in refs {
      if Grounded(lookup, id) { GroundedNotOwnAncestor(lookup, id); }
      return refs[id], refs;
    }
    var marked := refs[id := 0];
    if id !in lookup || lookup[id].parent.None? {
      NoParentDepth(lookup, id);
      return 0, marked;
    }
    var parent := lookup[id].parent.value;
    assert lookup.Keys - refs.Keys == (lookup.Keys - marked.Keys) + {id};
    ghost var open' := open + {id};
    forall y | y in open' ensures Above(lookup, parent, y) {
      if y == id { AboveStep(lookup, id, parent, parent); } else { ParentAbove(lookup, y, id, parent); }
    }
    var parentCount, walked := ClipRefFor(parent, lookup, marked, open');
    value := SaturatingAdd(parentCount, if parent in lookup && lookup[parent].clip then 1 else 0);
    if Grounded(lookup, id) { DepthStep(lookup, id, parent); }
    more := walked[id := value];
  }

  // ---- The whole scene ------------------------------------------------------

  function Lookup(objects: seq<SceneObject>): map<string, Node> {
    if objects == [] then map[]
    else
      var o := objects[|objects| - 1];
      Lookup(objects[..|objects| - 1])[o.id := Node(o.parent, o.clip)]
  }

  /** Every object has an entry, the exact one when its walk ends. */
  ghost predicate IsClipRefs(objects: seq<SceneObject>, refs: map<string, nat>) {
    forall o :: o in objects ==>
      && o.id in refs
      && (Grounded(Lookup(objects), o.id) ==> refs[o.id] == ClipDepth(Lookup(objects), o.id))
  }

  method ComputeClipRefs(objects: seq<SceneObject>) returns (refs: map<string, nat>)
    ensures IsClipRefs(objects, refs)
  {
    var lookup := map[];
    for i := 0 to |objects|
      invariant lookup == Lookup(objects[..i])
    {
      var o := objects[i];
      assert objects[..i + 1][..i] == objects[..i];
      lookup := lookup[o.id := Node(o.parent, o.clip)];
    }
    assert objects[..|objects|] == objects;
    refs := map[];
    for i := 0 to |objects|
      invariant Settled(lookup, refs, {}) && forall k :: 0 <= k < i ==> objects[k].id in refs
    {
      var _, more := ClipRefFor(objects[i].id, lookup, refs, {});
      refs := more;
    }
  }

  predicate DistinctIds(objects: seq<SceneObject>) {
    forall i, j :: 0 <= i < j < |objects| ==> objects[i].id != objects[j].id
  }

  lemma {:induction false} LookupHas(objects: seq<SceneObject>, id: string)
    requires DistinctIds(objects)
    ensures id in Lookup(objects) <==> exists o :: o in objects && o.id == id
    ensures forall o ::
              o in objects && o.id == id ==> id in Lookup(objects) && Lookup(objects)[id] == Node(o.parent, o.clip)
  {
    if objects != [] {
      var n := |objects| - 1;
      LookupHas(objects[..n], id);
      assert objects == objects[..n] + [objects[n]];
    }
  }

  /** With distinct ids the order of the objects does not matter to their parent links. */
  lemma SameLookup(a: seq<SceneObject>, b: seq<SceneObject>)
    requires DistinctIds(a) && DistinctIds(b) && multiset(a) == multiset(b)
    ensures Lookup(a) == Lookup(b)
  {
    forall o ensures o in a <==> o in b {
      assert o in multiset(a) <==> o in a;
      assert o in multiset(b) <==> o in b;
    }
    forall id ensures id in Lookup(a) <==> id in Lookup(b) {
      LookupHas(a, id);
      LookupHas(b, id);
    }
    forall id | id in Lookup(a) ensures Lookup(a)[id] == Lookup(b)[id] {
      LookupHas(a, id);
      LookupHas(b, id);
    }
  }

  /** What the computation answers for the same objects in two orders agrees on every object whose walk
      ends, and whether it ends is the same in both. */
  lemma OrderIndependent(a: seq<SceneObject>, b: seq<SceneObject>,
                         refsA: map<string, nat>, refsB: map<string, nat>, o: SceneObject)
    requires DistinctIds(a) && DistinctIds(b) && multiset(a) == multiset(b)
    requires IsClipRefs(a, refsA) && IsClipRefs(b, refsB) && o in a
    ensures Grounded(Lookup(a), o.id) <==> Grounded(Lookup(b), o.id)
    ensures ClipDepth(Lookup(a), o.id) == ClipDepth(Lookup(b), o.id)
    ensures o.id in refsA && o.id in refsB && (Grounded(Lookup(a), o.id) ==> refsA[o.id] == refsB[o.id])
  {
    SameLookup(a, b);
    assert o in multiset(b);
  }
}
