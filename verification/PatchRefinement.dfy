/** Patching refines rebuilding: the in-place feed leaves the buffers a fresh build would upload. */
module PatchRefinement {
  import opened Buffers
  import opened FramePlan
  import opened Renderer

  // ---- Scenes that fit over each other --------------------------------------

  predicate SameCountsAt(a: Baked, b: Baked) {
    && |a.slices.mesh.vertices| == |b.slices.mesh.vertices| && |a.slices.mesh.indices| == |b.slices.mesh.indices|
    && |a.slices.stroke| == |b.slices.stroke| && |a.slices.shadow| == |b.slices.shadow|
       && |a.slices.text| == |b.slices.text|
  }

  predicate SameCounts(a: seq<Baked>, b: seq<Baked>) {
    |a| == |b| && forall i :: 0 <= i < |a| ==> SameCountsAt(a[i], b[i])
  }

  lemma CountsOfParts(a: seq<Baked>, b: seq<Baked>)
    requires SameCounts(a, b)
    ensures SameLengths(Verts(a), Verts(b)) && SameLengths(Idx(a), Idx(b)) && SameLengths(Strokes(a), Strokes(b))
    ensures SameLengths(Shadows(a), Shadows(b)) && SameLengths(Texts(a), Texts(b))
  {
    hide Flat;
  }

  predicate SameRanges(d: ObjectDraw, e: ObjectDraw) {
    && d.id == e.id && d.fillRange == e.fillRange && d.fillVertexRange == e.fillVertexRange
    && d.strokeRange == e.strokeRange && d.shadowRange == e.shadowRange && d.textRange == e.textRange
  }

  /** Equal counts before and at `i` put object `i` in the same ranges. */
  lemma RangesAgree(a: seq<Baked>, b: seq<Baked>, i: nat)
    requires |a| == |b| && i < |a| && a[i].id == b[i].id
    requires forall j :: 0 <= j <= i ==> SameCountsAt(a[j], b[j])
    ensures SameRanges(DrawAt(a, i), DrawAt(b, i))
  {
    hide Flat;
    SameStarts(Verts(a), Verts(b), i);
    SameStarts(Idx(a), Idx(b), i);
    SameStarts(Strokes(a), Strokes(b), i);
    SameStarts(Shadows(a), Shadows(b), i);
    SameStarts(Texts(a), Texts(b), i);
  }

  /** The size guard is exactly equality of the five counts. */
  lemma GuardIsSameCounts(a: seq<Baked>, b: seq<Baked>, i: nat, d: ObjectDraw)
    requires |a| == |b| && i < |a| && SameRanges(d, DrawAt(a, i))
    ensures FollowerPatchPlan(d, LocalGeometry(b[i])).Some? <==> SameCountsAt(a[i], b[i])
  {
    hide Flat;
  }

  // ---- The buffers part way through the patches -----------------------------

  function MixInstances(a: seq<PlanInstance>, b: seq<PlanInstance>, k: nat): (r: seq<PlanInstance>)
    requires k <= |a| == |b|
    ensures |r| == |a|
  {
    b[..k] + a[k..]
  }

  function FillOf(s: seq<PlanInstance>): seq<FillInstance> { seq(|s|, i requires 0 <= i < |s| => s[i].fill) }
  function StrokeOf(s: seq<PlanInstance>): seq<StrokeInstance> { seq(|s|, i requires 0 <= i < |s| => s[i].stroke) }
  function ShadowOf(s: seq<PlanInstance>): seq<ShadowInstance> { seq(|s|, i requires 0 <= i < |s| => s[i].shadow) }
  function TextOf(s: seq<PlanInstance>): seq<TextInstance> { seq(|s|, i requires 0 <= i < |s| => s[i].text) }

  /** The vertex and index buffers of `s` hold the first `k` objects of `b` and the rest of `a`. */
  predicate HoldsVertices(s: Stored, a: seq<Baked>, b: seq<Baked>, k: nat)
    requires |a| == |b| && k <= |a|
  {
    && s.fillVertices == Flat(Mixed(Verts(a), Verts(b), k)) && s.fillIndices == Flat(Mixed(Idx(a), Idx(b), k))
    && s.strokeVertices == Flat(Mixed(Strokes(a), Strokes(b), k))
       && s.shadowVertices == Flat(Mixed(Shadows(a), Shadows(b), k))
    && s.textVertices == Flat(Mixed(Texts(a), Texts(b), k))
  }

  /** All passes share one matrix. */
  predicate Uniform(i: PlanInstance) { i.fill.cols == i.stroke.cols == i.shadow.cols == i.text.cols }

  /** The instance buffers of `s` hold `m`. */
  predicate HoldsInstances(s: Stored, m: seq<PlanInstance>) {
    s.fillInstances == FillOf(m) && s.strokeInstances == StrokeOf(m) && s.shadowInstances == ShadowOf(m)
    && s.textInstances == TextOf(m)
  }

  predicate SameVertices(s: Stored, t: Stored) {
    && s.fillVertices == t.fillVertices && s.fillIndices == t.fillIndices
    && s.strokeVertices == t.strokeVertices && s.shadowVertices == t.shadowVertices && s.textVertices == t.textVertices
  }

  lemma ColumnsWrite(s: Stored, m: seq<PlanInstance>, k: nat, c: Columns)
    requires k < |m| && HoldsInstances(s, m)
    ensures SameVertices(WithColumns(s, k, c), s)
    ensures HoldsInstances(WithColumns(s, k, c), m[k := PlanInstance(m[k].fill.(cols := c), m[k].stroke.(cols := c),
              m[k].shadow.(cols := c), m[k].text.(cols := c))])
  {
  }

  lemma FillWrite(s: Stored, m: seq<PlanInstance>, k: nat, c: Color)
    requires k < |m| && HoldsInstances(s, m)
    ensures SameVertices(WithColor(s, k, Fill, c), s)
    ensures HoldsInstances(WithColor(s, k, Fill, c), m[k := m[k].(fill := m[k].fill.(fill := c))])
  {
    assert StrokeOf(m[k := m[k].(fill := m[k].fill.(fill := c))]) == StrokeOf(m);
    assert ShadowOf(m[k := m[k].(fill := m[k].fill.(fill := c))]) == ShadowOf(m);
    assert TextOf(m[k := m[k].(fill := m[k].fill.(fill := c))]) == TextOf(m);
  }

  lemma StrokeWrite(s: Stored, m: seq<PlanInstance>, k: nat, c: Color)
    requires k < |m| && HoldsInstances(s, m)
    ensures SameVertices(WithColor(s, k, Stroke, c), s)
    ensures HoldsInstances(WithColor(s, k, Stroke, c), m[k := m[k].(stroke := m[k].stroke.(stroke := c))])
  {
    assert FillOf(m[k := m[k].(stroke := m[k].stroke.(stroke := c))]) == FillOf(m);
    assert ShadowOf(m[k := m[k].(stroke := m[k].stroke.(stroke := c))]) == ShadowOf(m);
    assert TextOf(m[k := m[k].(stroke := m[k].stroke.(stroke := c))]) == TextOf(m);
  }

  lemma ShadowWrite(s: Stored, m: seq<PlanInstance>, k: nat, c: Color)
    requires k < |m| && HoldsInstances(s, m)
    ensures SameVertices(WithColor(s, k, Shadow, c), s)
    ensures HoldsInstances(WithColor(s, k, Shadow, c), m[k := m[k].(shadow := m[k].shadow.(shadow := c))])
  {
    assert FillOf(m[k := m[k].(shadow := m[k].shadow.(shadow := c))]) == FillOf(m);
    assert StrokeOf(m[k := m[k].(shadow := m[k].shadow.(shadow := c))]) == StrokeOf(m);
    assert TextOf(m[k := m[k].(shadow := m[k].shadow.(shadow := c))]) == TextOf(m);
  }

  /** Rewriting matrix and colours brings instance `k` up to date and touches nothing else. */
  lemma InstanceWrite(s: Stored, m: seq<PlanInstance>, k: nat, e: PlanEntry)
    requires k < |m| && HoldsInstances(s, m) && Uniform(e.instance)
    ensures SameVertices(WithInstance(s, k, e), s)
    ensures HoldsInstances(WithInstance(s, k, e), m[k := e.instance])
  {
    hide WithColumns, WithColor, HoldsInstances;
    var i, c := e.instance, e.instance.fill.cols;
    ColumnsWrite(s, m, k, c);
    var s1 := WithColumns(s, k, c);
    var m1 := m[k := PlanInstance(m[k].fill.(cols := c), m[k].stroke.(cols := c), m[k].shadow.(cols := c),
                                  m[k].text.(cols := c))];
    FillWrite(s1, m1, k, i.fill.fill);
    var s2, m2 := WithColor(s1, k, Fill, i.fill.fill), m1[k := m1[k].(fill := m1[k].fill.(fill := i.fill.fill))];
    StrokeWrite(s2, m2, k, i.stroke.stroke);
    var s3, m3 := WithColor(s2, k, Stroke, i.stroke.stroke),
                    m2[k := m2[k].(stroke := m2[k].stroke.(stroke := i.stroke.stroke))];
    ShadowWrite(s3, m3, k, i.shadow.shadow);
    assert m3[k := m3[k].(shadow := m3[k].shadow.(shadow := i.shadow.shadow))] == m[k := i];
  }

  lemma PatchedOne(s: Stored, draws: seq<ObjectDraw>, next: FramePlan, b: bool, p: PlanPatch)
    requires AllSliceable(next) && !p.RebuildPatch? && p.index < |next.entries|
    ensures PatchesOk(next, When(b, p))
    ensures PatchedAll(s, draws, next, When(b, p)) == if b then Patched(s, draws, next, p) else s
  {
    hide Patched, AllSliceable;
    assert [p][..0] == [];
  }

  lemma {:induction false} PatchedConcat(s: Stored, draws: seq<ObjectDraw>, next: FramePlan, ps: seq<PlanPatch>,
                                         qs: seq<PlanPatch>)
    requires AllSliceable(next) && PatchesOk(next, ps) && PatchesOk(next, qs)
    ensures PatchesOk(next, ps + qs)
    ensures PatchedAll(s, draws, next, ps + qs) == PatchedAll(PatchedAll(s, draws, next, ps), draws, next, qs)
  {
    hide Patched, AllSliceable;
    if qs == [] {
      assert ps + qs == ps;
    } else {
      var n := |qs| - 1;
      forall p | p in qs[..n] ensures p in qs {}
      PatchedConcat(s, draws, next, ps, qs[..n]);
      assert qs[n] in qs;
      assert (ps + qs)[..|ps + qs| - 1] == ps + qs[..n] && (ps + qs)[|ps + qs| - 1] == qs[n];
    }
  }

  /** The patches of an entry whose revision did not change bring its instance up to date. */
  lemma UnchangedEntry(s: Stored, m: seq<PlanInstance>, draws: seq<ObjectDraw>, next: FramePlan, k: nat, o: PlanEntry,
                       n: PlanEntry)
    requires AllSliceable(next) && k < |next.entries| && k < |m| && HoldsInstances(s, m)
    requires o.handle.revision == n.handle.revision && m[k] == o.instance && Uniform(o.instance) && Uniform(n.instance)
    ensures PatchesOk(next, DiffEntry(k, o, n))
    ensures var t := PatchedAll(s, draws, next, DiffEntry(k, o, n));
            SameVertices(t, s) && HoldsInstances(t, m[k := n.instance])
  {
    hide AllSliceable, HoldsInstances, PatchedAll, WithColumns, WithColor, PatchesOk, When;
    var id, i, j := n.handle.id, o.instance, n.instance;
    var p1, p2 := TransformUpdate(id, k, j.fill.cols), StyleUpdate(id, k, Fill, j.fill.fill);
    var p3, p4 := StyleUpdate(id, k, Stroke, j.stroke.stroke), StyleUpdate(id, k, Shadow, j.shadow.shadow);
    var b1, b2, b3, b4 := j.fill.cols != i.fill.cols, j.fill.fill != i.fill.fill, j.stroke.stroke != i.stroke.stroke,
                            j.shadow.shadow != i.shadow.shadow;

    PatchedOne(s, draws, next, b1, p1);
    var s1 := PatchedAll(s, draws, next, When(b1, p1));
    var c := j.fill.cols;
    var m1 := m[k := PlanInstance(i.fill.(cols := c), i.stroke.(cols := c), i.shadow.(cols := c), i.text.(cols := c))];
    ColumnsWrite(s, m, k, c);
    assert !b1 ==> m1 == m;

    PatchedOne(s1, draws, next, b2, p2);
    PatchedConcat(s, draws, next, When(b1, p1), When(b2, p2));
    var s2 := PatchedAll(s1, draws, next, When(b2, p2));
    var m2 := m1[k := m1[k].(fill := m1[k].fill.(fill := j.fill.fill))];
    FillWrite(s1, m1, k, j.fill.fill);
    assert !b2 ==> m2 == m1;

    PatchedOne(s2, draws, next, b3, p3);
    PatchedConcat(s, draws, next, When(b1, p1) + When(b2, p2), When(b3, p3));
    var s3 := PatchedAll(s2, draws, next, When(b3, p3));
    var m3 := m2[k := m2[k].(stroke := m2[k].stroke.(stroke := j.stroke.stroke))];
    StrokeWrite(s2, m2, k, j.stroke.stroke);
    assert !b3 ==> m3 == m2;

    PatchedOne(s3, draws, next, b4, p4);
    PatchedConcat(s, draws, next, When(b1, p1) + When(b2, p2) + When(b3, p3), When(b4, p4));
    var m4 := m3[k := m3[k].(shadow := m3[k].shadow.(shadow := j.shadow.shadow))];
    ShadowWrite(s3, m3, k, j.shadow.shadow);
    assert !b4 ==> m4 == m3;
    assert m4 == m[k := j];
  }

  // ---- One entry ------------------------------------------------------------

  /** Equal revision, equal slices: nothing to write. */
  lemma UnchangedVertices(s: Stored, a: seq<Baked>, b: seq<Baked>, k: nat)
    requires SameCounts(a, b) && k < |a| && a[k].slices == b[k].slices && HoldsVertices(s, a, b, k)
    ensures HoldsVertices(s, a, b, k + 1)
  {
    CountsOfParts(a, b);
    SameStarts(Verts(a), Verts(b), k);
    MixStep(Verts(a), Verts(b), k);
    MixStep(Idx(a), Idx(b), k);
    MixStep(Strokes(a), Strokes(b), k);
    MixStep(Shadows(a), Shadows(b), k);
    MixStep(Texts(a), Texts(b), k);
  }

  /** A mesh without vertices has no indices. */
  predicate MeshOk(o: Baked) { o.slices.mesh.vertices == [] ==> o.slices.mesh.indices == [] }

  lemma IdxRebased(a: seq<Baked>, b: seq<Baked>, k: nat)
    requires SameCounts(a, b) && k < |a|
    ensures Idx(b)[k] == Rebase(b[k].slices.mesh.indices, Start(Verts(a), k))
    ensures |Idx(b)| == |Idx(a)| == |a|
  {
    hide Flat, Rebase;
    SameStarts(Verts(a), Verts(b), k);
  }

  /** What the follower patch writes when the size guard passes. */
  lemma WrittenFields(s: Stored, draws: seq<ObjectDraw>, id: string, r: Reexpand, k: nat)
    requires k < |draws| && FindDraw(draws, id) == k && FollowerPatchPlan(draws[k], r).Some?
    ensures var t, d := WithGeometry(s, draws, id, r), draws[k];
            && t.fillVertices == (if r.fillVertices == [] then s.fillVertices
                                  else Splice(s.fillVertices, d.fillVertexRange.start, r.fillVertices))
            && t.fillIndices == (if r.fillVertices == [] then s.fillIndices
                                 else Splice(s.fillIndices, d.fillRange.start,
                                             Rebase(r.fillIndices, d.fillVertexRange.start)))
            && t.strokeVertices == (if r.strokeVertices == [] then s.strokeVertices
                                    else Splice(s.strokeVertices, d.strokeRange.start, r.strokeVertices))
            && t.shadowVertices == (if r.shadowVertices == [] then s.shadowVertices
                                    else Splice(s.shadowVertices, d.shadowRange.start, r.shadowVertices))
            && t.textVertices == (if r.textVertices == [] then s.textVertices
                                  else Splice(s.textVertices, d.textRange.start, r.textVertices))
            && t.fillInstances == s.fillInstances && t.strokeInstances == s.strokeInstances
            && t.shadowInstances == s.shadowInstances && t.textInstances == s.textInstances
  {
    hide FindDraw, Splice, Rebase;
  }

  /** An unknown id, or counts that do not fit, write nothing. */
  lemma NothingWritten(s: Stored, draws: seq<ObjectDraw>, id: string, r: Reexpand)
    ensures FindDraw(draws, id) == |draws| ==> WithGeometry(s, draws, id, r) == s
    ensures var k := FindDraw(draws, id);
            k < |draws| && FollowerPatchPlan(draws[k], r).None? ==> WithGeometry(s, draws, id, r) == s
  {
    hide FindDraw, Splice, Rebase, FollowerPatchPlan;
  }

  /** Where the five writes go. */
  lemma OffsetsAre(d: ObjectDraw, r: Reexpand)
    ensures FollowerPatchPlan(d, r).Some? ==>
              FollowerPatchPlan(d, r).value
                == PatchOffsets(d.fillVertexRange.start, d.fillRange.start, d.fillVertexRange.start,
                                d.strokeRange.start, d.shadowRange.start, d.textRange.start)
  {
  }

  lemma VertexWrites(s: Stored, a: seq<Baked>, b: seq<Baked>, k: nat)
    requires SameCounts(a, b) && k < |a| && HoldsVertices(s, a, b, k)
    ensures var v := b[k].slices.mesh.vertices;
            (if v == [] then s.fillVertices
             else Splice(s.fillVertices, RangeAt(Verts(a), k).start, v))
              == Flat(Mixed(Verts(a), Verts(b), k + 1))
    ensures var v := b[k].slices.stroke;
            (if v == [] then s.strokeVertices
             else Splice(s.strokeVertices, RangeAt(Strokes(a), k).start, v))
              == Flat(Mixed(Strokes(a), Strokes(b), k + 1))
    ensures var v := b[k].slices.shadow;
            (if v == [] then s.shadowVertices
             else Splice(s.shadowVertices, RangeAt(Shadows(a), k).start, v))
              == Flat(Mixed(Shadows(a), Shadows(b), k + 1))
    ensures var v := b[k].slices.text;
            (if v == [] then s.textVertices
             else Splice(s.textVertices, RangeAt(Texts(a), k).start, v))
              == Flat(Mixed(Texts(a), Texts(b), k + 1))
  {
    CountsOfParts(a, b);
    var r := b[k].slices;
    MixWrite(s.fillVertices, Verts(a), Verts(b), k, Start(Verts(a), k), r.mesh.vertices == []);
    MixWrite(s.strokeVertices, Strokes(a), Strokes(b), k, Start(Strokes(a), k), r.stroke == []);
    MixWrite(s.shadowVertices, Shadows(a), Shadows(b), k, Start(Shadows(a), k), r.shadow == []);
    MixWrite(s.textVertices, Texts(a), Texts(b), k, Start(Texts(a), k), r.text == []);
    hide Flat, Splice, Mixed, SameLengths;
  }

  lemma IndexWrite(s: Stored, a: seq<Baked>, b: seq<Baked>, k: nat)
    requires SameCounts(a, b) && k < |a| && MeshOk(b[k]) && HoldsVertices(s, a, b, k)
    ensures |Idx(a)| == |Verts(a)| == |a|
    ensures (if b[k].slices.mesh.vertices == [] then s.fillIndices
             else Splice(s.fillIndices, RangeAt(Idx(a), k).start,
                         Rebase(b[k].slices.mesh.indices, RangeAt(Verts(a), k).start)))
         == Flat(Mixed(Idx(a), Idx(b), k + 1))
  {
    CountsOfParts(a, b);
    IdxRebased(a, b, k);
    NoIndices(b, k);
    MixWrite(s.fillIndices, Idx(a), Idx(b), k, Start(Idx(a), k), b[k].slices.mesh.vertices == []);
    hide Flat, Rebase, Splice, Idx, Mixed, SameLengths;
  }

  /** The five guarded writes replace object `k` in every buffer. */
  lemma GeometryWrite(s: Stored, a: seq<Baked>, b: seq<Baked>, k: nat, draws: seq<ObjectDraw>, id: string)
    requires SameCounts(a, b) && k < |a| && MeshOk(b[k]) && HoldsVertices(s, a, b, k)
    requires k < |draws| && FindDraw(draws, id) == k && SameRanges(draws[k], DrawAt(a, k))
    ensures var t := WithGeometry(s, draws, id, LocalGeometry(b[k]));
            && HoldsVertices(t, a, b, k + 1)
            && t.fillInstances == s.fillInstances && t.strokeInstances == s.strokeInstances
            && t.shadowInstances == s.shadowInstances && t.textInstances == s.textInstances
  {
    hide Flat, Rebase, Splice, FindDraw, Idx, Verts, Strokes, Shadows, Texts, Mixed, RangeAt, WithGeometry,
      FollowerPatchPlan;
    GuardIsSameCounts(a, b, k, draws[k]);
    WrittenFields(s, draws, id, LocalGeometry(b[k]), k);
    VertexWrites(s, a, b, k);
    IndexWrite(s, a, b, k);
  }

  lemma NoIndices(b: seq<Baked>, k: nat)
    requires k < |b| && MeshOk(b[k])
    ensures |Idx(b)| == |b| && (b[k].slices.mesh.vertices == [] ==> Idx(b)[k] == [])
  {
  }

  // ---- The whole feed -------------------------------------------------------

  function InstancesOf(es: seq<PlanEntry>): seq<PlanInstance> { seq(|es|, i requires 0 <= i < |es| => es[i].instance) }

  predicate DistinctIds(a: seq<Baked>) { forall i, j :: 0 <= i < j < |a| ==> a[i].id != a[j].id }

  /** Entry and draw record `i` are those of object `o`, up to theme colours they agree on. */
  predicate EntryRetains(e: PlanEntry, d: ObjectDraw, at: ObjectDraw, o: Baked) {
    && e.handle == ResourceHandle(o.id, o.revision) && at.id == o.id
    && SameRanges(e.draw, at) && SameRanges(d, at) && e.draw.clipRef == o.clipRef
    && Uniform(e.instance)
    && d.fillInstance == e.instance.fill && d.strokeInstance == e.instance.stroke
       && d.shadowInstance == e.instance.shadow
  }

  /** The renderer holds scene `a`: geometry as built, instances as its plan mirrors them. */
  predicate Retains(st: RendererState, a: seq<Baked>) {
    && |st.plan.entries| == |st.draws| == |a| && DistinctIds(a)
    && st.plan.geometry.clipDraws == st.clipDraws == Build(a).clipDraws
    && (forall i :: 0 <= i < |a| ==> EntryRetains(st.plan.entries[i], st.draws[i], DrawAt(a, i), a[i]))
    && HoldsVertices(st.stored, a, a, 0) && HoldsInstances(st.stored, InstancesOf(st.plan.entries))
  }

  lemma MixedNone<T>(a: seq<seq<T>>, b: seq<seq<T>>)
    requires |a| == |b|
    ensures Mixed(a, b, 0) == a && Mixed(a, b, |a|) == b
  {
  }

  /** Vertex buffers with no part replaced, or all of them. */
  lemma VerticesAtEnds(s: Stored, a: seq<Baked>, b: seq<Baked>)
    requires |a| == |b|
    ensures HoldsVertices(s, a, b, 0) <==> HoldsVertices(s, a, a, 0)
    ensures HoldsVertices(s, a, b, |a|) <==> HoldsVertices(s, b, b, 0)
    ensures HoldsVertices(s, b, b, 0) <==> SameVertices(s, Upload(Build(b)))
  {
    PartCounts(a); PartCounts(b);
    BuildLaysOut(b);
    hide Flat, Verts, Idx, Strokes, Shadows, Texts, Mixed;
    MixedNone(Verts(a), Verts(b)); MixedNone(Verts(a), Verts(a)); MixedNone(Verts(b), Verts(b));
    MixedNone(Idx(a), Idx(b)); MixedNone(Idx(a), Idx(a)); MixedNone(Idx(b), Idx(b));
    MixedNone(Strokes(a), Strokes(b)); MixedNone(Strokes(a), Strokes(a)); MixedNone(Strokes(b), Strokes(b));
    MixedNone(Shadows(a), Shadows(b)); MixedNone(Shadows(a), Shadows(a)); MixedNone(Shadows(b), Shadows(b));
    MixedNone(Texts(a), Texts(b)); MixedNone(Texts(a), Texts(a)); MixedNone(Texts(b), Texts(b));
  }

  /** The uploaded instances are those of the plan. */
  lemma UploadHoldsInstances(b: seq<Baked>)
    ensures HoldsInstances(Upload(Build(b)), InstancesOf(PlanOf(b).entries))
  {
    hide Build, DrawAt;
    BuildLaysOut(b);
    forall i | 0 <= i < |b|
      ensures Build(b).fillInstances[i] == InstanceOf(b[i]).fill
      ensures Build(b).strokeInstances[i] == InstanceOf(b[i]).stroke
      ensures Build(b).shadowInstances[i] == InstanceOf(b[i]).shadow
      ensures Build(b).textInstances[i] == InstanceOf(b[i]).text
    {
      BuildInstances(b, i);
    }
  }

  lemma InstancesDetermine(s: Stored, t: Stored, m: seq<PlanInstance>)
    requires HoldsInstances(s, m) && HoldsInstances(t, m) && SameVertices(s, t)
    ensures s == t
  {
  }

  /** A fresh build holds its scene. */
  lemma RebuiltRetains(b: seq<Baked>, dark: bool)
    requires DistinctIds(b)
    ensures Retains(Rebuilt(b, dark), b)
  {
    VerticesAtEnds(Upload(Build(b)), b, b);
    UploadHoldsInstances(b);
    BuildLaysOut(b);
    PlanParts(b);
    hide HoldsVertices, HoldsInstances, PlanOf, Build, DrawAt, EntryRetains, Upload;
    SameAsItself(Upload(Build(b)));
    forall i | 0 <= i < |b|
      ensures EntryRetains(PlanOf(b).entries[i], Build(b).draws[i], DrawAt(b, i), b[i])
    {
      BuiltEntry(b, i);
    }
  }

  lemma SameAsItself(s: Stored)
    ensures SameVertices(s, s)
  {
  }

  lemma BuiltEntry(b: seq<Baked>, i: nat)
    requires i < |b|
    ensures |PlanOf(b).entries| == |Build(b).draws| == |b|
    ensures EntryRetains(PlanOf(b).entries[i], Build(b).draws[i], DrawAt(b, i), b[i])
  {
    PlanParts(b);
    hide Build, RangeAt;
    BuildDraws(b, i);
  }

  /** Scene `b` can follow scene `a`: same objects in the same order, equal counts, and an equal
      revision means equal geometry. */
  predicate Follows(a: seq<Baked>, b: seq<Baked>) {
    && SameCounts(a, b) && DistinctIds(a) && DistinctIds(b)
    && (forall i :: 0 <= i < |a| ==> a[i].id == b[i].id)
    && Faithful(a, b)
    && (forall i :: 0 <= i < |b| ==> MeshOk(b[i]))
  }

  /** The revision is a faithful fingerprint of an object's own geometry. */
  predicate Faithful(a: seq<Baked>, b: seq<Baked>) {
    forall i ::
      0 <= i < |a| && i < |b| && a[i].id == b[i].id && a[i].revision == b[i].revision ==> a[i].slices == b[i].slices
  }

  lemma {:induction false} FindDistinct(a: seq<Baked>, draws: seq<ObjectDraw>, k: nat)
    requires DistinctIds(a) && |draws| == |a| && k < |a| && forall i :: 0 <= i < |a| ==> draws[i].id == a[i].id
    ensures FindDraw(draws, a[k].id) == k
  {
    var f := FindDraw(draws, a[k].id);
    assert draws[k].id == a[k].id;
  }

  lemma InstancesKeep(s: Stored, t: Stored, m: seq<PlanInstance>)
    requires HoldsInstances(s, m)
    requires t.fillInstances == s.fillInstances && t.strokeInstances == s.strokeInstances
    requires t.shadowInstances == s.shadowInstances && t.textInstances == s.textInstances
    ensures HoldsInstances(t, m)
  {
  }

  lemma VerticesKeep(s: Stored, t: Stored, a: seq<Baked>, b: seq<Baked>, k: nat)
    requires |a| == |b| && k <= |a| && HoldsVertices(s, a, b, k) && SameVertices(t, s)
    ensures HoldsVertices(t, a, b, k)
  {
  }

  lemma MixInstancesStep(ai: seq<PlanInstance>, bi: seq<PlanInstance>, k: nat)
    requires |ai| == |bi| && k < |ai|
    ensures MixInstances(ai, bi, k)[k] == ai[k]
    ensures MixInstances(ai, bi, k)[k := bi[k]] == MixInstances(ai, bi, k + 1)
  {
  }

  /** What the entries of a retained plan and of the next plan say about object `k`. */
  lemma EntryFacts(st: RendererState, a: seq<Baked>, b: seq<Baked>, k: nat)
    requires Retains(st, a) && Follows(a, b) && k < |a|
    ensures |st.plan.entries| == |st.draws| == |a| == |PlanOf(b).entries|
    ensures var o, n := st.plan.entries[k], PlanOf(b).entries[k];
            && o.handle == ResourceHandle(a[k].id, a[k].revision) && n.handle == ResourceHandle(b[k].id, b[k].revision)
            && Uniform(o.instance) && Uniform(n.instance) && a[k].id == b[k].id
    ensures FindDraw(st.draws, b[k].id) == k && SameRanges(st.draws[k], DrawAt(a, k))
  {
    hide HoldsVertices, HoldsInstances, Build, RangeAt, FindDraw;
    assert forall i :: 0 <= i < |a| ==> EntryRetains(st.plan.entries[i], st.draws[i], DrawAt(a, i), a[i]);
    FindDistinct(a, st.draws, k);
  }

  /** The buffers after the patches of the first `k` entries. */
  predicate MovedTo(st: RendererState, a: seq<Baked>, b: seq<Baked>, k: nat, s: Stored)
    requires k <= |a| == |b| == |st.plan.entries|
  {
    && HoldsVertices(s, a, b, k)
    && HoldsInstances(s, MixInstances(InstancesOf(st.plan.entries), InstancesOf(PlanOf(b).entries), k))
  }

  lemma ChangedEntry(s: Stored, m: seq<PlanInstance>, draws: seq<ObjectDraw>, a: seq<Baked>, b: seq<Baked>, k: nat,
                     o: PlanEntry, n: PlanEntry)
    requires AllSliceable(PlanOf(b)) && SameCounts(a, b) && k < |a| && k < |m| && MeshOk(b[k])
    requires HoldsVertices(s, a, b, k) && HoldsInstances(s, m) && Uniform(n.instance)
    requires n == PlanOf(b).entries[k] && o.handle.revision != n.handle.revision && k < |draws|
    requires FindDraw(draws, n.handle.id) == k && SameRanges(draws[k], DrawAt(a, k))
    ensures PatchesOk(PlanOf(b), DiffEntry(k, o, n))
    ensures var t := PatchedAll(s, draws, PlanOf(b), DiffEntry(k, o, n));
            HoldsVertices(t, a, b, k + 1) && HoldsInstances(t, m[k := n.instance])
  {
    ReexpandIsLocal(b, k);
    var next := PlanOf(b);
    hide AllSliceable, HoldsVertices, HoldsInstances, WithGeometry, WithInstance, GeometryReexpand, Sliceable, PlanOf,
      FindDraw, SameRanges, Uniform, PatchedAll;
    var p := GeometryUpdate(n.handle.id, k, n);
    assert DiffEntry(k, o, n) == When(true, p);
    PatchedOne(s, draws, next, true, p);
    var s1 := WithGeometry(s, draws, n.handle.id, LocalGeometry(b[k]));
    GeometryWrite(s, a, b, k, draws, n.handle.id);
    InstancesKeep(s, s1, m);
    InstanceWrite(s1, m, k, n);
    VerticesKeep(s1, WithInstance(s1, k, n), a, b, k + 1);
  }

  lemma InstanceAt(es: seq<PlanEntry>, k: nat)
    requires k < |es|
    ensures |InstancesOf(es)| == |es| && InstancesOf(es)[k] == es[k].instance
  {
  }

  lemma FollowsAt(a: seq<Baked>, b: seq<Baked>, k: nat)
    requires Follows(a, b) && k < |a|
    ensures SameCounts(a, b) && |a| == |b| && a[k].id == b[k].id && MeshOk(b[k])
    ensures a[k].revision == b[k].revision ==> a[k].slices == b[k].slices
  {
    hide DistinctIds;
  }

  /** The patches of entry `k` move the buffers from `k` objects of `b` to `k + 1`. */
  lemma EntryStep(st: RendererState, a: seq<Baked>, b: seq<Baked>, k: nat, s: Stored)
    requires Retains(st, a) && Follows(a, b) && k < |a| == |st.plan.entries| == |PlanOf(b).entries|
    requires MovedTo(st, a, b, k, s) && AllSliceable(PlanOf(b))
    ensures var ps := DiffEntry(k, st.plan.entries[k], PlanOf(b).entries[k]);
            PatchesOk(PlanOf(b), ps) && MovedTo(st, a, b, k + 1, PatchedAll(s, st.draws, PlanOf(b), ps))
  {
    hide *;
    EntryFacts(st, a, b, k);
    var next := PlanOf(b);
    var o, n := st.plan.entries[k], next.entries[k];
    var ai, bi := InstancesOf(st.plan.entries), InstancesOf(next.entries);
    InstanceAt(st.plan.entries, k);
    InstanceAt(next.entries, k);
    var m := MixInstances(ai, bi, k);
    MixInstancesStep(ai, bi, k);
    FollowsAt(a, b, k);
    MovedParts(st, a, b, k, s);
    if a[k].revision == b[k].revision {
      UnchangedEntry(s, m, st.draws, next, k, o, n);
      UnchangedVertices(s, a, b, k);
      VerticesKeep(s, PatchedAll(s, st.draws, next, DiffEntry(k, o, n)), a, b, k + 1);
    } else {
      ChangedEntry(s, m, st.draws, a, b, k, o, n);
    }
    MovedParts(st, a, b, k + 1, PatchedAll(s, st.draws, next, DiffEntry(k, o, n)));
  }

  lemma MovedParts(st: RendererState, a: seq<Baked>, b: seq<Baked>, k: nat, s: Stored)
    requires k <= |a| == |b| == |st.plan.entries|
    ensures MovedTo(st, a, b, k, s) <==>
              && HoldsVertices(s, a, b, k)
              && HoldsInstances(s, MixInstances(InstancesOf(st.plan.entries), InstancesOf(PlanOf(b).entries), k))
  {
    hide HoldsVertices, HoldsInstances;
  }

  lemma NothingMoved(st: RendererState, a: seq<Baked>, b: seq<Baked>)
    requires Retains(st, a) && |a| == |b|
    ensures MovedTo(st, a, b, 0, st.stored)
  {
    hide HoldsVertices, HoldsInstances, PlanOf, EntryRetains;
    VerticesAtEnds(st.stored, a, b);
    PlanParts(b);
    var ai, bi := InstancesOf(st.plan.entries), InstancesOf(PlanOf(b).entries);
    assert MixInstances(ai, bi, 0) == ai;
  }

  lemma {:induction false} AppliedUpTo(st: RendererState, a: seq<Baked>, b: seq<Baked>, k: nat)
    requires Retains(st, a) && Follows(a, b) && k <= |a|
    requires |st.plan.entries| == |PlanOf(b).entries| == |a| && AllSliceable(PlanOf(b))
    ensures var ps := DiffUpTo(st.plan.entries, PlanOf(b).entries, k);
            PatchesOk(PlanOf(b), ps) && MovedTo(st, a, b, k, PatchedAll(st.stored, st.draws, PlanOf(b), ps))
  {
    hide AllSliceable, MovedTo, Retains, Patched, PlanOf, DiffEntry, EntryRetains;
    if k == 0 {
      NothingMoved(st, a, b);
    } else {
      hide PatchesOk, PatchedAll;
      AppliedUpTo(st, a, b, k - 1);
      var ps := DiffUpTo(st.plan.entries, PlanOf(b).entries, k - 1);
      EntryStep(st, a, b, k - 1, PatchedAll(st.stored, st.draws, PlanOf(b), ps));
      PatchedConcat(st.stored, st.draws, PlanOf(b), ps,
                    DiffEntry(k - 1, st.plan.entries[k - 1], PlanOf(b).entries[k - 1]));
    }
  }
}
