/** The retained renderer: patches written in place over the merged buffers
    (crates/renderer-wgpu/src/object_pipeline.rs, `ObjectRenderer`). `queue.write_buffer` is a
    write into an array. */
module Renderer {
  import opened Sequences
  import opened Buffers
  import opened FramePlan

  /** Contents of the nine vertex, index and instance buffers. */
  datatype Stored = Stored(
    fillVertices: seq<FillVertex>, fillIndices: seq<nat>, fillInstances: seq<FillInstance>,
    strokeVertices: seq<StrokeVertex>, strokeInstances: seq<StrokeInstance>,
    shadowVertices: seq<ShadowVertex>, shadowInstances: seq<ShadowInstance>,
    textVertices: seq<TextVertex>, textInstances: seq<TextInstance>)

  /** What a freshly constructed renderer uploads. */
  function Upload(g: SceneGeometry): Stored {
    Stored(g.fill.vertices, g.fill.indices, g.fillInstances, g.strokeVertices, g.strokeInstances,
           g.shadowVertices, g.shadowInstances, g.textVertices, g.textInstances)
  }

  // ---- Instance writes ------------------------------------------------------

  /** The matrix region of instance `i`; the colour behind it survives. */
  function WithColumns(s: Stored, i: nat, c: Columns): Stored {
    s.(fillInstances := if i < |s.fillInstances| then s.fillInstances[i := s.fillInstances[i].(cols := c)]
                        else s.fillInstances,
       strokeInstances := if i < |s.strokeInstances| then s.strokeInstances[i := s.strokeInstances[i].(cols := c)]
                          else s.strokeInstances,
       textInstances := if i < |s.textInstances| then s.textInstances[i := s.textInstances[i].(cols := c)]
                        else s.textInstances,
       shadowInstances := if i < |s.shadowInstances| then s.shadowInstances[i := s.shadowInstances[i].(cols := c)]
                          else s.shadowInstances)
  }

  /** The colour slot of one pass; the matrix survives. */
  function WithColor(s: Stored, i: nat, slot: StyleSlot, c: Color): Stored {
    match slot
    case Fill => if i < |s.fillInstances| then s.(fillInstances := s.fillInstances[i := s.fillInstances[i].(fill := c)])
                 else s
    case Stroke => if i < |s.strokeInstances| then
                     s.(strokeInstances := s.strokeInstances[i := s.strokeInstances[i].(stroke := c)]) else s
    case Shadow => if i < |s.shadowInstances| then
                     s.(shadowInstances := s.shadowInstances[i := s.shadowInstances[i].(shadow := c)]) else s
  }

  // ---- Geometry writes ------------------------------------------------------

  /** One object's geometry cut out of a plan, with object-local indices. */
  datatype Reexpand = Reexpand(
    fillVertices: seq<FillVertex>, fillIndices: seq<nat>,
    strokeVertices: seq<StrokeVertex>, shadowVertices: seq<ShadowVertex>, textVertices: seq<TextVertex>)

  predicate InRange<T>(r: DrawRange, s: seq<T>) { r.start <= r.end <= |s| }

  /** The ranges of entry `i` lie in the plan's buffers and its indices in its vertex range. */
  predicate Sliceable(plan: FramePlan, i: nat) {
    i < |plan.entries| &&
    var g, d := plan.geometry, plan.entries[i].draw;
    && InRange(d.fillVertexRange, g.fill.vertices) && InRange(d.fillRange, g.fill.indices)
    && InRange(d.strokeRange, g.strokeVertices) && InRange(d.shadowRange, g.shadowVertices)
       && InRange(d.textRange, g.textVertices)
    && forall k :: d.fillRange.start <= k < d.fillRange.end ==> g.fill.indices[k] >= d.fillVertexRange.start
  }

  function Cut<T>(s: seq<T>, r: DrawRange): seq<T>
    requires InRange(r, s)
  {
    s[r.start..r.end]
  }

  function GeometryReexpand(plan: FramePlan, i: nat): Reexpand
    requires Sliceable(plan, i)
  {
    var g, d := plan.geometry, plan.entries[i].draw;
    var base := d.fillVertexRange.start;
    Reexpand(
      Cut(g.fill.vertices, d.fillVertexRange),
      seq(d.fillRange.end - d.fillRange.start, k requires 0 <= k < d.fillRange.end - d.fillRange.start =>
        g.fill.indices[d.fillRange.start + k] - base),
      Cut(g.strokeVertices, d.strokeRange), Cut(g.shadowVertices, d.shadowRange), Cut(g.textVertices, d.textRange))
  }

  datatype PatchOffsets = PatchOffsets(fillVertex: nat, fillIndex: nat, indexRebase: nat, stroke: nat, shadow: nat,
                                       text: nat)

  function Len(r: DrawRange): int { r.end - r.start }

  /** The size guard: `None` unless the new geometry exactly fills the retained ranges. */
  function FollowerPatchPlan(d: ObjectDraw, r: Reexpand): Option<PatchOffsets> {
    if |r.fillVertices| != Len(d.fillVertexRange) || |r.fillIndices| != Len(d.fillRange)
      || |r.strokeVertices| != Len(d.strokeRange) || |r.shadowVertices| != Len(d.shadowRange)
      || |r.textVertices| != Len(d.textRange)
    then None
    else Some(PatchOffsets(d.fillVertexRange.start, d.fillRange.start, d.fillVertexRange.start,
                           d.strokeRange.start, d.shadowRange.start, d.textRange.start))
  }

  /** First draw record with this id, or the number of records. */
  function FindDraw(draws: seq<ObjectDraw>, id: string): (i: nat)
    ensures i <= |draws| && (i < |draws| ==> draws[i].id == id)
    ensures forall k :: 0 <= k < i ==> draws[k].id != id
  {
    if draws == [] || draws[0].id == id then 0
    else
      var r := FindDraw(draws[1..], id);
      assert forall k :: 1 <= k < 1 + r ==> draws[k] == draws[1..][k - 1];
      1 + r
  }

  function WithGeometry(s: Stored, draws: seq<ObjectDraw>, id: string, r: Reexpand): Stored {
    var i := FindDraw(draws, id);
    if i == |draws| then s
    else
      match FollowerPatchPlan(draws[i], r)
      case None => s
      case Some(at) =>
        s.(fillVertices := if r.fillVertices == [] then s.fillVertices
                           else Splice(s.fillVertices, at.fillVertex, r.fillVertices),
           fillIndices := if r.fillVertices == [] then s.fillIndices
                          else Splice(s.fillIndices, at.fillIndex, Rebase(r.fillIndices, at.indexRebase)),
           strokeVertices := if r.strokeVertices == [] then s.strokeVertices
                             else Splice(s.strokeVertices, at.stroke, r.strokeVertices),
           shadowVertices := if r.shadowVertices == [] then s.shadowVertices
                             else Splice(s.shadowVertices, at.shadow, r.shadowVertices),
           textVertices := if r.textVertices == [] then s.textVertices
                           else Splice(s.textVertices, at.text, r.textVertices))
  }

  function WithInstance(s: Stored, i: nat, e: PlanEntry): Stored {
    WithColor(WithColor(WithColor(WithColumns(s, i, e.instance.fill.cols),
      i, Fill, e.instance.fill.fill), i, Stroke, e.instance.stroke.stroke), i, Shadow, e.instance.shadow.shadow)
  }

  predicate AllSliceable(plan: FramePlan) { forall i :: 0 <= i < |plan.entries| ==> Sliceable(plan, i) }

  function Patched(s: Stored, draws: seq<ObjectDraw>, next: FramePlan, p: PlanPatch): Stored
    requires AllSliceable(next) && !p.RebuildPatch? && p.index < |next.entries|
  {
    match p
    case TransformUpdate(_, i, c) => WithColumns(s, i, c)
    case StyleUpdate(_, i, slot, c) => WithColor(s, i, slot, c)
    case GeometryUpdate(_, i, e) => WithInstance(WithGeometry(s, draws, e.handle.id, GeometryReexpand(next, i)), i, e)
    case RebuildPatch => s
  }

  predicate PatchesOk(next: FramePlan, ps: seq<PlanPatch>) {
    forall p :: p in ps ==> !p.RebuildPatch? && p.index < |next.entries|
  }

  function PatchedAll(s: Stored, draws: seq<ObjectDraw>, next: FramePlan, ps: seq<PlanPatch>): Stored
    requires AllSliceable(next) && PatchesOk(next, ps)
  {
    if ps == [] then s
    else
      var n := |ps| - 1;
      assert forall p :: p in ps[..n] ==> p in ps;
      assert ps[n] in ps;
      Patched(PatchedAll(s, draws, next, ps[..n]), draws, next, ps[n])
  }

  /** Every geometry update fits the ranges of the retained plan. */
  predicate Fits(plan: FramePlan, next: FramePlan, p: PlanPatch)
    requires AllSliceable(next) && p.GeometryUpdate? && p.index < |next.entries| && p.index < |plan.entries|
  {
    FollowerPatchPlan(plan.entries[p.index].draw, GeometryReexpand(next, p.index)).Some?
  }

  // ---- The built plan is sliceable ------------------------------------------

  function LocalGeometry(o: Baked): Reexpand {
    Reexpand(o.slices.mesh.vertices, o.slices.mesh.indices, o.slices.stroke, o.slices.shadow, o.slices.text)
  }

  lemma RebasedSlice(objs: seq<Baked>, i: nat)
    requires i < |objs|
    ensures var r, mesh, flat := RangeAt(Idx(objs), i), objs[i].slices.mesh, Flat(Idx(objs));
            && InRange(r, flat) && r.end - r.start == |mesh.indices|
            && forall k :: 0 <= k < |mesh.indices| ==> flat[r.start + k] == mesh.indices[k] + Start(Verts(objs), i)
  {
    hide Flat, Verts;
    SliceOfFlat(Idx(objs), i);
    var r, part := RangeAt(Idx(objs), i), Idx(objs)[i];
    forall k | 0 <= k < |part| ensures Flat(Idx(objs))[r.start + k] == part[k] {
      assert Flat(Idx(objs))[r.start..r.start + |part|][k] == part[k];
    }
  }

  /** Cutting object `i` out of the merged build gives back its own geometry. */
  lemma ReexpandIsLocal(objs: seq<Baked>, i: nat)
    requires i < |objs|
    ensures Sliceable(PlanOf(objs), i)
    ensures GeometryReexpand(PlanOf(objs), i) == LocalGeometry(objs[i])
  {
    hide Flat, Build, Rebase;
    BuildLaysOut(objs);
    SliceOfFlat(Verts(objs), i);
    SliceOfFlat(Strokes(objs), i);
    SliceOfFlat(Shadows(objs), i);
    SliceOfFlat(Texts(objs), i);
    RebasedSlice(objs, i);
    var plan := PlanOf(objs);
    var d := plan.entries[i].draw;
    assert d == DrawAt(objs, i);
    forall k | d.fillRange.start <= k < d.fillRange.end
      ensures plan.geometry.fill.indices[k] >= d.fillVertexRange.start
    {
      assert Flat(Idx(objs))[d.fillRange.start + (k - d.fillRange.start)]
               == objs[i].slices.mesh.indices[k - d.fillRange.start] + Start(Verts(objs), i);
    }
    assert GeometryReexpand(plan, i).fillIndices == objs[i].slices.mesh.indices;
  }

  lemma PlanSliceable(objs: seq<Baked>)
    ensures AllSliceable(PlanOf(objs))
  {
    forall i | 0 <= i < |PlanOf(objs).entries| ensures Sliceable(PlanOf(objs), i) { ReexpandIsLocal(objs, i); }
  }

  // ---- Feeding a scene and toggling the theme, on values --------------------

  datatype RendererState = RendererState(
    stored: Stored, draws: seq<ObjectDraw>, clipDraws: seq<ClipDraw>, plan: FramePlan, dark: bool)

  /** A renderer constructed from scratch. */
  function Rebuilt(objs: seq<Baked>, dark: bool): RendererState {
    var plan := PlanOf(objs);
    RendererState(Upload(plan.geometry), plan.geometry.draws, plan.geometry.clipDraws, plan, dark)
  }

  lemma DiffOk(a: FramePlan, b: FramePlan)
    requires Diff(a, b).Patches?
    ensures |a.entries| == |b.entries| && PatchesOk(b, Diff(a, b).patches)
    ensures forall p :: p in Diff(a, b).patches ==> PatchOk(a.entries, b.entries, |b.entries|, p)
  {
    hide PatchOk;
    forall p | p in Diff(a, b).patches ensures PatchOk(a.entries, b.entries, |b.entries|, p) {
      PatchInRange(a.entries, b.entries, |a.entries|, p);
    }
    forall p | p in Diff(a, b).patches ensures !p.RebuildPatch? && p.index < |b.entries| {
      PatchOkParts(a.entries, b.entries, p);
    }
  }

  lemma PatchOkParts(a: seq<PlanEntry>, b: seq<PlanEntry>, p: PlanPatch)
    requires |a| == |b| && PatchOk(a, b, |b|, p)
    ensures !p.RebuildPatch? && p.index < |b|
  {
  }

  /** Every geometry update among `ps` fits. */
  predicate AllFit(plan: FramePlan, next: FramePlan, ps: seq<PlanPatch>)
    requires AllSliceable(next) && PatchesOk(next, ps) && |plan.entries| == |next.entries|
  {
    forall p :: p in ps && p.GeometryUpdate? ==> Fits(plan, next, p)
  }

  datatype FeedStats = FeedStats(patchCount: nat, needsRebuild: bool)

  function FeedStep(st: RendererState, objs: seq<Baked>): (RendererState, FeedStats) {
    var next := PlanOf(objs);
    PlanSliceable(objs);
    match Diff(st.plan, next)
    case Rebuild => (st, FeedStats(0, true))
    case Patches(ps) =>
      DiffOk(st.plan, next);
      if !AllFit(st.plan, next, ps) then (st, FeedStats(0, true))
      else
        (RendererState(PatchedAll(st.stored, st.draws, next, ps), next.geometry.draws, next.geometry.clipDraws, next,
                       st.dark),
         FeedStats(|ps|, false))
  }

  /** The theme's token table and its shadow colour. */
  datatype Palette = Palette(resolve: (string, bool) -> Option<Color>, shadow: bool -> Color)

  const WHITE: Color := Color(1.0, 1.0, 1.0, 1.0)

  /** What the token resolves to; one that does not is white. */
  function TokenColor(p: Palette, name: string, dark: bool): (c: Color)
    ensures p.resolve(name, dark) == Some(c) || (p.resolve(name, dark).None? && c == WHITE)
  {
    if p.resolve(name, dark).Some? then p.resolve(name, dark).value else WHITE
  }

  function ThemedDraw(p: Palette, dark: bool, d: ObjectDraw): ObjectDraw {
    d.(shadowInstance := if d.shadowRange.start == d.shadowRange.end then d.shadowInstance
                         else d.shadowInstance.(shadow := p.shadow(dark)),
       fillInstance := if d.fillToken.None? then d.fillInstance
                       else d.fillInstance.(fill := TokenColor(p, d.fillToken.value, dark)),
       strokeInstance := if d.strokeToken.None? then d.strokeInstance
                         else d.strokeInstance.(stroke := TokenColor(p, d.strokeToken.value, dark)))
  }

  /** The colour writes for draw `i`. */
  function ThemedStored(p: Palette, dark: bool, s: Stored, d: ObjectDraw, i: nat): Stored {
    var s1 := if d.shadowRange.start == d.shadowRange.end then s else WithColor(s, i, Shadow, p.shadow(dark));
    var s2 := if d.fillToken.None? then s1 else WithColor(s1, i, Fill, TokenColor(p, d.fillToken.value, dark));
    if d.strokeToken.None? then s2 else WithColor(s2, i, Stroke, TokenColor(p, d.strokeToken.value, dark))
  }

  function ThemedUpTo(p: Palette, dark: bool, s: Stored, draws: seq<ObjectDraw>, k: nat): Stored
    requires k <= |draws|
  {
    if k == 0 then s else ThemedStored(p, dark, ThemedUpTo(p, dark, s, draws, k - 1), draws[k - 1], k - 1)
  }

  /** The plan entry with its solid colours copied from the draw record. */
  function Mirrored(e: PlanEntry, d: ObjectDraw): PlanEntry {
    e.(instance := e.instance.(fill := d.fillInstance, stroke := d.strokeInstance, shadow := d.shadowInstance))
  }

  function SetThemeStep(p: Palette, st: RendererState, dark: bool): RendererState {
    if st.dark == dark then st
    else
      var draws := seq(|st.draws|, i requires 0 <= i < |st.draws| => ThemedDraw(p, dark, st.draws[i]));
      st.(dark := dark, draws := draws,
          stored := ThemedUpTo(p, dark, st.stored, st.draws, |st.draws|),
          plan := st.plan.(entries := seq(|st.plan.entries|, i requires 0 <= i < |st.plan.entries| =>
            if i < |draws| then Mirrored(st.plan.entries[i], draws[i]) else st.plan.entries[i])))
  }
}
