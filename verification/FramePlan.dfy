/** The merged scene build and the diffable frame plan over it
    (crates/renderer-core/src/object_pipeline.rs and crates/renderer-core/src/plan.rs). Meshes,
    ribbons, shadows, glyph quads, resolved colours and the revision hash of each object come in
    as values; what is modelled is where they go. */
module FramePlan {
  import opened Sequences
  import opened Buffers

  datatype Vec2 = Vec2(x: real, y: real)
  datatype Vec3 = Vec3(x: real, y: real, z: real)
  datatype Columns = Columns(m0: Vec3, m1: Vec3, m2: Vec3)
  datatype Color = Color(r: real, g: real, b: real, a: real)

  datatype FillVertex = FillVertex(position: Vec2, edge: real)
  datatype StrokeVertex = StrokeVertex(position: Vec2, width: real, distanceAlong: real)
  datatype ShadowVertex = ShadowVertex(position: Vec2, feather: real)
  datatype TextVertex = TextVertex(position: Vec2, uv: Vec2, color: Color, mode: real)

  datatype FillInstance = FillInstance(cols: Columns, fill: Color)
  datatype StrokeInstance = StrokeInstance(cols: Columns, stroke: Color)
  datatype ShadowInstance = ShadowInstance(cols: Columns, shadow: Color)
  datatype TextInstance = TextInstance(cols: Columns)

  /** A tessellated mesh; the silhouette flag of each vertex travels with it. */
  datatype Mesh = Mesh(vertices: seq<FillVertex>, indices: seq<nat>)

  /** Everything that is drawn from an object's own geometry. */
  datatype Slices = Slices(
    mesh: Mesh, stroke: seq<StrokeVertex>, shadow: seq<ShadowVertex>, text: seq<TextVertex>)

  /** One object of a scene as the per-object stages leave it. */
  datatype Baked = Baked(
    id: string, revision: nat, slices: Slices, cols: Columns,
    fill: Color, stroke: Color, shadow: Color,
    fillToken: Option<string>, strokeToken: Option<string>,
    clipMesh: Option<Mesh>, clipRef: nat)

  datatype DrawRange = DrawRange(start: nat, end: nat)

  datatype ObjectDraw = ObjectDraw(
    id: string,
    fillRange: DrawRange, fillVertexRange: DrawRange, fillInstance: FillInstance,
    shadowRange: DrawRange, shadowInstance: ShadowInstance,
    strokeRange: DrawRange, strokeInstance: StrokeInstance,
    textRange: DrawRange,
    clipRef: nat, fillToken: Option<string>, strokeToken: Option<string>)

  datatype ClipDraw = ClipDraw(clipRange: DrawRange, instance: nat, parentDepth: nat)

  // ---- Merging --------------------------------------------------------------

  datatype Merged = Merged(vertices: seq<FillVertex>, indices: seq<nat>)

  function Rebase(indices: seq<nat>, base: nat): seq<nat> {
    seq(|indices|, i requires 0 <= i < |indices| => indices[i] + base)
  }

  function Pushed(m: Merged, mesh: Mesh): Merged {
    Merged(m.vertices + mesh.vertices, m.indices + Rebase(mesh.indices, |m.vertices|))
  }

  class MegaBuffer {
    var vertices: seq<FillVertex>
    var indices: seq<nat>
    var ranges: seq<DrawRange>

    function State(): Merged
      reads this
    {
      Merged(vertices, indices)
    }

    constructor ()
      ensures State() == Merged([], []) && ranges == []
    {
      vertices, indices, ranges := [], [], [];
    }

    method Push(mesh: Mesh) returns (range: DrawRange)
      modifies this
      ensures State() == Pushed(old(State()), mesh)
      ensures range == DrawRange(|old(indices)|, |indices|) && ranges == old(ranges) + [range]
    {
      var base, start := |vertices|, |indices|;
      vertices := vertices + mesh.vertices;
      for k := 0 to |mesh.indices|
        invariant vertices == old(vertices) + mesh.vertices && ranges == old(ranges)
        invariant indices == old(indices) + Rebase(mesh.indices[..k], base)
      {
        indices := indices + [mesh.indices[k] + base];
        assert Rebase(mesh.indices[..k + 1], base) == Rebase(mesh.indices[..k], base) + [mesh.indices[k] + base];
      }
      assert mesh.indices[..|mesh.indices|] == mesh.indices;
      range := DrawRange(start, |indices|);
      ranges := ranges + [range];
    }
  }

  datatype SceneGeometry = SceneGeometry(
    fill: Merged, fillInstances: seq<FillInstance>,
    shadowVertices: seq<ShadowVertex>, shadowInstances: seq<ShadowInstance>,
    strokeVertices: seq<StrokeVertex>, strokeInstances: seq<StrokeInstance>,
    textVertices: seq<TextVertex>, textInstances: seq<TextInstance>,
    clip: Merged, clipDraws: seq<ClipDraw>, draws: seq<ObjectDraw>)

  const EMPTY: SceneGeometry :=
    SceneGeometry(Merged([], []), [], [], [], [], [], [], [], Merged([], []), [], [])

  /** The draw record of `o` appended to `g`. */
  function DrawFor(g: SceneGeometry, o: Baked): ObjectDraw {
    ObjectDraw(
      o.id,
      DrawRange(|g.fill.indices|, |g.fill.indices| + |o.slices.mesh.indices|),
      DrawRange(|g.fill.vertices|, |g.fill.vertices| + |o.slices.mesh.vertices|),
      FillInstance(o.cols, o.fill),
      DrawRange(|g.shadowVertices|, |g.shadowVertices| + |o.slices.shadow|),
      ShadowInstance(o.cols, o.shadow),
      DrawRange(|g.strokeVertices|, |g.strokeVertices| + |o.slices.stroke|),
      StrokeInstance(o.cols, o.stroke),
      DrawRange(|g.textVertices|, |g.textVertices| + |o.slices.text|),
      o.clipRef, o.fillToken, o.strokeToken)
  }

  function AddObject(g: SceneGeometry, o: Baked): SceneGeometry {
    SceneGeometry(
      Pushed(g.fill, o.slices.mesh), g.fillInstances + [FillInstance(o.cols, o.fill)],
      g.shadowVertices + o.slices.shadow, g.shadowInstances + [ShadowInstance(o.cols, o.shadow)],
      g.strokeVertices + o.slices.stroke, g.strokeInstances + [StrokeInstance(o.cols, o.stroke)],
      g.textVertices + o.slices.text, g.textInstances + [TextInstance(o.cols)],
      if o.clipMesh.Some? then Pushed(g.clip, o.clipMesh.value) else g.clip,
      if o.clipMesh.Some? then g.clipDraws + [ClipDraw(
        DrawRange(|g.clip.indices|, |g.clip.indices| + |o.clipMesh.value.indices|), |g.fillInstances|, o.clipRef)]
      else g.clipDraws,
      g.draws + [DrawFor(g, o)])
  }

  function Build(objs: seq<Baked>): SceneGeometry {
    if objs == [] then EMPTY else AddObject(Build(objs[..|objs| - 1]), objs[|objs| - 1])
  }

  lemma BuildNothing()
    ensures Build([]) == EMPTY
  {
  }

  lemma BuildSnoc(objs: seq<Baked>, i: nat)
    requires i < |objs|
    ensures Build(objs[..i + 1]) == AddObject(Build(objs[..i]), objs[i])
  {
    assert objs[..i + 1][..i] == objs[..i];
  }

  method BuildSceneGeometry(objs: seq<Baked>) returns (geometry: SceneGeometry)
    ensures geometry == Build(objs)
  {
    hide Build, Rebase;
    BuildNothing();
    assert objs[..0] == [];
    geometry := EMPTY;
    var fill := new MegaBuffer();
    var clip := new MegaBuffer();
    for i := 0 to |objs|
      invariant geometry.(fill := fill.State(), clip := clip.State()) == Build(objs[..i])
    {
      var o := objs[i];
      BuildSnoc(objs, i);
      RebaseLength(o.slices.mesh.indices, |fill.vertices|);
      if o.clipMesh.Some? { RebaseLength(o.clipMesh.value.indices, |clip.vertices|); }
      var fillVertexStart := |fill.vertices|;
      var fillRange := fill.Push(o.slices.mesh);
      var fillVertexRange := DrawRange(fillVertexStart, |fill.vertices|);
      var fillInstances := geometry.fillInstances + [FillInstance(o.cols, o.fill)];
      var clipDraws := geometry.clipDraws;
      if o.clipMesh.Some? {
        var clipRange := clip.Push(o.clipMesh.value);
        clipDraws := clipDraws + [ClipDraw(clipRange, |fillInstances| - 1, o.clipRef)];
      }
      var strokeVertices := geometry.strokeVertices + o.slices.stroke;
      var shadowVertices := geometry.shadowVertices + o.slices.shadow;
      var textVertices := geometry.textVertices + o.slices.text;
      var draw := ObjectDraw(
        o.id, fillRange, fillVertexRange, FillInstance(o.cols, o.fill),
        DrawRange(|geometry.shadowVertices|, |shadowVertices|), ShadowInstance(o.cols, o.shadow),
        DrawRange(|geometry.strokeVertices|, |strokeVertices|), StrokeInstance(o.cols, o.stroke),
        DrawRange(|geometry.textVertices|, |textVertices|),
        o.clipRef, o.fillToken, o.strokeToken);
      geometry := SceneGeometry(
        Merged([], []), fillInstances,
        shadowVertices, geometry.shadowInstances + [ShadowInstance(o.cols, o.shadow)],
        strokeVertices, geometry.strokeInstances + [StrokeInstance(o.cols, o.stroke)],
        textVertices, geometry.textInstances + [TextInstance(o.cols)],
        Merged([], []), clipDraws, geometry.draws + [draw]);
    }
    assert objs[..|objs|] == objs;
    geometry := geometry.(fill := fill.State(), clip := clip.State());
  }

  // ---- What the build lays out ----------------------------------------------

  function Verts(objs: seq<Baked>): seq<seq<FillVertex>> {
    seq(|objs|, i requires 0 <= i < |objs| => objs[i].slices.mesh.vertices)
  }

  /** Each object's indices, moved to where its vertices start. */
  function Idx(objs: seq<Baked>): seq<seq<nat>> {
    seq(|objs|, i requires 0 <= i < |objs| => Rebase(objs[i].slices.mesh.indices, Start(Verts(objs), i)))
  }

  function Strokes(objs: seq<Baked>): seq<seq<StrokeVertex>> {
    seq(|objs|, i requires 0 <= i < |objs| => objs[i].slices.stroke)
  }

  function Shadows(objs: seq<Baked>): seq<seq<ShadowVertex>> {
    seq(|objs|, i requires 0 <= i < |objs| => objs[i].slices.shadow)
  }

  function Texts(objs: seq<Baked>): seq<seq<TextVertex>> {
    seq(|objs|, i requires 0 <= i < |objs| => objs[i].slices.text)
  }

  lemma PartsSnoc(objs: seq<Baked>, o: Baked)
    ensures Verts(objs + [o]) == Verts(objs) + [o.slices.mesh.vertices]
    ensures Idx(objs + [o]) == Idx(objs) + [Rebase(o.slices.mesh.indices, |Flat(Verts(objs))|)]
    ensures Strokes(objs + [o]) == Strokes(objs) + [o.slices.stroke]
    ensures Shadows(objs + [o]) == Shadows(objs) + [o.slices.shadow]
    ensures Texts(objs + [o]) == Texts(objs) + [o.slices.text]
  {
    hide Flat, Rebase;
    var all, v := objs + [o], Verts(objs);
    assert Verts(all) == v + [o.slices.mesh.vertices];
    forall i | 0 <= i <= |objs| ensures Verts(all)[..i] == v[..i] {}
    assert v[..|objs|] == v;
  }

  function RangeAt<T>(parts: seq<seq<T>>, i: nat): DrawRange
    requires i < |parts|
  {
    DrawRange(Start(parts, i), Start(parts, i) + |parts[i]|)
  }

  /** The buffers hold the parts end to end. */
  lemma {:induction false} BuildLaysOut(objs: seq<Baked>)
    ensures var g := Build(objs);
            && g.fill == Merged(Flat(Verts(objs)), Flat(Idx(objs)))
            && g.strokeVertices == Flat(Strokes(objs)) && g.shadowVertices == Flat(Shadows(objs))
            && g.textVertices == Flat(Texts(objs))
            && |g.draws| == |g.fillInstances| == |g.strokeInstances| == |g.shadowInstances| == |g.textInstances|
                 == |objs|
  {
    hide Rebase, Verts, Idx, Strokes, Shadows, Texts, Flat, DrawFor;
    if objs == [] {
      NoParts();
    } else {
      var front, o := objs[..|objs| - 1], objs[|objs| - 1];
      assert objs == front + [o];
      BuildLaysOut(front);
      PartsSnoc(front, o);
      FlatSnoc(Verts(front), o.slices.mesh.vertices);
      FlatSnoc(Idx(front), Rebase(o.slices.mesh.indices, |Flat(Verts(front))|));
      FlatSnoc(Strokes(front), o.slices.stroke);
      FlatSnoc(Shadows(front), o.slices.shadow);
      FlatSnoc(Texts(front), o.slices.text);
    }
  }

  lemma NoParts()
    ensures Verts([]) == [] && Idx([]) == [] && Strokes([]) == [] && Shadows([]) == [] && Texts([]) == []
    ensures Flat<FillVertex>([]) == [] && Flat<nat>([]) == [] && Flat<StrokeVertex>([]) == []
    ensures Flat<ShadowVertex>([]) == [] && Flat<TextVertex>([]) == []
  {
  }

  /** The draw record of object `i`, from its own data and the prefix sums before it. */
  function DrawAt(objs: seq<Baked>, i: nat): ObjectDraw
    requires i < |objs|
  {
    var o := objs[i];
    ObjectDraw(
      o.id, RangeAt(Idx(objs), i), RangeAt(Verts(objs), i), FillInstance(o.cols, o.fill),
      RangeAt(Shadows(objs), i), ShadowInstance(o.cols, o.shadow),
      RangeAt(Strokes(objs), i), StrokeInstance(o.cols, o.stroke),
      RangeAt(Texts(objs), i), o.clipRef, o.fillToken, o.strokeToken)
  }

  lemma RangeOfPrefix<T>(parts: seq<seq<T>>, p: seq<T>, i: nat)
    requires i <= |parts|
    ensures i < |parts| ==> RangeAt(parts + [p], i) == RangeAt(parts, i)
    ensures RangeAt(parts + [p], |parts|) == DrawRange(|Flat(parts)|, |Flat(parts)| + |p|)
  {
    hide Flat;
    var all := parts + [p];
    assert all[..i] == parts[..i] && all[..|parts|] == parts;
  }

  /** Every draw record points at its own object's parts. */
  lemma {:induction false} BuildDraws(objs: seq<Baked>, i: nat)
    requires i < |objs|
    ensures |Build(objs).draws| == |objs| && Build(objs).draws[i] == DrawAt(objs, i)
  {
    hide Rebase, Flat, Verts, Idx, Strokes, Shadows, Texts;
    var front, o := objs[..|objs| - 1], objs[|objs| - 1];
    assert objs == front + [o];
    BuildLaysOut(front);
    PartsSnoc(front, o);
    PartCounts(front);
    RangeOfPrefix(Verts(front), o.slices.mesh.vertices, i);
    RangeOfPrefix(Idx(front), Rebase(o.slices.mesh.indices, |Flat(Verts(front))|), i);
    RangeOfPrefix(Strokes(front), o.slices.stroke, i);
    RangeOfPrefix(Shadows(front), o.slices.shadow, i);
    RangeOfPrefix(Texts(front), o.slices.text, i);
    if i < |front| { BuildDraws(front, i); } else { RebaseLength(o.slices.mesh.indices, |Flat(Verts(front))|); }
  }

  lemma RebaseLength(indices: seq<nat>, base: nat)
    ensures |Rebase(indices, base)| == |indices|
  {
  }

  lemma PartCounts(objs: seq<Baked>)
    ensures |Verts(objs)| == |Idx(objs)| == |Strokes(objs)| == |Shadows(objs)| == |Texts(objs)| == |objs|
  {
  }

  // ---- What the build lays out for clips ------------------------------------

  function ClipVerts(objs: seq<Baked>): seq<seq<FillVertex>> {
    seq(|objs|, i requires 0 <= i < |objs| => if objs[i].clipMesh.Some? then objs[i].clipMesh.value.vertices else [])
  }

  /** Each clip mesh's indices, moved to where its vertices start. */
  function ClipIdx(objs: seq<Baked>): seq<seq<nat>> {
    seq(|objs|, i requires 0 <= i < |objs| =>
      if objs[i].clipMesh.Some? then Rebase(objs[i].clipMesh.value.indices, Start(ClipVerts(objs), i)) else [])
  }

  /** The objects with a clip mesh, by index. */
  function Clippers(objs: seq<Baked>): seq<nat> {
    if objs == [] then []
    else
      var n := |objs| - 1;
      if objs[n].clipMesh.Some? then Clippers(objs[..n]) + [n] else Clippers(objs[..n])
  }

  /** Each of them once, in order. */
  lemma {:induction false} ClippersAre(objs: seq<Baked>)
    ensures forall i :: 0 <= i < |objs| ==> (i in Clippers(objs) <==> objs[i].clipMesh.Some?)
    ensures forall i :: i in Clippers(objs) ==> i < |objs|
    ensures forall j, k :: 0 <= j < k < |Clippers(objs)| ==> Clippers(objs)[j] < Clippers(objs)[k]
  {
    if objs != [] {
      var n := |objs| - 1;
      var cs := Clippers(objs[..n]);
      ClippersAre(objs[..n]);
      assert forall j :: 0 <= j < |cs| ==> cs[j] in cs;
      forall i | 0 <= i < |objs| ensures i in Clippers(objs) <==> objs[i].clipMesh.Some? {
        if i < n { assert objs[..n][i] == objs[i]; }
      }
    }
  }

  /** The clip draw of object `i`, from its own data and the prefix sums before it. */
  function ClipDrawAt(objs: seq<Baked>, i: nat): ClipDraw
    requires i < |objs|
  {
    ClipDraw(RangeAt(ClipIdx(objs), i), i, objs[i].clipRef)
  }

  lemma ClipPartsSnoc(objs: seq<Baked>, o: Baked)
    ensures ClipVerts(objs + [o]) == ClipVerts(objs) + [if o.clipMesh.Some? then o.clipMesh.value.vertices else []]
    ensures ClipIdx(objs + [o])
         == ClipIdx(objs)
            + [if o.clipMesh.Some? then Rebase(o.clipMesh.value.indices, |Flat(ClipVerts(objs))|) else []]
    ensures |ClipIdx(objs)| == |objs|
  {
    hide Flat, Rebase;
    var all, v := objs + [o], ClipVerts(objs);
    assert ClipVerts(all) == v + [if o.clipMesh.Some? then o.clipMesh.value.vertices else []];
    forall i | 0 <= i <= |objs| ensures ClipVerts(all)[..i] == v[..i] {}
    assert v[..|objs|] == v;
  }

  lemma ClippersSnoc(objs: seq<Baked>, o: Baked)
    ensures Clippers(objs + [o]) == if o.clipMesh.Some? then Clippers(objs) + [|objs|] else Clippers(objs)
  {
    assert (objs + [o])[..|objs|] == objs;
  }

  lemma ClipDrawKept(objs: seq<Baked>, o: Baked, i: nat)
    requires i < |objs|
    ensures ClipDrawAt(objs + [o], i) == ClipDrawAt(objs, i)
  {
    hide Flat, Rebase;
    ClipPartsSnoc(objs, o);
    hide ClipVerts, ClipIdx;
    RangeOfPrefix(ClipIdx(objs),
                  if o.clipMesh.Some? then Rebase(o.clipMesh.value.indices, |Flat(ClipVerts(objs))|) else [], i);
  }

  lemma NoClipParts()
    ensures ClipVerts([]) == [] && ClipIdx([]) == [] && Clippers([]) == []
    ensures Flat<FillVertex>([]) == [] && Flat<nat>([]) == []
  {
  }

  lemma AddedClip(g: SceneGeometry, o: Baked)
    ensures var more := AddObject(g, o);
            && more.clip == (if o.clipMesh.Some? then Pushed(g.clip, o.clipMesh.value) else g.clip)
            && more.clipDraws == g.clipDraws + if o.clipMesh.None? then [] else
                 [ClipDraw(DrawRange(|g.clip.indices|, |g.clip.indices| + |o.clipMesh.value.indices|),
                           |g.fillInstances|, o.clipRef)]
  {
    hide DrawFor, Pushed;
    assert g.clipDraws + [] == g.clipDraws;
  }

  lemma BuildFront(objs: seq<Baked>)
    requires objs != []
    ensures Build(objs) == AddObject(Build(objs[..|objs| - 1]), objs[|objs| - 1])
  {
  }

  /** The clip buffer holds the clip meshes end to end; the clip draws are those of the clippers, in order,
      each with its own object's index and depth and with the prefix-sum range of its mesh. */
  lemma {:induction false} BuildClips(objs: seq<Baked>)
    ensures var g := Build(objs);
            && g.clip == Merged(Flat(ClipVerts(objs)), Flat(ClipIdx(objs)))
            && |g.clipDraws| == |Clippers(objs)|
            && forall j :: 0 <= j < |Clippers(objs)| ==>
                 Clippers(objs)[j] < |objs| && g.clipDraws[j] == ClipDrawAt(objs, Clippers(objs)[j])
  {
    hide *;
    if objs == [] {
      NoClipParts();
      BuildNothing();
      EmptyClips();
    } else {
      var n := |objs| - 1;
      var front, o := objs[..n], objs[n];
      var g := Build(front);
      assert objs == front + [o];
      BuildClips(front);
      BuildLaysOut(front);
      BuildFront(objs);
      AddedClip(g, o);
      ClipPartsSnoc(front, o);
      ClippersSnoc(front, o);
      FlatSnoc(ClipVerts(front), if o.clipMesh.Some? then o.clipMesh.value.vertices else []);
      FlatSnoc(ClipIdx(front),
               if o.clipMesh.Some? then Rebase(o.clipMesh.value.indices, |Flat(ClipVerts(front))|) else []);
      forall j | 0 <= j < |Clippers(front)|
        ensures ClipDrawAt(objs, Clippers(front)[j]) == ClipDrawAt(front, Clippers(front)[j])
      {
        ClipDrawKept(front, o, Clippers(front)[j]);
      }
      if o.clipMesh.Some? {
        PushedIs(g.clip, o.clipMesh.value);
        RebaseLength(o.clipMesh.value.indices, |Flat(ClipVerts(front))|);
        NewClipDraw(front, o);
      }
    }
  }

  lemma EmptyClips()
    ensures EMPTY.clip == Merged([], []) && EMPTY.clipDraws == []
  {
  }

  lemma PushedIs(m: Merged, mesh: Mesh)
    ensures Pushed(m, mesh) == Merged(m.vertices + mesh.vertices, m.indices + Rebase(mesh.indices, |m.vertices|))
  {
    hide Rebase;
  }

  lemma NewClipDraw(front: seq<Baked>, o: Baked)
    requires o.clipMesh.Some?
    ensures ClipDrawAt(front + [o], |front|)
         == ClipDraw(DrawRange(|Flat(ClipIdx(front))|, |Flat(ClipIdx(front))| + |o.clipMesh.value.indices|),
                     |front|, o.clipRef)
  {
    hide Flat, Rebase;
    ClipPartsSnoc(front, o);
    hide ClipVerts, ClipIdx;
    var part := Rebase(o.clipMesh.value.indices, |Flat(ClipVerts(front))|);
    RangeOfPrefix(ClipIdx(front), part, |front|);
    RebaseLength(o.clipMesh.value.indices, |Flat(ClipVerts(front))|);
  }

  lemma {:induction false} BuildInstances(objs: seq<Baked>, i: nat)
    requires i < |objs|
    ensures var g, o := Build(objs), objs[i];
            && |g.fillInstances| == |g.strokeInstances| == |g.shadowInstances| == |g.textInstances| == |objs|
            && g.fillInstances[i] == FillInstance(o.cols, o.fill)
            && g.strokeInstances[i] == StrokeInstance(o.cols, o.stroke)
            && g.shadowInstances[i] == ShadowInstance(o.cols, o.shadow)
            && g.textInstances[i] == TextInstance(o.cols)
  {
    hide Rebase, Flat, Verts, Idx, Strokes, Shadows, Texts, DrawFor;
    var front := objs[..|objs| - 1];
    BuildLaysOut(objs);
    BuildLaysOut(front);
    if i < |front| { BuildInstances(front, i); }
  }

  // ---- The plan -------------------------------------------------------------

  datatype ResourceHandle = ResourceHandle(id: string, revision: nat)

  datatype PlanInstance = PlanInstance(
    fill: FillInstance, stroke: StrokeInstance, shadow: ShadowInstance, text: TextInstance)

  datatype PlanEntry = PlanEntry(handle: ResourceHandle, instance: PlanInstance, draw: ObjectDraw)

  datatype FramePlan = FramePlan(entries: seq<PlanEntry>, geometry: SceneGeometry)

  function InstanceOf(o: Baked): PlanInstance {
    PlanInstance(FillInstance(o.cols, o.fill), StrokeInstance(o.cols, o.stroke),
                 ShadowInstance(o.cols, o.shadow), TextInstance(o.cols))
  }

  /** The plan of a scene: each object's handle, instance and ranges, over the merged build. */
  function PlanOf(objs: seq<Baked>): FramePlan {
    FramePlan(seq(|objs|, i requires 0 <= i < |objs| =>
                PlanEntry(ResourceHandle(objs[i].id, objs[i].revision), InstanceOf(objs[i]), DrawAt(objs, i))),
              Build(objs))
  }

  /** Reading entry `i` out of the finished build gives the entry of object `i`. */
  lemma EntryFromBuild(objs: seq<Baked>, i: nat)
    requires i < |objs|
    ensures var g := Build(objs);
            && |g.draws| == |g.fillInstances| == |g.strokeInstances| == |g.shadowInstances| == |g.textInstances|
                 == |objs|
            && PlanEntry(ResourceHandle(g.draws[i].id, objs[i].revision),
                 PlanInstance(g.fillInstances[i], g.strokeInstances[i], g.shadowInstances[i], g.textInstances[i]),
                 g.draws[i]) == PlanOf(objs).entries[i]
  {
    hide Build, DrawAt;
    BuildDraws(objs, i);
    BuildInstances(objs, i);
    DrawId(objs, i);
  }

  lemma PlanParts(objs: seq<Baked>)
    ensures |PlanOf(objs).entries| == |objs| == |Build(objs).draws|
    ensures PlanOf(objs).geometry == Build(objs)
  {
    BuildLaysOut(objs);
  }

  method BuildFramePlan(objs: seq<Baked>) returns (plan: FramePlan)
    ensures plan == PlanOf(objs)
  {
    hide Build, PlanOf;
    var geometry := BuildSceneGeometry(objs);
    PlanParts(objs);
    var entries := [];
    for i := 0 to |geometry.draws|
      invariant |entries| == i && forall k :: 0 <= k < i ==> entries[k] == PlanOf(objs).entries[k]
    {
      var draw := geometry.draws[i];
      EntryFromBuild(objs, i);
      entries := entries + [PlanEntry(
        ResourceHandle(draw.id, objs[i].revision),
        PlanInstance(geometry.fillInstances[i], geometry.strokeInstances[i], geometry.shadowInstances[i],
                     geometry.textInstances[i]),
        draw)];
    }
    plan := FramePlan(entries, geometry);
  }

  lemma DrawId(objs: seq<Baked>, i: nat)
    requires i < |objs|
    ensures DrawAt(objs, i).id == objs[i].id
  {
  }

  // ---- The diff -------------------------------------------------------------

  datatype StyleSlot = Fill | Stroke | Shadow

  datatype PlanPatch =
    | TransformUpdate(id: string, index: nat, columns: Columns)
    | StyleUpdate(id: string, index: nat, slot: StyleSlot, color: Color)
    | GeometryUpdate(id: string, index: nat, entry: PlanEntry)
    | RebuildPatch

  datatype PlanDiff = Patches(patches: seq<PlanPatch>) | Rebuild

  function When(b: bool, p: PlanPatch): seq<PlanPatch> { if b then [p] else [] }

  function DiffEntry(index: nat, o: PlanEntry, n: PlanEntry): seq<PlanPatch> {
    var id := n.handle.id;
    if o.handle.revision != n.handle.revision then [GeometryUpdate(id, index, n)]
    else
      When(n.instance.fill.cols != o.instance.fill.cols, TransformUpdate(id, index, n.instance.fill.cols))
      + When(n.instance.fill.fill != o.instance.fill.fill, StyleUpdate(id, index, Fill, n.instance.fill.fill))
      + When(n.instance.stroke.stroke != o.instance.stroke.stroke,
             StyleUpdate(id, index, Stroke, n.instance.stroke.stroke))
      + When(n.instance.shadow.shadow != o.instance.shadow.shadow,
             StyleUpdate(id, index, Shadow, n.instance.shadow.shadow))
  }

  /** The patches of the first `k` entries, in entry order. */
  function DiffUpTo(a: seq<PlanEntry>, b: seq<PlanEntry>, k: nat): seq<PlanPatch>
    requires k <= |a| == |b|
  {
    if k == 0 then [] else DiffUpTo(a, b, k - 1) + DiffEntry(k - 1, a[k - 1], b[k - 1])
  }

  predicate SameObjects(a: FramePlan, b: FramePlan) {
    |a.entries| == |b.entries| && forall i :: 0 <= i < |a.entries| ==> a.entries[i].handle.id == b.entries[i].handle.id
  }

  predicate SameClips(a: FramePlan, b: FramePlan)
    requires |a.entries| == |b.entries|
  {
    && a.geometry.clipDraws == b.geometry.clipDraws
    && forall i :: 0 <= i < |a.entries| ==> a.entries[i].draw.clipRef == b.entries[i].draw.clipRef
  }

  function Diff(a: FramePlan, b: FramePlan): PlanDiff {
    if SameObjects(a, b) && SameClips(a, b) then Patches(DiffUpTo(a.entries, b.entries, |a.entries|)) else Rebuild
  }

  method AppendEntry(index: nat, o: PlanEntry, n: PlanEntry, patches: seq<PlanPatch>) returns (r: seq<PlanPatch>)
    ensures r == patches + DiffEntry(index, o, n)
  {
    var id := n.handle.id;
    if o.handle.revision != n.handle.revision {
      return patches + [GeometryUpdate(id, index, n)];
    }
    r := patches;
    if n.instance.fill.cols != o.instance.fill.cols {
      r := r + [TransformUpdate(id, index, n.instance.fill.cols)];
    }
    if n.instance.fill.fill != o.instance.fill.fill {
      r := r + [StyleUpdate(id, index, Fill, n.instance.fill.fill)];
    }
    if n.instance.stroke.stroke != o.instance.stroke.stroke {
      r := r + [StyleUpdate(id, index, Stroke, n.instance.stroke.stroke)];
    }
    if n.instance.shadow.shadow != o.instance.shadow.shadow {
      r := r + [StyleUpdate(id, index, Shadow, n.instance.shadow.shadow)];
    }
  }

  method DiffPlans(a: FramePlan, b: FramePlan) returns (diff: PlanDiff)
    ensures diff == Diff(a, b)
  {
    hide DiffEntry;
    if |a.entries| != |b.entries| {
      return Rebuild;
    }
    if exists i :: 0 <= i < |a.entries| && a.entries[i].handle.id != b.entries[i].handle.id {
      return Rebuild;
    }
    if a.geometry.clipDraws != b.geometry.clipDraws
      || exists i :: 0 <= i < |a.entries| && a.entries[i].draw.clipRef != b.entries[i].draw.clipRef
    {
      return Rebuild;
    }
    var patches := [];
    for index := 0 to |a.entries|
      invariant patches == DiffUpTo(a.entries, b.entries, index)
    {
      patches := AppendEntry(index, a.entries[index], b.entries[index], patches);
    }
    diff := Patches(patches);
  }

  /** A patch names an entry in range, is never a rebuild, and re-sends a mesh only for a changed
      revision. */
  predicate PatchOk(a: seq<PlanEntry>, b: seq<PlanEntry>, k: nat, p: PlanPatch)
    requires k <= |a| == |b|
  {
    && !p.RebuildPatch? && p.index < k && p.id == b[p.index].handle.id
    && (p.GeometryUpdate? <==> a[p.index].handle.revision != b[p.index].handle.revision)
    && (p.GeometryUpdate? ==> p.entry == b[p.index])
  }

  lemma EntryPatch(a: seq<PlanEntry>, b: seq<PlanEntry>, k: nat, p: PlanPatch)
    requires k < |a| == |b| && p in DiffEntry(k, a[k], b[k])
    ensures PatchOk(a, b, k + 1, p) && p.index == k
  {
    EntryPatchNames(k, a[k], b[k], p);
    hide DiffEntry;
  }

  /** Each patch of an entry names it, and re-sends a mesh only for a changed revision. */
  lemma EntryPatchNames(k: nat, o: PlanEntry, n: PlanEntry, p: PlanPatch)
    requires p in DiffEntry(k, o, n)
    ensures !p.RebuildPatch? && p.index == k && p.id == n.handle.id
    ensures p.GeometryUpdate? <==> o.handle.revision != n.handle.revision
    ensures p.GeometryUpdate? ==> p.entry == n
  {
  }

  lemma {:induction false} PatchInRange(a: seq<PlanEntry>, b: seq<PlanEntry>, k: nat, p: PlanPatch)
    requires k <= |a| == |b| && p in DiffUpTo(a, b, k)
    ensures PatchOk(a, b, k, p)
  {
    hide DiffEntry;
    if p in DiffUpTo(a, b, k - 1) { PatchInRange(a, b, k - 1, p); } else { EntryPatch(a, b, k - 1, p); }
  }

  lemma {:induction false} GeometryPatched(a: seq<PlanEntry>, b: seq<PlanEntry>, k: nat, i: nat)
    requires i < k <= |a| == |b| && a[i].handle.revision != b[i].handle.revision
    ensures GeometryUpdate(b[i].handle.id, i, b[i]) in DiffUpTo(a, b, k)
  {
    if i < k - 1 { GeometryPatched(a, b, k - 1, i); }
  }
}
