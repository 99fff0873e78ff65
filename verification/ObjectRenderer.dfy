/** The renderer object: buffers as arrays, patched in place
    (crates/renderer-wgpu/src/object_pipeline.rs). */
module ObjectRendering {
  import opened Buffers
  import opened FramePlan
  import opened Renderer
  import opened PatchRefinement
  import opened PatchRuns

  /** The patches before patch `q` include every changed object before the one it names. */
  lemma {:induction false} EarlierPatched(a: seq<PlanEntry>, b: seq<PlanEntry>, k: nat, q: nat, j: nat)
    requires k <= |a| == |b| && q < |DiffUpTo(a, b, k)|
    requires !DiffUpTo(a, b, k)[q].RebuildPatch? && j < DiffUpTo(a, b, k)[q].index
    requires j < |a| && a[j].handle.revision != b[j].handle.revision
    ensures GeometryUpdate(b[j].handle.id, j, b[j]) in DiffUpTo(a, b, k)[..q]
  {
    hide DiffEntry;
    var front, last := DiffUpTo(a, b, k - 1), DiffEntry(k - 1, a[k - 1], b[k - 1]);
    if q < |front| {
      EarlierPatched(a, b, k - 1, q, j);
      assert (front + last)[..q] == front[..q];
    } else {
      EntryPatch(a, b, k - 1, last[q - |front|]);
      GeometryPatched(a, b, k - 1, j);
      assert (front + last)[..q] == front + last[..q - |front|];
    }
  }

  predicate FitSoFar(plan: FramePlan, next: FramePlan, ps: seq<PlanPatch>, q: nat)
    requires AllSliceable(next) && PatchesOk(next, ps) && |plan.entries| == |next.entries| && q <= |ps|
  {
    forall p :: p in ps[..q] && p.GeometryUpdate? ==> p.index < |next.entries| && Fits(plan, next, p)
  }

  /** Once a patch and all before it fit, its object has not moved in any buffer. */
  lemma FittingStaysPut(st: RendererState, a: seq<Baked>, b: seq<Baked>, q: nat)
    requires Retains(st, a) && SameOutline(a, b) && Faithful(a, b) && AllSliceable(PlanOf(b))
    requires |st.plan.entries| == |PlanOf(b).entries| == |b|
    requires Diff(st.plan, PlanOf(b)).Patches? && PatchesOk(PlanOf(b), Diff(st.plan, PlanOf(b)).patches)
    requires q < |Diff(st.plan, PlanOf(b)).patches|
    requires FitSoFar(st.plan, PlanOf(b), Diff(st.plan, PlanOf(b)).patches, q + 1)
    requires Diff(st.plan, PlanOf(b)).patches[q].GeometryUpdate?
    ensures var p := Diff(st.plan, PlanOf(b)).patches[q];
            && p.index < |b| && p.entry == PlanOf(b).entries[p.index]
            && SameRanges(p.entry.draw, st.plan.entries[p.index].draw)
  {
    hide Retains, AllSliceable, Build, PatchesOk, DrawAt, FollowerPatchPlan, GeometryReexpand, Sliceable, SameCountsAt,
      SameRanges, DiffUpTo, PlanOf;
    var next, ps := PlanOf(b), Diff(st.plan, PlanOf(b)).patches;
    var p := ps[q];
    assert p in ps && p in ps[..q + 1];
    DiffOk(st.plan, next);
    assert PatchOk(st.plan.entries, next.entries, |next.entries|, p);
    forall j | 0 <= j <= p.index ensures SameCountsAt(a[j], b[j]) {
      FitsIsSameCounts(st, a, b, j);
      if a[j].revision == b[j].revision {
        SameSlices(a[j], b[j]);
      } else if j < p.index {
        EarlierPatched(st.plan.entries, next.entries, |a|, q, j);
        var e := GeometryUpdate(next.entries[j].handle.id, j, next.entries[j]);
        assert ps[..q + 1] == ps[..q] + [p];
        assert e in ps[..q + 1];
        assert Fits(st.plan, next, e);
      } else {
        assert Fits(st.plan, next, p);
      }
    }
    RangesAgree(a, b, p.index);
    PlanRanges(st, a, b, p.index);
  }

  lemma PlanRanges(st: RendererState, a: seq<Baked>, b: seq<Baked>, i: nat)
    requires Retains(st, a) && i < |a| == |b| && SameRanges(DrawAt(a, i), DrawAt(b, i))
    ensures |st.plan.entries| == |PlanOf(b).entries| == |a|
    ensures SameRanges(PlanOf(b).entries[i].draw, st.plan.entries[i].draw)
  {
    hide HoldsVertices, HoldsInstances, Build, DrawAt;
    assert EntryRetains(st.plan.entries[i], st.draws[i], DrawAt(a, i), a[i]);
  }

  method CreateBuffer<T>(data: seq<T>) returns (buffer: array<T>)
    ensures fresh(buffer) && buffer[..] == data
  {
    buffer := new T[|data|](i requires 0 <= i < |data| => data[i]);
  }

  /** The plan with each entry's solid colours taken from its draw record. */
  function MirroredPlan(plan: FramePlan, draws: seq<ObjectDraw>): FramePlan {
    plan.(entries := seq(|plan.entries|, i requires 0 <= i < |plan.entries| =>
      if i < |draws| then Mirrored(plan.entries[i], draws[i]) else plan.entries[i]))
  }

  function ThemedDraws(p: Palette, dark: bool, draws: seq<ObjectDraw>): seq<ObjectDraw> {
    seq(|draws|, i requires 0 <= i < |draws| => ThemedDraw(p, dark, draws[i]))
  }

  lemma SetThemeParts(p: Palette, st: RendererState, dark: bool)
    requires st.dark != dark
    ensures var draws := ThemedDraws(p, dark, st.draws);
            SetThemeStep(p, st, dark) == RendererState(
              ThemedUpTo(p, dark, st.stored, st.draws, |st.draws|), draws, st.clipDraws, MirroredPlan(st.plan, draws),
              dark)
  {
    hide ThemedDraw, ThemedUpTo, Mirrored;
  }

  /** A write that is skipped when there is nothing to send. */
  method WriteSome<T>(buf: array<T>, at: nat, data: seq<T>, some: bool)
    modifies buf
    ensures buf[..] == if some then Splice(old(buf[..]), at, data) else old(buf[..])
  {
    if some { WriteBuffer(buf, at, data); }
  }

  class ObjectRenderer {
    const fillVertices: array<FillVertex>
    const fillIndices: array<nat>
    const fillInstances: array<FillInstance>
    const strokeVertices: array<StrokeVertex>
    const strokeInstances: array<StrokeInstance>
    const shadowVertices: array<ShadowVertex>
    const shadowInstances: array<ShadowInstance>
    const textVertices: array<TextVertex>
    const textInstances: array<TextInstance>
    var draws: seq<ObjectDraw>
    var clipDraws: seq<ClipDraw>
    var plan: FramePlan
    var dark: bool
    /** The scene the buffers show. */
    ghost var scene: seq<Baked>

    function Contents(): Stored
      reads fillVertices, fillIndices, fillInstances, strokeVertices, strokeInstances
      reads shadowVertices, shadowInstances, textVertices, textInstances
    {
      Stored(fillVertices[..], fillIndices[..], fillInstances[..], strokeVertices[..], strokeInstances[..],
             shadowVertices[..], shadowInstances[..], textVertices[..], textInstances[..])
    }

    function State(): RendererState
      reads this, fillVertices, fillIndices, fillInstances, strokeVertices, strokeInstances
      reads shadowVertices, shadowInstances, textVertices, textInstances
    {
      RendererState(Contents(), draws, clipDraws, plan, dark)
    }

    ghost predicate Valid()
      reads this, fillVertices, fillIndices, fillInstances, strokeVertices, strokeInstances
      reads shadowVertices, shadowInstances, textVertices, textInstances
    {
      Retains(State(), scene)
    }

    constructor (objs: seq<Baked>, dark: bool)
      requires DistinctIds(objs)
      ensures State() == Rebuilt(objs, dark) && scene == objs && Valid()
    {
      hide Retains, PlanOf, Build;
      var plan := BuildFramePlan(objs);
      PlanParts(objs);
      var g := plan.geometry;
      var fillVerticesBuffer := CreateBuffer(g.fill.vertices);
      var fillIndicesBuffer := CreateBuffer(g.fill.indices);
      var fillInstancesBuffer := CreateBuffer(g.fillInstances);
      var strokeVerticesBuffer := CreateBuffer(g.strokeVertices);
      var strokeInstancesBuffer := CreateBuffer(g.strokeInstances);
      var shadowVerticesBuffer := CreateBuffer(g.shadowVertices);
      var shadowInstancesBuffer := CreateBuffer(g.shadowInstances);
      var textVerticesBuffer := CreateBuffer(g.textVertices);
      var textInstancesBuffer := CreateBuffer(g.textInstances);
      fillVertices, fillIndices, fillInstances := fillVerticesBuffer, fillIndicesBuffer, fillInstancesBuffer;
      strokeVertices, strokeInstances := strokeVerticesBuffer, strokeInstancesBuffer;
      shadowVertices, shadowInstances := shadowVerticesBuffer, shadowInstancesBuffer;
      textVertices, textInstances := textVerticesBuffer, textInstancesBuffer;
      this.plan, this.dark := plan, dark;
      draws, clipDraws, scene := g.draws, g.clipDraws, objs;
      RebuiltRetains(objs, dark);
      new;
    }

    method WriteInstanceMatrix(index: nat, columns: Columns)
      modifies fillInstances, strokeInstances, textInstances, shadowInstances
      ensures Contents() == WithColumns(old(Contents()), index, columns)
    {
      if index < fillInstances.Length { fillInstances[index] := fillInstances[index].(cols := columns); }
      if index < strokeInstances.Length { strokeInstances[index] := strokeInstances[index].(cols := columns); }
      if index < textInstances.Length { textInstances[index] := textInstances[index].(cols := columns); }
      if index < shadowInstances.Length { shadowInstances[index] := shadowInstances[index].(cols := columns); }
    }

    method WriteInstanceColor(index: nat, slot: StyleSlot, color: Color)
      modifies fillInstances, strokeInstances, shadowInstances
      ensures Contents() == WithColor(old(Contents()), index, slot, color)
    {
      match slot
      case Fill =>
        if index < fillInstances.Length { fillInstances[index] := fillInstances[index].(fill := color); }
      case Stroke =>
        if index < strokeInstances.Length { strokeInstances[index] := strokeInstances[index].(stroke := color); }
      case Shadow =>
        if index < shadowInstances.Length { shadowInstances[index] := shadowInstances[index].(shadow := color); }
    }

    method PatchFollowerGeometry(id: string, rebuilt: Reexpand) returns (patched: bool)
      modifies fillVertices, fillIndices, strokeVertices, shadowVertices, textVertices
      ensures Contents() == WithGeometry(old(Contents()), draws, id, rebuilt)
      ensures patched <==> FindDraw(draws, id) < |draws| && FollowerPatchPlan(draws[FindDraw(draws, id)], rebuilt).Some?
    {
      hide Splice, FollowerPatchPlan, Rebase, WithGeometry;
      ContentsAre();
      var found := FindDraw(draws, id);
      NothingWritten(Contents(), draws, id, rebuilt);
      if found == |draws| {
        return false;
      }
      var at := FollowerPatchPlan(draws[found], rebuilt);
      if at.None? {
        return false;
      }
      var offsets := at.value;
      WrittenFields(Contents(), draws, id, rebuilt, found);
      OffsetsAre(draws[found], rebuilt);
      hide *;
      WriteGeometry(offsets, rebuilt);
      ContentsAre();
      patched := true;
    }

    method WriteGeometry(at: PatchOffsets, rebuilt: Reexpand)
      modifies fillVertices, fillIndices, strokeVertices, shadowVertices, textVertices
      ensures fillVertices[..] == if rebuilt.fillVertices == [] then old(fillVertices[..])
                                  else Splice(old(fillVertices[..]), at.fillVertex, rebuilt.fillVertices)
      ensures fillIndices[..] == if rebuilt.fillVertices == [] then old(fillIndices[..])
                                 else Splice(old(fillIndices[..]), at.fillIndex,
                                             Rebase(rebuilt.fillIndices, at.indexRebase))
      ensures strokeVertices[..] == if rebuilt.strokeVertices == [] then old(strokeVertices[..])
                                    else Splice(old(strokeVertices[..]), at.stroke, rebuilt.strokeVertices)
      ensures shadowVertices[..] == if rebuilt.shadowVertices == [] then old(shadowVertices[..])
                                    else Splice(old(shadowVertices[..]), at.shadow, rebuilt.shadowVertices)
      ensures textVertices[..] == if rebuilt.textVertices == [] then old(textVertices[..])
                                  else Splice(old(textVertices[..]), at.text, rebuilt.textVertices)
    {
      hide Splice, Rebase;
      WriteSome(fillVertices, at.fillVertex, rebuilt.fillVertices, rebuilt.fillVertices != []);
      var rebased := Rebase(rebuilt.fillIndices, at.indexRebase);
      WriteSome(fillIndices, at.fillIndex, rebased, rebuilt.fillVertices != []);
      WriteSome(strokeVertices, at.stroke, rebuilt.strokeVertices, rebuilt.strokeVertices != []);
      WriteSome(shadowVertices, at.shadow, rebuilt.shadowVertices, rebuilt.shadowVertices != []);
      WriteSome(textVertices, at.text, rebuilt.textVertices, rebuilt.textVertices != []);
    }

    lemma ContentsAre()
      ensures Contents()
                == Stored(fillVertices[..], fillIndices[..], fillInstances[..], strokeVertices[..], strokeInstances[..],
                                   shadowVertices[..], shadowInstances[..], textVertices[..], textInstances[..])
    {
    }

    method ApplyPatch(next: FramePlan, patch: PlanPatch)
      requires AllSliceable(next) && !patch.RebuildPatch? && patch.index < |next.entries|
      modifies fillVertices, fillIndices, fillInstances, strokeVertices, strokeInstances
      modifies shadowVertices, shadowInstances, textVertices, textInstances
      ensures Contents() == Patched(old(Contents()), draws, next, patch)
    {
      hide WithColumns, WithColor, WithGeometry, GeometryReexpand, Sliceable;
      match patch
      case TransformUpdate(_, index, columns) => WriteInstanceMatrix(index, columns);
      case StyleUpdate(_, index, slot, color) => WriteInstanceColor(index, slot, color);
      case GeometryUpdate(_, index, entry) =>
        var rebuilt := GeometryReexpand(next, index);
        var _ := PatchFollowerGeometry(entry.handle.id, rebuilt);
        WriteInstanceMatrix(index, entry.instance.fill.cols);
        WriteInstanceColor(index, Fill, entry.instance.fill.fill);
        WriteInstanceColor(index, Stroke, entry.instance.stroke.stroke);
        WriteInstanceColor(index, Shadow, entry.instance.shadow.shadow);
      case RebuildPatch => assert false;
    }

    /** The size check over all patches, with the range assertion beside it. */
    method CheckPatches(objs: seq<Baked>, next: FramePlan, patches: seq<PlanPatch>) returns (fits: bool)
      requires Valid() && SameOutline(scene, objs) && Faithful(scene, objs) && DistinctIds(objs)
      requires next == PlanOf(objs) && AllSliceable(next) && Diff(plan, next) == Patches(patches)
      requires PatchesOk(next, patches)
      ensures |plan.entries| == |next.entries|
      ensures fits <==> AllFit(plan, next, patches)
    {
      hide Retains, AllSliceable, PatchesOk, Diff, PlanOf, FollowerPatchPlan, GeometryReexpand, SameRanges, PatchOk;
      RetainsCount(State(), scene);
      PlanParts(objs);
      DiffOk(plan, next);
      for q := 0 to |patches|
        invariant FitSoFar(plan, next, patches, q)
      {
        var patch := patches[q];
        assert patch in patches;
        assert patches[..q + 1] == patches[..q] + [patch];
        PatchOkParts(plan.entries, next.entries, patch);
        if patch.GeometryUpdate? {
          SliceableAt(next, patch.index);
          var was := plan.entries[patch.index].draw;
          if FollowerPatchPlan(was, GeometryReexpand(next, patch.index)).None? {
            assert !Fits(plan, next, patch);
            return false;
          }
          FittingStaysPut(State(), scene, objs, q);
          RangesFields(patch.entry.draw, was);
          assert patch.entry.draw.fillRange == was.fillRange;
        }
      }
      assert patches[..|patches|] == patches;
      fits := true;
    }

    /** Re-feeds a scene: patches the buffers in place to what a fresh build would upload, or
        leaves everything alone and asks for the rebuild. */
    method ApplyPlanDiff(objs: seq<Baked>) returns (stats: FeedStats)
      requires Valid() && DistinctIds(objs) && Faithful(scene, objs) && AllMeshOk(objs)
      modifies this, fillVertices, fillIndices, fillInstances, strokeVertices, strokeInstances
      modifies shadowVertices, shadowInstances, textVertices, textInstances
      ensures Valid() && (State(), stats) == FeedStep(old(State()), objs)
      ensures stats.needsRebuild <==> !(SameOutline(old(scene), objs) && SameCounts(old(scene), objs))
      ensures stats.needsRebuild ==> State() == old(State()) && scene == old(scene)
      ensures !stats.needsRebuild ==> State() == Rebuilt(objs, dark) && scene == objs && dark == old(dark)
    {
      hide Retains, AllSliceable, PatchesOk, Diff, PlanOf, Build, SameOutline, SameCounts, Faithful, AllFit,
        PatchedAll, Patched;
      FeedRefinesRebuild(State(), scene, objs);
      OutlineDecides(State(), scene, objs);
      ghost var st0 := State();
      var next := BuildFramePlan(objs);
      PlanSliceable(objs);
      var diff := DiffPlans(plan, next);
      match diff
      case Rebuild =>
        FeedWhenRebuild(st0, objs);
        stats := FeedStats(0, true);
      case Patches(patches) =>
        DiffOk(plan, next);
        DiffIsOutline(plan, next);
        var fits := CheckPatches(objs, next, patches);
        FeedWhenPatches(st0, objs);
        if !fits {
          return FeedStats(0, true);
        }
        ApplyAll(next, patches);
        draws, clipDraws, plan, scene := next.geometry.draws, next.geometry.clipDraws, next, objs;
        stats := FeedStats(|patches|, false);
    }

    method ApplyAll(next: FramePlan, patches: seq<PlanPatch>)
      requires AllSliceable(next) && PatchesOk(next, patches)
      modifies fillVertices, fillIndices, fillInstances, strokeVertices, strokeInstances
      modifies shadowVertices, shadowInstances, textVertices, textInstances
      ensures Contents() == PatchedAll(old(Contents()), draws, next, patches)
    {
      hide AllSliceable, Patched;
      for q := 0 to |patches|
        invariant PatchesOk(next, patches[..q])
        invariant Contents() == PatchedAll(old(Contents()), draws, next, patches[..q])
      {
        assert patches[q] in patches;
        ApplyPatch(next, patches[q]);
        assert patches[..q + 1][..q] == patches[..q];
      }
      assert patches[..|patches|] == patches;
    }

    /** Flips the theme: recolours token-backed instances and mirrors them into the plan. */
    method SetTheme(p: Palette, dark: bool)
      requires Valid()
      modifies this, fillInstances, strokeInstances, shadowInstances
      ensures Valid() && State() == SetThemeStep(p, old(State()), dark) && scene == old(scene)
    {
      hide Retains, ThemedUpTo, ThemedDraw, SetThemeStep, MirroredPlan, ThemedDraws;
      SetThemeKeeps(p, State(), scene, dark);
      if this.dark == dark {
        SameTheme(p, State(), dark);
        return;
      }
      SetThemeParts(p, State(), dark);
      this.dark := dark;
      RecolorAll(p);
      MirrorInstances();
    }

    method RecolorAll(p: Palette)
      modifies this`draws, fillInstances, strokeInstances, shadowInstances
      ensures draws == ThemedDraws(p, dark, old(draws))
      ensures Contents() == ThemedUpTo(p, dark, old(Contents()), old(draws), |old(draws)|)
    {
      hide ThemedStored, ThemedDraw;
      for i := 0 to |draws|
        invariant |draws| == |old(draws)|
        invariant forall k :: 0 <= k < i ==> draws[k] == ThemedDraw(p, dark, old(draws[k]))
        invariant forall k :: i <= k < |draws| ==> draws[k] == old(draws[k])
        invariant Contents() == ThemedUpTo(p, dark, old(Contents()), old(draws), i)
      {
        var draw := draws[i];
        Recolor(p, i, draw);
        draws := draws[i := ThemedDraw(p, dark, draw)];
      }
    }

    method MirrorInstances()
      modifies this`plan
      ensures plan == MirroredPlan(old(plan), draws)
    {
      hide Mirrored;
      var entries := plan.entries;
      var pairs := if |entries| <= |draws| then |entries| else |draws|;
      for i := 0 to pairs
        invariant |entries| == |plan.entries|
        invariant forall k :: 0 <= k < i ==> entries[k] == Mirrored(plan.entries[k], draws[k])
        invariant forall k :: i <= k < |entries| ==> entries[k] == plan.entries[k]
      {
        entries := entries[i := Mirrored(entries[i], draws[i])];
      }
      plan := plan.(entries := entries);
    }

    method Recolor(p: Palette, i: nat, draw: ObjectDraw)
      modifies fillInstances, strokeInstances, shadowInstances
      ensures Contents() == ThemedStored(p, dark, old(Contents()), draw, i)
    {
      hide WithColor, TokenColor;
      if draw.shadowRange.start != draw.shadowRange.end { WriteInstanceColor(i, Shadow, p.shadow(dark)); }
      if draw.fillToken.Some? { WriteInstanceColor(i, Fill, TokenColor(p, draw.fillToken.value, dark)); }
      if draw.strokeToken.Some? { WriteInstanceColor(i, Stroke, TokenColor(p, draw.strokeToken.value, dark)); }
    }
  }

  lemma SameTheme(p: Palette, st: RendererState, dark: bool)
    requires st.dark == dark
    ensures SetThemeStep(p, st, dark) == st
  {
  }

  lemma SliceableAt(plan: FramePlan, i: nat)
    requires AllSliceable(plan) && i < |plan.entries|
    ensures Sliceable(plan, i)
  {
  }

  lemma RangesFields(d: ObjectDraw, e: ObjectDraw)
    requires SameRanges(d, e)
    ensures d.fillRange == e.fillRange
  {
  }

  lemma DiffIsOutline(a: FramePlan, b: FramePlan)
    ensures Diff(a, b).Patches? <==> SameObjects(a, b) && SameClips(a, b)
  {
  }

  lemma FeedWhenRebuild(st: RendererState, objs: seq<Baked>)
    requires Diff(st.plan, PlanOf(objs)).Rebuild?
    ensures FeedStep(st, objs) == (st, FeedStats(0, true))
  {
    hide Diff, PlanOf;
  }

  lemma FeedWhenPatches(st: RendererState, objs: seq<Baked>)
    requires Diff(st.plan, PlanOf(objs)).Patches?
    ensures AllSliceable(PlanOf(objs)) && PatchesOk(PlanOf(objs), Diff(st.plan, PlanOf(objs)).patches)
    ensures |st.plan.entries| == |PlanOf(objs).entries|
    ensures var next, ps := PlanOf(objs), Diff(st.plan, PlanOf(objs)).patches;
            FeedStep(st, objs) == if AllFit(st.plan, next, ps)
              then (RendererState(PatchedAll(st.stored, st.draws, next, ps), next.geometry.draws,
                                  next.geometry.clipDraws, next, st.dark),
                    FeedStats(|ps|, false))
              else (st, FeedStats(0, true))
  {
    PlanSliceable(objs);
    DiffOk(st.plan, PlanOf(objs));
    hide Diff, PlanOf, AllSliceable, PatchesOk, AllFit, PatchedAll;
  }
}
