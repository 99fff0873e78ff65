/** Feeds, theme toggles and rebuilds in any order: every feed either leaves the renderer alone and
    asks for a rebuild, or leaves exactly what a rebuild would have. */
module PatchRuns {
  import opened FramePlan
  import opened Renderer
  import opened PatchRefinement

  // ---- One feed -------------------------------------------------------------

  /** Same objects in the same order, clipped alike. */
  predicate SameOutline(a: seq<Baked>, b: seq<Baked>) {
    && |a| == |b| && Build(a).clipDraws == Build(b).clipDraws
    && forall i :: 0 <= i < |a| ==> a[i].id == b[i].id && a[i].clipRef == b[i].clipRef
  }

  predicate AllMeshOk(b: seq<Baked>) { forall i :: 0 <= i < |b| ==> MeshOk(b[i]) }

  lemma OutlineDecides(st: RendererState, a: seq<Baked>, b: seq<Baked>)
    requires Retains(st, a)
    ensures SameObjects(st.plan, PlanOf(b)) && SameClips(st.plan, PlanOf(b)) <==> SameOutline(a, b)
  {
    hide HoldsVertices, HoldsInstances, Build, DrawAt, SameRanges, Uniform;
    PlanParts(b);
    if |a| == |b| {
      forall i | 0 <= i < |a|
        ensures st.plan.entries[i].handle.id == a[i].id && st.plan.entries[i].draw.clipRef == a[i].clipRef
        ensures PlanOf(b).entries[i].handle.id == b[i].id && PlanOf(b).entries[i].draw.clipRef == b[i].clipRef
      {
        assert EntryRetains(st.plan.entries[i], st.draws[i], DrawAt(a, i), a[i]);
        DrawClip(b, i);
      }
    }
  }

  lemma DrawClip(b: seq<Baked>, i: nat)
    requires i < |b|
    ensures DrawAt(b, i).clipRef == b[i].clipRef
  {
  }

  /** The size guard of object `i` is equality of its counts. */
  lemma FitsIsSameCounts(st: RendererState, a: seq<Baked>, b: seq<Baked>, i: nat)
    requires Retains(st, a) && |a| == |b| && i < |b|
    ensures |st.plan.entries| == |PlanOf(b).entries| == |b| && Sliceable(PlanOf(b), i)
    ensures st.plan.entries[i].handle.revision == a[i].revision && PlanOf(b).entries[i].handle.revision == b[i].revision
    ensures FollowerPatchPlan(st.plan.entries[i].draw, GeometryReexpand(PlanOf(b), i)).Some?
       <==> SameCountsAt(a[i], b[i])
  {
    hide HoldsVertices, HoldsInstances, Build, DrawAt, SameRanges, Uniform, Sliceable, GeometryReexpand,
      FollowerPatchPlan;
    PlanParts(b);
    assert EntryRetains(st.plan.entries[i], st.draws[i], DrawAt(a, i), a[i]);
    ReexpandIsLocal(b, i);
    GuardIsSameCounts(a, b, i, st.plan.entries[i].draw);
  }

  /** All patches fit exactly when no object's counts changed. */
  lemma FitDecides(st: RendererState, a: seq<Baked>, b: seq<Baked>)
    requires Retains(st, a) && SameOutline(a, b) && Faithful(a, b)
    requires AllSliceable(PlanOf(b)) && Diff(st.plan, PlanOf(b)).Patches?
    requires PatchesOk(PlanOf(b), Diff(st.plan, PlanOf(b)).patches)
    ensures |st.plan.entries| == |PlanOf(b).entries|
    ensures AllFit(st.plan, PlanOf(b), Diff(st.plan, PlanOf(b)).patches) <==> SameCounts(a, b)
  {
    var next, ps := PlanOf(b), Diff(st.plan, PlanOf(b)).patches;
    PlanParts(b);
    hide Retains, AllSliceable, Build, PatchesOk, Diff, DrawAt, FollowerPatchPlan, GeometryReexpand, Sliceable,
      SameCountsAt;
    DiffOk(st.plan, next);
    assert |st.plan.entries| == |next.entries|;
    if AllFit(st.plan, next, ps) {
      forall i | 0 <= i < |a| ensures SameCountsAt(a[i], b[i]) {
        FitsIsSameCounts(st, a, b, i);
        if a[i].revision == b[i].revision {
          SameSlices(a[i], b[i]);
        } else {
          ChangedIsPatched(st.plan, next, i);
          assert Fits(st.plan, next, GeometryUpdate(next.entries[i].handle.id, i, next.entries[i]));
        }
      }
    }
    if SameCounts(a, b) {
      forall p | p in ps && p.GeometryUpdate? ensures p.index < |b| && Fits(st.plan, next, p) {
        PatchOkParts(st.plan.entries, next.entries, p);
        FitsIsSameCounts(st, a, b, p.index);
      }
    }
  }

  lemma SameSlices(o: Baked, n: Baked)
    requires o.slices == n.slices
    ensures SameCountsAt(o, n)
  {
  }

  lemma ChangedIsPatched(a: FramePlan, b: FramePlan, i: nat)
    requires Diff(a, b).Patches? && i < |a.entries| == |b.entries|
    requires a.entries[i].handle.revision != b.entries[i].handle.revision
    ensures GeometryUpdate(b.entries[i].handle.id, i, b.entries[i]) in Diff(a, b).patches
  {
    GeometryPatched(a.entries, b.entries, |a.entries|, i);
  }

  /** The theorem for one feed: the renderer is patched to exactly the state of a fresh build, or is
      untouched and asks for one; and it asks exactly when objects, clips or counts changed. */
  lemma FeedRefinesRebuild(st: RendererState, a: seq<Baked>, b: seq<Baked>)
    requires Retains(st, a) && DistinctIds(b) && Faithful(a, b) && AllMeshOk(b)
    ensures var (next, stats) := FeedStep(st, b);
            && (stats.needsRebuild <==> !(SameOutline(a, b) && SameCounts(a, b)))
            && (stats.needsRebuild ==> next == st && stats.patchCount == 0)
            && (!stats.needsRebuild ==> next == Rebuilt(b, st.dark) && Retains(next, b))
  {
    hide Retains, AllSliceable, Build, PatchesOk, PlanOf, AllFit, PatchedAll, DiffUpTo, SameOutline, SameCounts,
      Faithful, SameObjects, SameClips;
    OutlineDecides(st, a, b);
    PlanSliceable(b);
    if SameOutline(a, b) {
      DiffOk(st.plan, PlanOf(b));
      FitDecides(st, a, b);
      if SameCounts(a, b) {
        RebuiltRetains(b, st.dark);
        PatchedIsBuilt(st, a, b);
      }
    }
  }

  lemma PatchedIsBuilt(st: RendererState, a: seq<Baked>, b: seq<Baked>)
    requires Retains(st, a) && DistinctIds(b) && Faithful(a, b) && AllMeshOk(b) && SameOutline(a, b) && SameCounts(a, b)
    requires AllSliceable(PlanOf(b)) && Diff(st.plan, PlanOf(b)).Patches?
    requires PatchesOk(PlanOf(b), Diff(st.plan, PlanOf(b)).patches)
    ensures PatchedAll(st.stored, st.draws, PlanOf(b), Diff(st.plan, PlanOf(b)).patches) == Upload(Build(b))
    ensures PlanOf(b).geometry == Build(b)
  {
    hide Build, PatchedAll, HoldsVertices, HoldsInstances, PlanOf, SameVertices, DiffUpTo, Retains, AllSliceable,
      PatchesOk;
    PlanParts(b);
    RetainsCount(st, a);
    AppliedUpTo(st, a, b, |a|);
    var s := PatchedAll(st.stored, st.draws, PlanOf(b), Diff(st.plan, PlanOf(b)).patches);
    VerticesAtEnds(s, a, b);
    UploadHoldsInstances(b);
    var ai, bi := InstancesOf(st.plan.entries), InstancesOf(PlanOf(b).entries);
    assert MixInstances(ai, bi, |a|) == bi;
    InstancesDetermine(s, Upload(Build(b)), bi);
  }

  lemma RetainsCount(st: RendererState, a: seq<Baked>)
    requires Retains(st, a)
    ensures |st.plan.entries| == |st.draws| == |a| && DistinctIds(a)
  {
  }

  /** Ranges of a patched draw never move: the in-place offsets of the retained plan stay right. */
  lemma {:induction false} RangesNeverMove(st: RendererState, a: seq<Baked>, b: seq<Baked>, i: nat)
    requires Retains(st, a) && SameOutline(a, b) && SameCounts(a, b) && i < |b|
    ensures i < |st.draws| && i < |PlanOf(b).entries| && SameRanges(PlanOf(b).entries[i].draw, st.draws[i])
  {
    hide Build, HoldsVertices, HoldsInstances, DrawAt;
    assert EntryRetains(st.plan.entries[i], st.draws[i], DrawAt(a, i), a[i]);
    RangesAgree(a, b, i);
  }

  // ---- Moving and recolouring -----------------------------------------------

  /** Object `n` differs from `o` only in matrix, colours and tokens. */
  predicate Restyled(o: Baked, n: Baked) {
    o.id == n.id && o.revision == n.revision && o.slices == n.slices && o.clipMesh == n.clipMesh
    && o.clipRef == n.clipRef
  }

  predicate AllRestyled(a: seq<Baked>, b: seq<Baked>) {
    |a| == |b| && forall i :: 0 <= i < |a| ==> Restyled(a[i], b[i])
  }

  lemma InstanceCount(a: seq<Baked>)
    ensures |Build(a).fillInstances| == |a|
  {
    BuildLaysOut(a);
  }

  lemma {:induction false} RestyledClips(a: seq<Baked>, b: seq<Baked>)
    requires AllRestyled(a, b)
    ensures Build(a).clipDraws == Build(b).clipDraws && Build(a).clip == Build(b).clip
  {
    hide DrawFor, Pushed;
    if a != [] {
      var n := |a| - 1;
      assert Restyled(a[n], b[n]);
      RestyledClips(a[..n], b[..n]);
      InstanceCount(a[..n]); InstanceCount(b[..n]);
    }
  }

  /** A scene that only moved and recoloured its objects never asks for a rebuild. */
  lemma RestylingNeverRebuilds(st: RendererState, a: seq<Baked>, b: seq<Baked>)
    requires Retains(st, a) && AllRestyled(a, b) && AllMeshOk(b)
    ensures FeedStep(st, b) == (Rebuilt(b, st.dark), FeedStep(st, b).1) && !FeedStep(st, b).1.needsRebuild
  {
    RetainsCount(st, a);
    RestyledClips(a, b);
    RestyledFollows(a, b);
    hide Retains, FeedStep, Rebuilt, Build, SameOutline, SameCounts, DistinctIds, Faithful, AllMeshOk, AllRestyled;
    FeedRefinesRebuild(st, a, b);
  }

  lemma RestyledFollows(a: seq<Baked>, b: seq<Baked>)
    requires AllRestyled(a, b) && DistinctIds(a) && Build(a).clipDraws == Build(b).clipDraws
    ensures SameOutline(a, b) && SameCounts(a, b) && DistinctIds(b) && Faithful(a, b)
  {
    hide Build;
    assert forall i :: 0 <= i < |a| ==> Restyled(a[i], b[i]);
  }

  // ---- The theme toggle -----------------------------------------------------

  /** The recoloured instance of a draw. */
  function ThemedInstance(p: Palette, dark: bool, i: PlanInstance, d: ObjectDraw): PlanInstance {
    i.(fill := ThemedDraw(p, dark, d).fillInstance, stroke := ThemedDraw(p, dark, d).strokeInstance,
       shadow := ThemedDraw(p, dark, d).shadowInstance)
  }

  lemma ThemedWrite(p: Palette, dark: bool, s: Stored, m: seq<PlanInstance>, d: ObjectDraw, k: nat)
    requires k < |m| && HoldsInstances(s, m)
    requires d.fillInstance == m[k].fill && d.strokeInstance == m[k].stroke && d.shadowInstance == m[k].shadow
    ensures var t := ThemedStored(p, dark, s, d, k);
            SameVertices(t, s) && HoldsInstances(t, m[k := ThemedInstance(p, dark, m[k], d)])
  {
    hide WithColor, HoldsInstances;
    var i, j := m[k], ThemedInstance(p, dark, m[k], d);
    var m1 := m[k := i.(shadow := j.shadow)];
    var s1 := if d.shadowRange.start == d.shadowRange.end then s else WithColor(s, k, Shadow, p.shadow(dark));
    ShadowWrite(s, m, k, p.shadow(dark));
    assert d.shadowRange.start == d.shadowRange.end ==> m1 == m;
    var m2 := m1[k := m1[k].(fill := j.fill)];
    var s2 := if d.fillToken.None? then s1 else WithColor(s1, k, Fill, TokenColor(p, d.fillToken.value, dark));
    if d.fillToken.Some? { FillWrite(s1, m1, k, TokenColor(p, d.fillToken.value, dark)); }
    assert d.fillToken.None? ==> m2 == m1;
    var m3 := m2[k := m2[k].(stroke := j.stroke)];
    if d.strokeToken.Some? { StrokeWrite(s2, m2, k, TokenColor(p, d.strokeToken.value, dark)); }
    assert d.strokeToken.None? ==> m3 == m2;
    assert m3 == m[k := j];
  }

  /** The instances after the first `k` draws were recoloured. */
  function ThemedInstances(p: Palette, dark: bool, m: seq<PlanInstance>, draws: seq<ObjectDraw>,
                           k: nat): (r: seq<PlanInstance>)
    requires k <= |m| == |draws|
    ensures |r| == |m|
  {
    seq(|m|, i requires 0 <= i < |m| => if i < k then ThemedInstance(p, dark, m[i], draws[i]) else m[i])
  }

  predicate Mirrors(m: seq<PlanInstance>, draws: seq<ObjectDraw>) {
    && |m| == |draws|
    && forall i ::
         0 <= i < |m| ==>
           draws[i].fillInstance == m[i].fill && draws[i].strokeInstance == m[i].stroke
           && draws[i].shadowInstance == m[i].shadow
  }

  lemma {:induction false} ThemedAll(p: Palette, dark: bool, s: Stored, m: seq<PlanInstance>, draws: seq<ObjectDraw>,
                                     k: nat)
    requires k <= |m| && Mirrors(m, draws) && HoldsInstances(s, m)
    ensures var t := ThemedUpTo(p, dark, s, draws, k);
            SameVertices(t, s) && HoldsInstances(t, ThemedInstances(p, dark, m, draws, k))
  {
    hide HoldsInstances, ThemedStored, ThemedInstance;
    if k == 0 {
      assert ThemedInstances(p, dark, m, draws, 0) == m;
    } else {
      ThemedAll(p, dark, s, m, draws, k - 1);
      var mk := ThemedInstances(p, dark, m, draws, k - 1);
      ThemedWrite(p, dark, ThemedUpTo(p, dark, s, draws, k - 1), mk, draws[k - 1], k - 1);
      assert mk[k - 1 := ThemedInstance(p, dark, mk[k - 1], draws[k - 1])] == ThemedInstances(p, dark, m, draws, k);
    }
  }

  /** A theme toggle keeps plan, draw records and instance buffers in step, and touches no geometry. */
  lemma SetThemeKeeps(p: Palette, st: RendererState, a: seq<Baked>, dark: bool)
    requires Retains(st, a)
    ensures Retains(SetThemeStep(p, st, dark), a)
    ensures SameVertices(SetThemeStep(p, st, dark).stored, st.stored)
  {
    if st.dark == dark {
      Reflexive(st.stored);
    } else {
      hide Build, DrawAt, HoldsVertices, HoldsInstances, SameVertices, ThemedDraw, EntryRetains, ThemedStored,
        ThemedUpTo, Mirrored, ThemedInstance;
      var t := SetThemeStep(p, st, dark);
      forall i | 0 <= i < |a| ensures EntryRetains(t.plan.entries[i], t.draws[i], DrawAt(a, i), a[i]) {
        ThemedEntry(p, st, a, dark, i);
      }
      ThemedBuffers(p, st, a, dark);
    }
  }

  lemma {:induction false} ThemedBuffers(p: Palette, st: RendererState, a: seq<Baked>, dark: bool)
    requires Retains(st, a) && st.dark != dark
    ensures var t := SetThemeStep(p, st, dark);
            && HoldsVertices(t.stored, a, a, 0) && HoldsInstances(t.stored, InstancesOf(t.plan.entries))
               && SameVertices(t.stored, st.stored)
  {
    RetainsStored(st, a);
    RetainsCount(st, a);
    ThemedPlan(p, st, a, dark);
    hide Retains, HoldsVertices, HoldsInstances, SameVertices, ThemedDraw, ThemedUpTo, Mirrored, ThemedInstances,
      Mirrors, InstancesOf;
    var t, m := SetThemeStep(p, st, dark), InstancesOf(st.plan.entries);
    ThemedAll(p, dark, st.stored, m, st.draws, |a|);
    VerticesKeep(st.stored, t.stored, a, a, 0);
  }

  lemma {:induction false} ThemedPlan(p: Palette, st: RendererState, a: seq<Baked>, dark: bool)
    requires Retains(st, a) && st.dark != dark
    ensures |InstancesOf(st.plan.entries)| == |st.draws| == |a|
    ensures Mirrors(InstancesOf(st.plan.entries), st.draws)
    ensures InstancesOf(SetThemeStep(p, st, dark).plan.entries)
              == ThemedInstances(p, dark, InstancesOf(st.plan.entries), st.draws, |a|)
  {
    RetainsCount(st, a);
    ThemedCount(p, st, a, dark);
    var es, fs, draws := st.plan.entries, SetThemeStep(p, st, dark).plan.entries, st.draws;
    hide Retains, SetThemeStep, ThemedInstance, EntryRetains, DrawAt, InstancesOf, ThemedInstances, Mirrors;
    forall i | 0 <= i < |a|
      ensures draws[i].fillInstance == es[i].instance.fill && draws[i].strokeInstance == es[i].instance.stroke
      ensures draws[i].shadowInstance == es[i].instance.shadow
      ensures fs[i].instance == ThemedInstance(p, dark, es[i].instance, draws[i])
    {
      ThemedEntry(p, st, a, dark, i);
    }
    CollectInstances(p, dark, es, fs, draws);
  }

  lemma CollectInstances(p: Palette, dark: bool, es: seq<PlanEntry>, fs: seq<PlanEntry>, draws: seq<ObjectDraw>)
    requires |es| == |fs| == |draws|
    requires forall i ::
               0 <= i < |es| ==>
                 draws[i].fillInstance == es[i].instance.fill && draws[i].strokeInstance == es[i].instance.stroke
                                           && draws[i].shadowInstance == es[i].instance.shadow
    requires forall i :: 0 <= i < |es| ==> fs[i].instance == ThemedInstance(p, dark, es[i].instance, draws[i])
    ensures |InstancesOf(es)| == |draws| && Mirrors(InstancesOf(es), draws)
    ensures InstancesOf(fs) == ThemedInstances(p, dark, InstancesOf(es), draws, |draws|)
  {
    hide ThemedInstance;
  }

  lemma ThemedCount(p: Palette, st: RendererState, a: seq<Baked>, dark: bool)
    requires Retains(st, a)
    ensures |SetThemeStep(p, st, dark).plan.entries| == |a|
  {
    hide ThemedDraw, ThemedUpTo, Mirrored, EntryRetains, HoldsVertices, HoldsInstances;
  }

  lemma RetainsStored(st: RendererState, a: seq<Baked>)
    requires Retains(st, a)
    ensures HoldsVertices(st.stored, a, a, 0) && HoldsInstances(st.stored, InstancesOf(st.plan.entries))
  {
  }

  lemma ThemedEntry(p: Palette, st: RendererState, a: seq<Baked>, dark: bool, i: nat)
    requires Retains(st, a) && st.dark != dark && i < |a|
    ensures |st.plan.entries| == |st.draws| == |a|
    ensures var e, d, t := st.plan.entries[i], st.draws[i], SetThemeStep(p, st, dark);
            && d.fillInstance == e.instance.fill && d.strokeInstance == e.instance.stroke
               && d.shadowInstance == e.instance.shadow
            && |t.plan.entries| == |t.draws| == |a| && EntryRetains(t.plan.entries[i], t.draws[i], DrawAt(a, i), a[i])
            && t.plan.entries[i].instance == ThemedInstance(p, dark, e.instance, d)
  {
    hide HoldsVertices, HoldsInstances, Build, DrawAt, SameRanges, ThemedDraw, ThemedStored, ThemedUpTo;
    assert EntryRetains(st.plan.entries[i], st.draws[i], DrawAt(a, i), a[i]);
    ThemedKeeps(p, dark, st.draws[i], DrawAt(a, i));
  }

  lemma Reflexive(s: Stored)
    ensures SameVertices(s, s)
  {
  }

  lemma ThemedKeeps(p: Palette, dark: bool, d: ObjectDraw, at: ObjectDraw)
    requires SameRanges(d, at)
    ensures SameRanges(ThemedDraw(p, dark, d), at)
    ensures ThemedDraw(p, dark, d).fillInstance.cols == d.fillInstance.cols
    ensures ThemedDraw(p, dark, d).strokeInstance.cols == d.strokeInstance.cols
    ensures ThemedDraw(p, dark, d).shadowInstance.cols == d.shadowInstance.cols
  {
  }

  /** Every token-backed colour is re-resolved for the new theme; the others stay. */
  lemma SetThemeResolves(p: Palette, st: RendererState, a: seq<Baked>, dark: bool, i: nat)
    requires Retains(st, a) && st.dark != dark && i < |a|
    ensures |st.draws| == |SetThemeStep(p, st, dark).stored.fillInstances|
              == |SetThemeStep(p, st, dark).stored.strokeInstances| == |a|
    ensures |SetThemeStep(p, st, dark).stored.shadowInstances| == |a|
    ensures var t, d := SetThemeStep(p, st, dark).stored, st.draws[i];
            && t.fillInstances[i]
                 == d.fillInstance.(fill := if d.fillToken.Some? then TokenColor(p, d.fillToken.value, dark)
                                            else d.fillInstance.fill)
            && t.strokeInstances[i]
                 == d.strokeInstance.(stroke := if d.strokeToken.Some? then TokenColor(p, d.strokeToken.value, dark)
                                                else d.strokeInstance.stroke)
            && t.shadowInstances[i] == d.shadowInstance.(shadow := if Len(d.shadowRange) != 0 then p.shadow(dark)
                                                                   else d.shadowInstance.shadow)
  {
    RetainsCount(st, a);
    ThemedBuffers(p, st, a, dark);
    ThemedPlan(p, st, a, dark);
    ThemedEntry(p, st, a, dark, i);
    hide Retains, HoldsVertices, SameVertices, SetThemeStep, TokenColor, EntryRetains, DrawAt;
  }

  // ---- Runs -----------------------------------------------------------------

  datatype Event = SetTheme(dark: bool) | Feed(objs: seq<Baked>) | Construct(objs: seq<Baked>, dark: bool)

  /** The renderer and the scene it last took in. */
  datatype Session = Session(renderer: RendererState, scene: seq<Baked>)

  function Step(p: Palette, s: Session, e: Event): Session {
    match e
    case SetTheme(dark) => s.(renderer := SetThemeStep(p, s.renderer, dark))
    case Construct(objs, dark) => Session(Rebuilt(objs, dark), objs)
    case Feed(objs) =>
      var (next, stats) := FeedStep(s.renderer, objs);
      if stats.needsRebuild then s else Session(next, objs)
  }

  function Run(p: Palette, s: Session, events: seq<Event>): Session {
    if events == [] then s else Step(p, Run(p, s, events[..|events| - 1]), events[|events| - 1])
  }

  /** A scene whose object geometry is a function of identity and revision. */
  predicate SceneOk(geometry: (string, nat) -> Slices, objs: seq<Baked>) {
    DistinctIds(objs) && AllMeshOk(objs) && forall i ::
      0 <= i < |objs| ==> objs[i].slices == geometry(objs[i].id, objs[i].revision)
  }

  predicate EventOk(geometry: (string, nat) -> Slices, e: Event) { !e.SetTheme? ==> SceneOk(geometry, e.objs) }

  predicate EventsOk(geometry: (string, nat) -> Slices, es: seq<Event>) { forall e :: e in es ==> EventOk(geometry, e) }

  predicate SessionOk(geometry: (string, nat) -> Slices, s: Session) {
    SceneOk(geometry, s.scene) && Retains(s.renderer, s.scene)
  }

  lemma StepKeeps(geometry: (string, nat) -> Slices, p: Palette, s: Session, e: Event)
    requires SessionOk(geometry, s) && EventOk(geometry, e)
    ensures SessionOk(geometry, Step(p, s, e))
  {
    hide Retains, FeedStep, SetThemeStep, Rebuilt;
    match e
    case SetTheme(dark) => SetThemeKeeps(p, s.renderer, s.scene, dark);
    case Construct(objs, dark) => RebuiltRetains(objs, dark);
    case Feed(objs) => FeedRefinesRebuild(s.renderer, s.scene, objs);
  }

  lemma {:induction false} RunKeeps(geometry: (string, nat) -> Slices, p: Palette, s: Session, events: seq<Event>)
    requires SessionOk(geometry, s) && EventsOk(geometry, events)
    ensures SessionOk(geometry, Run(p, s, events))
  {
    hide EventOk, SessionOk, Step;
    if events != [] {
      var n := |events| - 1;
      assert events[n] in events && forall e :: e in events[..n] ==> e in events;
      RunKeeps(geometry, p, s, events[..n]);
      StepKeeps(geometry, p, Run(p, s, events[..n]), events[n]);
    }
  }

  /** After any run of theme toggles, feeds and rebuilds, a feed leaves the renderer exactly as a
      fresh build would, or untouched and asking for one. */
  lemma EveryFeedRefinesRebuild(geometry: (string, nat) -> Slices, p: Palette, first: seq<Baked>, dark: bool,
                                events: seq<Event>, objs: seq<Baked>)
    requires SceneOk(geometry, first) && EventsOk(geometry, events) && SceneOk(geometry, objs)
    ensures var s := Run(p, Session(Rebuilt(first, dark), first), events);
            var (next, stats) := FeedStep(s.renderer, objs);
            && (stats.needsRebuild <==> !(SameOutline(s.scene, objs) && SameCounts(s.scene, objs)))
            && next == if stats.needsRebuild then s.renderer else Rebuilt(objs, s.renderer.dark)
  {
    RebuiltRetains(first, dark);
    hide Retains, FeedStep, Rebuilt, Step;
    RunKeeps(geometry, p, Session(Rebuilt(first, dark), first), events);
    FeedRefinesRebuild(Run(p, Session(Rebuilt(first, dark), first), events).renderer,
                       Run(p, Session(Rebuilt(first, dark), first), events).scene, objs);
  }

  /** What the last event of a run leaves: a construction and a feed that is taken in leave a fresh build of their
      objects, a feed that is not leaves everything as it was, and a toggle leaves the scene, in its theme. */
  lemma LastEventShows(geometry: (string, nat) -> Slices, p: Palette, first: seq<Baked>, theme: bool,
                       events: seq<Event>, e: Event)
    requires SceneOk(geometry, first) && EventsOk(geometry, events) && EventOk(geometry, e)
    ensures var start := Session(Rebuilt(first, theme), first);
            var s, t := Run(p, start, events), Run(p, start, events + [e]);
            && (e.Construct? ==> t == Session(Rebuilt(e.objs, e.dark), e.objs))
            && (e.Feed? && SameOutline(s.scene, e.objs) && SameCounts(s.scene, e.objs) ==>
                  t == Session(Rebuilt(e.objs, s.renderer.dark), e.objs))
            && (e.Feed? && !(SameOutline(s.scene, e.objs) && SameCounts(s.scene, e.objs)) ==> t == s)
            && (e.SetTheme? ==>
                  t.scene == s.scene && t.renderer.dark == e.dark && (s.renderer.dark == e.dark ==> t == s))
  {
    var start := Session(Rebuilt(first, theme), first);
    assert (events + [e])[..|events|] == events;
    hide Retains, FeedStep, Rebuilt, SameOutline, SameCounts, EventOk;
    if e.Feed? {
      EventFeeds(geometry, e);
      EveryFeedRefinesRebuild(geometry, p, first, theme, events, e.objs);
    }
  }

  lemma EventFeeds(geometry: (string, nat) -> Slices, e: Event)
    requires EventOk(geometry, e) && e.Feed?
    ensures SceneOk(geometry, e.objs)
  {
  }
}
