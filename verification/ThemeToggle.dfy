/** When a theme toggle leaves the buffers a rebuild in the new theme would upload
    (crates/renderer-wgpu/src/object_pipeline.rs, `set_theme`, against `paint_color` in
    crates/renderer-core/src/object_pipeline.rs). */
module ThemeToggle {
  import opened Sequences
  import opened Buffers
  import opened FramePlan
  import opened Renderer
  import opened PatchRefinement
  import opened PatchRuns

  /** A paint: a token of the theme with an opacity, or a colour of its own. */
  datatype Paint = TokenPaint(name: string, opacity: real) | PlainPaint(color: Color)

  /** An object before its colours are resolved; those of `base` are replaced. */
  datatype Styled = Styled(base: Baked, fill: Paint, stroke: Paint)

  function Clamped(x: real): real { MaxReal(0.0, MinReal(1.0, x)) }

  /** A token's own alpha times the opacity. */
  function Faded(c: Color, opacity: real): Color { c.(a := c.a * Clamped(opacity)) }

  function PaintColor(p: Palette, paint: Paint, dark: bool): Color {
    match paint
    case TokenPaint(name, opacity) => Faded(TokenColor(p, name, dark), opacity)
    case PlainPaint(color) => color
  }

  function TokenOf(paint: Paint): Option<string> { if paint.TokenPaint? then Some(paint.name) else None }

  function InTheme(p: Palette, o: Styled, dark: bool): Baked {
    o.base.(fill := PaintColor(p, o.fill, dark), stroke := PaintColor(p, o.stroke, dark), shadow := p.shadow(dark),
            fillToken := TokenOf(o.fill), strokeToken := TokenOf(o.stroke))
  }

  function AllInTheme(p: Palette, objs: seq<Styled>, dark: bool): seq<Baked> {
    seq(|objs|, i requires 0 <= i < |objs| => InTheme(p, objs[i], dark))
  }

  /** A token paint is drawn at full opacity, or its token is transparent anyway. */
  predicate OpacityKept(p: Palette, paint: Paint, dark: bool) {
    paint.TokenPaint? ==> paint.opacity >= 1.0 || TokenColor(p, paint.name, dark).a == 0.0
  }

  predicate ToggleFits(p: Palette, o: Styled, dark: bool) {
    && OpacityKept(p, o.fill, dark) && OpacityKept(p, o.stroke, dark)
    && (o.base.slices.shadow == [] ==> p.shadow(!dark) == p.shadow(dark))
  }

  predicate AllToggleFit(p: Palette, objs: seq<Styled>, dark: bool) {
    forall i :: 0 <= i < |objs| ==> ToggleFits(p, objs[i], dark)
  }

  /** Instance `i` of the passes whose colour depends on the theme. */
  predicate InstancesAgree(s: Stored, t: Stored, i: nat)
    requires i < |s.fillInstances| == |s.strokeInstances| == |s.shadowInstances|
    requires i < |t.fillInstances| == |t.strokeInstances| == |t.shadowInstances|
  {
    s.fillInstances[i] == t.fillInstances[i] && s.strokeInstances[i] == t.strokeInstances[i]
    && s.shadowInstances[i] == t.shadowInstances[i]
  }

  lemma IdsInTheme(p: Palette, objs: seq<Styled>, dark: bool)
    requires DistinctIds(AllInTheme(p, objs, true))
    ensures DistinctIds(AllInTheme(p, objs, dark))
  {
    var a, b := AllInTheme(p, objs, true), AllInTheme(p, objs, dark);
    forall i | 0 <= i < |objs| ensures a[i].id == b[i].id {}
    hide AllInTheme;
  }

  /** Geometry does not depend on the theme. */
  lemma SameGeometry(p: Palette, objs: seq<Styled>)
    ensures SameVertices(Upload(Build(AllInTheme(p, objs, false))), Upload(Build(AllInTheme(p, objs, true))))
    ensures Build(AllInTheme(p, objs, false)).textInstances == Build(AllInTheme(p, objs, true)).textInstances
  {
    var a, b := AllInTheme(p, objs, false), AllInTheme(p, objs, true);
    SameParts(p, objs);
    BuildLaysOut(a);
    BuildLaysOut(b);
    hide Build, Flat, Verts, Idx, Strokes, Shadows, Texts, AllInTheme;
    AllInThemeCount(p, objs);
    forall i | 0 <= i < |objs| ensures Build(a).textInstances[i] == Build(b).textInstances[i] { SameText(p, objs, i); }
  }

  lemma AllInThemeCount(p: Palette, objs: seq<Styled>)
    ensures |AllInTheme(p, objs, false)| == |AllInTheme(p, objs, true)| == |objs|
  {
  }

  lemma SameText(p: Palette, objs: seq<Styled>, i: nat)
    requires i < |objs|
    ensures |Build(AllInTheme(p, objs, false)).textInstances| == |Build(AllInTheme(p, objs, true)).textInstances|
              == |objs|
    ensures Build(AllInTheme(p, objs, false)).textInstances[i] == Build(AllInTheme(p, objs, true)).textInstances[i]
  {
    hide Build;
    BuildInstances(AllInTheme(p, objs, false), i);
    BuildInstances(AllInTheme(p, objs, true), i);
  }

  lemma SameParts(p: Palette, objs: seq<Styled>)
    ensures var a, b := AllInTheme(p, objs, false), AllInTheme(p, objs, true);
            && Verts(a) == Verts(b) && Idx(a) == Idx(b) && Strokes(a) == Strokes(b) && Shadows(a) == Shadows(b)
            && Texts(a) == Texts(b)
  {
    hide Start, Rebase, PaintColor;
    var a, b := AllInTheme(p, objs, false), AllInTheme(p, objs, true);
    assert Verts(a) == Verts(b);
  }

  /** What a build in some theme puts at object `i`. */
  lemma BuiltInTheme(p: Palette, objs: seq<Styled>, dark: bool, i: nat)
    requires i < |objs|
    ensures var (g, o) := (Build(AllInTheme(p, objs, dark)), objs[i]);
            && |g.draws| == |g.fillInstances| == |g.strokeInstances| == |g.shadowInstances| == |objs|
            && g.fillInstances[i] == g.draws[i].fillInstance == FillInstance(o.base.cols, PaintColor(p, o.fill, dark))
            && g.strokeInstances[i] == g.draws[i].strokeInstance
                 == StrokeInstance(o.base.cols, PaintColor(p, o.stroke, dark))
            && g.shadowInstances[i] == g.draws[i].shadowInstance == ShadowInstance(o.base.cols, p.shadow(dark))
            && g.draws[i].fillToken == TokenOf(o.fill) && g.draws[i].strokeToken == TokenOf(o.stroke)
            && Len(g.draws[i].shadowRange) == |o.base.slices.shadow|
  {
    var a := AllInTheme(p, objs, dark);
    assert a[i] == InTheme(p, objs[i], dark);
    BuildDraws(a, i);
    BuildInstances(a, i);
    BuildLaysOut(a);
    hide Build, PaintColor, Start, Flat, AllInTheme;
  }

  /** Fading keeps a colour exactly at full opacity, or when there is no alpha to lose. */
  lemma FadedKeepsIff(c: Color, opacity: real)
    ensures Faded(c, opacity) == c <==> opacity >= 1.0 || c.a == 0.0
  {
    var k := Clamped(opacity);
    if c.a * k == c.a && c.a != 0.0 {
      assert c.a * (k - 1.0) == 0.0;
    }
  }

  /** Recolouring a paint by its token alone gives its colour in the new theme exactly when the paint has
      no token, full opacity, or a token that is transparent in the new theme. */
  lemma ToggleColor(p: Palette, paint: Paint, dark: bool)
    ensures (if TokenOf(paint).Some? then TokenColor(p, TokenOf(paint).value, dark) else PaintColor(p, paint, !dark))
              == PaintColor(p, paint, dark)
       <==> OpacityKept(p, paint, dark)
  {
    hide TokenColor, Faded;
    if paint.TokenPaint? { FadedKeepsIff(TokenColor(p, paint.name, dark), paint.opacity); }
  }

  /** Object `i` after the toggle reads as in a rebuild exactly when its paints and shadow allow it. */
  lemma ToggledInstance(p: Palette, objs: seq<Styled>, dark: bool, i: nat)
    requires DistinctIds(AllInTheme(p, objs, true)) && i < |objs|
    ensures var t := SetThemeStep(p, Rebuilt(AllInTheme(p, objs, !dark), !dark), dark).stored;
            var u := Upload(Build(AllInTheme(p, objs, dark)));
            && |t.fillInstances| == |t.strokeInstances| == |t.shadowInstances| == |objs|
            && |u.fillInstances| == |u.strokeInstances| == |u.shadowInstances| == |objs|
            && (InstancesAgree(t, u, i) <==> ToggleFits(p, objs[i], dark))
  {
    var a := AllInTheme(p, objs, !dark);
    IdsInTheme(p, objs, !dark);
    RebuiltRetains(a, !dark);
    AllInThemeCount(p, objs);
    SetThemeResolves(p, Rebuilt(a, !dark), a, dark, i);
    RebuiltDraws(a, !dark);
    BuiltInTheme(p, objs, !dark, i);
    BuiltInTheme(p, objs, dark, i);
    ToggleColor(p, objs[i].fill, dark);
    ToggleColor(p, objs[i].stroke, dark);
    hide Build, PlanOf, Retains, SetThemeStep, TokenColor, OpacityKept, PaintColor, AllInTheme, DistinctIds, TokenOf,
      Rebuilt;
  }

  lemma RebuiltDraws(a: seq<Baked>, dark: bool)
    ensures Rebuilt(a, dark).draws == Build(a).draws && Rebuilt(a, dark).dark == dark
    ensures Rebuilt(a, dark).stored == Upload(Build(a))
  {
    hide Build;
  }

  /** A toggle leaves the buffers of a rebuild in the new theme if and only if every token paint has full
      opacity or a token that is transparent in the new theme, and every object without a shadow finds the
      same shadow colour in both themes. */
  lemma ToggleIsRebuildIff(p: Palette, objs: seq<Styled>, dark: bool)
    requires DistinctIds(AllInTheme(p, objs, true))
    ensures SetThemeStep(p, Rebuilt(AllInTheme(p, objs, !dark), !dark), dark).stored
              == Upload(Build(AllInTheme(p, objs, dark)))
       <==> AllToggleFit(p, objs, dark)
  {
    hide *;
    var a, b := AllInTheme(p, objs, !dark), AllInTheme(p, objs, dark);
    var t, u := SetThemeStep(p, Rebuilt(a, !dark), dark).stored, Upload(Build(b));
    IdsInTheme(p, objs, !dark);
    RebuiltRetains(a, !dark);
    SetThemeKeeps(p, Rebuilt(a, !dark), a, dark);
    SameGeometry(p, objs);
    RebuiltDraws(a, !dark);
    ToggleKeepsText(p, Rebuilt(a, !dark), dark);
    CountsAre(p, objs, dark);
    UploadText(a);
    UploadText(b);
    SameVerticesTurns(t, Upload(Build(a)), u);
    forall i | 0 <= i < |objs| ensures InstancesAgree(t, u, i) <==> ToggleFits(p, objs[i], dark) {
      ToggledInstance(p, objs, dark, i);
    }
    StoredEqual(t, u);
    AllFitIs(p, objs, dark);
  }

  /** The same after any run of feeds, toggles and constructions, once the scene was fed in the old theme. */
  lemma ToggleAfterRunIff(geometry: (string, nat) -> Slices, p: Palette, first: seq<Baked>, theme: bool,
                          events: seq<Event>, objs: seq<Styled>, dark: bool)
    requires SceneOk(geometry, first) && EventsOk(geometry, events) && SceneOk(geometry, AllInTheme(p, objs, !dark))
    requires Run(p, Session(Rebuilt(first, theme), first), events).renderer.dark != dark
    ensures var (fed, stats) := FeedStep(Run(p, Session(Rebuilt(first, theme), first), events).renderer,
                                         AllInTheme(p, objs, !dark));
            !stats.needsRebuild ==>
              (SetThemeStep(p, fed, dark).stored == Upload(Build(AllInTheme(p, objs, dark)))
               <==> AllToggleFit(p, objs, dark))
  {
    hide *;
    EveryFeedRefinesRebuild(geometry, p, first, theme, events, AllInTheme(p, objs, !dark));
    SceneIds(geometry, AllInTheme(p, objs, !dark));
    IdsFromTheme(p, objs, !dark);
    ToggleIsRebuildIff(p, objs, dark);
  }

  lemma SceneIds(geometry: (string, nat) -> Slices, objs: seq<Baked>)
    requires SceneOk(geometry, objs)
    ensures DistinctIds(objs)
  {
  }

  lemma IdsFromTheme(p: Palette, objs: seq<Styled>, dark: bool)
    requires DistinctIds(AllInTheme(p, objs, dark))
    ensures DistinctIds(AllInTheme(p, objs, true))
  {
    var a, b := AllInTheme(p, objs, true), AllInTheme(p, objs, dark);
    forall i | 0 <= i < |objs| ensures a[i].id == b[i].id {}
    hide AllInTheme;
  }

  /** A half-transparent fill by an opaque token: the toggle does not leave what a rebuild would. */
  lemma HalfOpacityIsLost(p: Palette, o: Styled, name: string, dark: bool)
    requires o.fill == TokenPaint(name, 0.5) && TokenColor(p, name, dark).a == 1.0
    ensures SetThemeStep(p, Rebuilt(AllInTheme(p, [o], !dark), !dark), dark).stored
              != Upload(Build(AllInTheme(p, [o], dark)))
  {
    hide SetThemeStep, Upload, Build, Rebuilt, TokenColor;
    ToggleIsRebuildIff(p, [o], dark);
    assert !ToggleFits(p, [o][0], dark);
  }

  lemma UploadText(a: seq<Baked>)
    ensures Upload(Build(a)).textInstances == Build(a).textInstances
  {
    hide Build;
  }

  lemma SameVerticesTurns(t: Stored, s: Stored, u: Stored)
    requires SameVertices(t, s) && (SameVertices(s, u) || SameVertices(u, s))
    ensures SameVertices(t, u)
  {
  }

  lemma StoredEqual(t: Stored, u: Stored)
    requires SameVertices(t, u) && t.textInstances == u.textInstances
    requires |t.fillInstances| == |t.strokeInstances| == |t.shadowInstances|
    requires |u.fillInstances| == |u.strokeInstances| == |u.shadowInstances| == |t.fillInstances|
    ensures t == u <==> forall i :: 0 <= i < |t.fillInstances| ==> InstancesAgree(t, u, i)
  {
    if forall i :: 0 <= i < |t.fillInstances| ==> InstancesAgree(t, u, i) {
      forall i | 0 <= i < |t.fillInstances| ensures InstancesAgree(t, u, i) {}
      FromInstances(t, u);
    }
  }

  lemma FromInstances(t: Stored, u: Stored)
    requires SameVertices(t, u) && t.textInstances == u.textInstances
    requires |t.fillInstances| == |t.strokeInstances| == |t.shadowInstances|
    requires |u.fillInstances| == |u.strokeInstances| == |u.shadowInstances| == |t.fillInstances|
    requires forall i :: 0 <= i < |t.fillInstances| ==> InstancesAgree(t, u, i)
    ensures t == u
  {
    forall i | 0 <= i < |t.fillInstances|
      ensures t.fillInstances[i] == u.fillInstances[i] && t.strokeInstances[i] == u.strokeInstances[i]
           && t.shadowInstances[i] == u.shadowInstances[i]
    {
      assert InstancesAgree(t, u, i);
    }
  }

  lemma AllFitIs(p: Palette, objs: seq<Styled>, dark: bool)
    ensures AllToggleFit(p, objs, dark) <==> forall i :: 0 <= i < |objs| ==> ToggleFits(p, objs[i], dark)
  {
  }

  lemma CountsAre(p: Palette, objs: seq<Styled>, dark: bool)
    requires DistinctIds(AllInTheme(p, objs, true))
    ensures var t := SetThemeStep(p, Rebuilt(AllInTheme(p, objs, !dark), !dark), dark).stored;
            var u := Upload(Build(AllInTheme(p, objs, dark)));
            && |t.fillInstances| == |t.strokeInstances| == |t.shadowInstances| == |objs|
            && |u.fillInstances| == |u.strokeInstances| == |u.shadowInstances| == |objs|
  {
    var a, b := AllInTheme(p, objs, !dark), AllInTheme(p, objs, dark);
    IdsInTheme(p, objs, !dark);
    RebuiltRetains(a, !dark);
    SetThemeKeeps(p, Rebuilt(a, !dark), a, dark);
    RetainsStored(SetThemeStep(p, Rebuilt(a, !dark), dark), a);
    RetainsCount(SetThemeStep(p, Rebuilt(a, !dark), dark), a);
    BuildLaysOut(b);
    hide Build, PlanOf, Retains, SetThemeStep;
  }

  lemma ToggleKeepsText(p: Palette, st: RendererState, dark: bool)
    ensures SetThemeStep(p, st, dark).stored.textInstances == st.stored.textInstances
  {
    ThemedKeepsText(p, dark, st.stored, st.draws, |st.draws|);
    hide ThemedUpTo, ThemedDraw;
  }

  lemma {:induction false} ThemedKeepsText(p: Palette, dark: bool, s: Stored, draws: seq<ObjectDraw>, k: nat)
    requires k <= |draws|
    ensures ThemedUpTo(p, dark, s, draws, k).textInstances == s.textInstances
  {
    hide TokenColor;
    if k > 0 { ThemedKeepsText(p, dark, s, draws, k - 1); }
  }
}
