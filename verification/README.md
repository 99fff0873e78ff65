# Verified models of a local-first canvas

A local-first canvas has three parts with behaviour that is hard to get right by reading: a client
that applies edits optimistically and reconciles them with a server, a coordinator that hands out
single-writer leases and tails a frame log, and a renderer whose geometry is computed on the CPU and
patched in place on the device. This project models that logic and proves what it promises, for every
input and every run.

Coordinates, distances, colours and times are exact numbers (`int`, `nat`, `real`) instead of machine
integers and floats. Objects whose methods update fields are classes, loops are methods with
invariants, and each such method is proved against a specification function or predicate; the results
about whole runs are lemmas about those specifications.

## Modules

| area | modules |
|---|---|
| Incremental frame plan: merged buffers, diff, in-place patches | `Buffers`, `FramePlan`, `Renderer`, `PatchRefinement`, `PatchRuns`, `ThemeToggle`, `ObjectRendering` |
| Sync engine and outbox | `Decimal`, `Outbox`, `Ownership`, `SyncEngine`, `SyncRuns`, `PendingEdits` |
| Leases and frame log | `Lease`, `FileLease`, `FrameLog` |
| Computational geometry | `Planar`, `ConvexHull`, `ConcaveHull`, `DigTargets`, `CurveLod`, `CurveStops`, `StrokeDash`, `DashPattern`, `HitTest`, `ConvexRings` |
| Text | `GlyphAtlas`, `DistanceField`, `LineFlow`, `LineBreaks`, `TextPlacement`, `JustifiedText` |
| Caches, walks, parsers | `RenderCache`, `ClipRefs`, `PathParsers`, `PathAgreement`, `PathText` |
| Shared vocabulary | `Sequences` |

## Main results

- Patching refines rebuilding. After any run of theme toggles, feeds and reconstructions, one more
  feed either leaves the renderer untouched and asks for a rebuild, or leaves all nine buffers, the
  draw records and the plan equal to those of a fresh build; it asks exactly when objects, clips or
  element counts changed (`PatchRuns.EveryFeedRefinesRebuild`), and the class that writes the buffers
  element by element does just that (`ObjectRendering.ObjectRenderer.ApplyPlanDiff`), with its range
  assertion proved.
- A theme toggle leaves the buffers a rebuild in the new theme would upload if and only if every token
  paint has full opacity or a token that is transparent in the new theme, and every object without a shadow
  finds the same shadow colour in both themes; also after any run of feeds
  (`ThemeToggle.ToggleIsRebuildIff`, `ThemeToggle.ToggleAfterRunIff`).
- Over any calls the outbox is exactly what was authored and not settled since, and operations reach the
  transport for the first time in authoring order, none skipped, if and only if no reconnect resends an
  operation past an earlier one that was settled before it was sent (`SyncRuns.OutboxSafety`). Ownership
  counts are exact: a remote operation is held off exactly when it writes a field that an unsettled one writes
  (`PendingEdits.HeldOffIff`), so such a field stays in view as the user left it
  (`PendingEdits.PendingEditsSurvive`), and after any run, a reconnect and more local edits what shows is the
  snapshot with the unsettled operations applied (`PendingEdits.OptimismIsReplay`,
  `PendingEdits.ReconnectIsIdle`).
- At most one owner holds an unexpired latest grant in any interleaving with stale clocks, in memory and
  over files (`Lease.AtMostOneWriter`, `FileLease.FilesAllowOneWriter`). In memory a superseded token is
  dead for ever (`Lease.SupersededForEver`); over files it is in every run if and only if no two
  coordinators share an owner id (`FileLease.StayDeadIffOwnersApart`).
- The log codec round-trips, and a tail task delivers every frame not complete at its spawn if and only if
  it starts on a frame boundary and every read ends on one (`FrameLog.RoundTrip`,
  `FrameLog.SpawnedTailDeliversIff`).
- The monotone chain computes the convex hull; dig-in keeps it, in order, is never cut short by
  its pass cap, and has one outcome (`ConcaveHull.DigRunIsDetermined`); which points it may pull in is told by
  determinants and squared lengths alone (`DigTargets.EligibleIff`). Dash runs cover exactly the on-lengths of
  the pattern and follow the polyline.
- Flattening stays within tolerance, refines monotonically, and splits a piece exactly when a control is
  farther than the tolerance from every point of its chord (`CurveStops.FlatIff`,
  `CurveStops.EveryVertexIsNeeded`).
- Hit testing commutes with gesture deltas. In a strictly convex ring the even-odd test is told by
  orientation alone: strictly left of every edge is inside, strictly right of any is outside
  (`ConvexRings.InsideIff`, `ConvexRings.LeftIsInside`, `ConvexRings.RightIsOutside`).
- Atlas slots keep their texels for ever. The distance transform never reads above the octile distance
  to any feature (`DistanceField.AtMostOctile`), and never below the true distance if and only if its corner
  is covered (`DistanceField.NeverBelowIffCornerCovered`). Line breaking loses
  nothing, breaks only where it must, and has one outcome (`LineBreaks.LinesAreDetermined`); the placed
  glyphs stay inside the region if and only if no justified line but the last has both a gap and white space
  of some width (`JustifiedText.TextStaysIff`), for every text exactly in fonts whose white space has no width
  (`JustifiedText.JustifiesInsideIff`).
- A frame over a roomy cache serves exactly what was cached and the first missing items up to its cap
  (`RenderCache.ScheduleFrameWork`). The LRU scheduler warms the cache up at exactly its cap per frame, until a frame derives and defers
  nothing (`RenderCache.WarmUp`); clip depth is exact for every object whose parent chain ends, cycles
  elsewhere notwithstanding. On every text that the strict path parser accepts, the forgiving one agrees
  if and only if what follows the first white space it does not know is idle
  (`PathAgreement.ParsersAgreeIff`). Printed contours of any coordinates read back from both
  (`PathText.PrintedPathReadsBack`).

## Where the code and its comments differ

- `crates/coordination/src/file.rs:210-211` says a torn frame is read again. The offset at line 170
  advances over the whole read, so it is not: `FrameLog.TornReadLosesFrame` and
  `FrameLog.DeliversEverythingIff`. Nor is a frame delivered that was being appended when line 160 took the
  length to start from: `FrameLog.SpawnedTailDeliversIff`.
- `crates/coordination/src/file.rs:72-76` draws lease tokens from a counter of its own process, so two
  processes of one owner can draw the same token, and then the first holder renews after it was
  superseded: `FileLease.PerProcessCountersRepeat`. It is exactly shared owner ids that allow it
  (`FileLease.StayDeadIffOwnersApart`). `crates/server/src/registry.rs:91-92` documents owner ids as
  unique per process and lines 464-470 build them from the process id, which meets the condition among
  the processes running on one host at a time.
- `crates/renderer-core/src/text_layout.rs:848-866` relaxes against unreached cells, whose offset is
  `(0, 0)`, so the corner acts as a feature that may not be there. No distance reads below the true one
  if and only if the corner is a feature, or each of its neighbours has a feature at distance at most one
  (`DistanceField.NeverBelowIffCornerCovered`). The outside pass of a padded glyph meets this only when
  texel `(1, 1)` is ink (`DistanceField.PaddedOutsidePassIff`; `DistanceField.DotReadsLow` has a concrete
  mask that fails), the inside pass always does (`DistanceField.PaddedInsidePassIsHonest`).
- `crates/renderer-core/src/text_layout.rs:12-13` says a justified line that is not the last fills the
  region. The slack at line 124 is measured against the glyphs alone, so a stretched line overruns by the
  width of its own white space: it fills the region if and only if that width is zero
  (`TextPlacement.JustifyFillsIff`). In a region ten wide the "b" of "a b" on the first of two lines of unit
  wide characters ends at eleven (`JustifiedText.JustifiedLineOverruns`).
- `crates/renderer-core/src/tessellate.rs:455-456` says the forgiving tokenizer treats white space as a
  separator. It knows four white-space characters; any other before a command drops the rest of the
  path, which the strict parser reads, and any other among coordinates drops their command, too. The two
  still agree exactly when only separators and repeated closes are dropped:
  `PathAgreement.OtherSpaceAgreesIff`, `PathAgreement.CutCoordinatesDiffer`.
- `crates/renderer-wgpu/src/object_pipeline.rs:1277` recolours with the token alone, where a build also
  applies the paint's opacity (`crates/renderer-core/src/object_pipeline.rs:1059-1083`), and lines
  1266-1275 skip the shadow colour of objects that cast none: `ThemeToggle.ToggleIsRebuildIff`. A fill by an
  opaque token at opacity one half comes out opaque: `ThemeToggle.HalfOpacityIsLost`.

- `crates/renderer-core/src/frame_budget.rs:162-163` calls the overlap test half-open. Lines 165-168 compare
  with equality on every side: rectangles that share no more than a corner overlap
  (`RenderCache.RectsShareAPoint`).

## Model

| member | source | states |
|---|---|---|
| FramePlan.MegaBuffer.Push | crates/renderer-core/src/tessellate.rs:314-335 | appends the mesh with its indices moved to the current vertex count, and returns the index range it took |
| FramePlan.BuildSceneGeometry | crates/renderer-core/src/object_pipeline.rs:408-641 | the build loop yields the merged buffers, instances, clip draws and draw records of the specification `Build` |
| FramePlan.BuildLaysOut | crates/renderer-core/src/object_pipeline.rs:408-641 | every buffer of a build is its objects' parts end to end, indices rebased to where the object's vertices start, and there is one draw and one instance per object |
| FramePlan.BuildDraws | crates/renderer-core/src/object_pipeline.rs:408-641 | draw record `i` of the finished build points at exactly object `i`'s prefix-sum ranges in all buffers |
| FramePlan.BuildInstances | crates/renderer-core/src/object_pipeline.rs:408-641 | instance `i` of every pass holds object `i`'s matrix and that pass's colour |
| FramePlan.BuildClips | crates/renderer-core/src/object_pipeline.rs:503-520 | the clip buffer is the clip meshes end to end with indices rebased; the clip draws are those of the objects with a clip mesh, one each and in order, with that object's index, its clip reference as parent depth, and the prefix-sum range of its mesh |
| FramePlan.ClippersAre | crates/renderer-core/src/object_pipeline.rs:503-520 | the objects with a clip mesh, each once and in order |
| FramePlan.BuildFramePlan | crates/renderer-core/src/plan.rs:141-180 | the plan loop produces one entry per object with its handle, instances and ranges |
| FramePlan.DiffPlans | crates/renderer-core/src/plan.rs:184-219 | a rebuild when ids, their order, clip draws or clip references differ, otherwise the entry diffs in entry order |
| FramePlan.AppendEntry | crates/renderer-core/src/plan.rs:224-278 | a changed revision yields one geometry patch and supersedes the rest, otherwise one patch per changed matrix or colour |
| FramePlan.PatchInRange | crates/renderer-core/src/plan.rs:184-278 | every patch of a diff names an entry in range by its own id, is no rebuild, and re-sends geometry exactly when the revision changed |
| FramePlan.GeometryPatched | crates/renderer-core/src/plan.rs:224-238 | every entry with a changed revision has its geometry patch in the diff |
| Buffers.WriteBuffer | crates/renderer-wgpu/src/object_pipeline.rs:1374-1434 | a buffer write replaces exactly the addressed elements and leaves the rest, or nothing when it does not fit |
| Buffers.SplicePart | crates/renderer-wgpu/src/object_pipeline.rs:1374-1434 | writing an equally long part over part `i` of a merged buffer replaces that part and no other |
| Buffers.MixStep | crates/renderer-wgpu/src/object_pipeline.rs:1374-1434 | with equal lengths throughout, the write at the old scene's offset moves a buffer that holds `k` new parts and then old ones to `k + 1` new parts |
| Renderer.ReexpandIsLocal | crates/renderer-wgpu/src/object_pipeline.rs:1679-1705 | cutting object `i` out of the merged plan is in bounds, its index subtraction never underflows, and it gives back the object's own vertices and object-local indices |
| Renderer.FindDraw | crates/renderer-wgpu/src/object_pipeline.rs:1379-1381 | the first draw record with the id, or the number of records |
| PatchRefinement.GuardIsSameCounts | crates/renderer-core/src/object_pipeline.rs:1012-1053 | the size guard passes exactly when all five element counts of the object are unchanged |
| PatchRefinement.RangesAgree | crates/renderer-wgpu/src/object_pipeline.rs:1119-1131 | equal counts up to an object put it in the same ranges of both plans |
| PatchRefinement.InstanceWrite | crates/renderer-wgpu/src/object_pipeline.rs:1174-1228 | writing matrix and three colours brings the instance up to date in all four passes and touches no other instance and no vertex |
| PatchRefinement.UnchangedEntry | crates/renderer-wgpu/src/object_pipeline.rs:1157-1170 | the transform and style patches of an entry with an unchanged revision, applied in order, leave exactly the new instance |
| PatchRefinement.GeometryWrite | crates/renderer-wgpu/src/object_pipeline.rs:1374-1434 | the five guarded writes put the new object's vertices and rebased indices in place of the old one's in every buffer, and leave instances alone |
| PatchRefinement.EntryStep | crates/renderer-wgpu/src/object_pipeline.rs:1157-1186 | the patches of entry `k` take the buffers from `k` new objects followed by old ones to `k + 1` |
| PatchRefinement.RebuiltRetains | crates/renderer-wgpu/src/object_pipeline.rs:825-1064 | a freshly constructed renderer satisfies the invariant that ties buffers, draw records, plan and scene |
| PatchRuns.FitDecides | crates/renderer-wgpu/src/object_pipeline.rs:1116-1131 | all geometry patches pass the guard exactly when no object's counts changed |
| PatchRuns.FeedRefinesRebuild | crates/renderer-wgpu/src/object_pipeline.rs:1093-1150 | one feed: untouched and asking for a rebuild exactly when objects, clips or counts changed, otherwise equal to a fresh build |
| PatchRuns.RangesNeverMove | crates/renderer-wgpu/src/object_pipeline.rs:1119-1131 | in a feed that patches, every draw's ranges in the next plan are those of the retained one |
| PatchRuns.RestylingNeverRebuilds | crates/renderer-core/src/plan.rs:184-278 | a scene that only moved or recoloured its objects is always patched, to the state of a fresh build |
| PatchRuns.SetThemeKeeps | crates/renderer-wgpu/src/object_pipeline.rs:1257-1304 | a theme toggle keeps draw records, plan entries and instance buffers mirroring each other and rewrites no vertex or index |
| PatchRuns.SetThemeResolves | crates/renderer-wgpu/src/object_pipeline.rs:1257-1304 | after a toggle exactly the token-backed colours, and the shadow of objects that cast one, hold the new theme's colour; matrices stay |
| ThemeToggle.ToggleColor | crates/renderer-wgpu/src/object_pipeline.rs:1276-1293 | recolouring a paint by its token alone gives the colour a build computes exactly when the paint has no token, an opacity of one or more, or a token that is transparent in the new theme |
| ThemeToggle.ToggleIsRebuildIff | crates/renderer-wgpu/src/object_pipeline.rs:1257-1304 | a toggle leaves all nine buffers as a rebuild in the new theme would if and only if every token paint has an opacity of one or more or a token that is transparent in the new theme, and every object without a shadow finds the same shadow colour in both themes |
| ThemeToggle.ToggleAfterRunIff | crates/renderer-wgpu/src/object_pipeline.rs:1093-1304 | the same after any run of feeds, toggles and constructions, once the scene was fed in the old theme without asking for a rebuild |
| ThemeToggle.HalfOpacityIsLost | crates/renderer-wgpu/src/object_pipeline.rs:1276-1282 | an object filled by an opaque token at opacity one half: the toggle leaves other buffers than a rebuild |
| PatchRuns.RunKeeps | crates/renderer-wgpu/src/object_pipeline.rs:1093-1304 | any run of toggles, feeds and constructions keeps the mirror invariant |
| PatchRuns.EveryFeedRefinesRebuild | crates/renderer-wgpu/src/object_pipeline.rs:1093-1150 | after any run, a feed equals a fresh build of its scene or leaves the renderer as it was, and which of the two is decided by objects, clips and counts |
| PatchRuns.LastEventShows | crates/renderer-wgpu/src/object_pipeline.rs:1093-1304 | after any run, a feed with the same outline and counts leaves a fresh build of its objects and any other leaves everything as it was, and a toggle leaves the scene, in its theme |
| ObjectRendering.EarlierPatched | crates/renderer-core/src/plan.rs:184-278 | patches come in entry order: before a patch, every changed earlier object already had its geometry patch |
| ObjectRendering.FittingStaysPut | crates/renderer-wgpu/src/object_pipeline.rs:1119-1131 | when a geometry patch and all before it fit, its object has the same ranges in both plans, so the debug assertion never fires |
| ObjectRendering.ObjectRenderer.constructor | crates/renderer-wgpu/src/object_pipeline.rs:825-1064 | uploads a fresh build |
| ObjectRendering.ObjectRenderer.WriteInstanceMatrix | crates/renderer-wgpu/src/object_pipeline.rs:1187-1199 | writes the matrix of one instance in four buffers, colours kept |
| ObjectRendering.ObjectRenderer.WriteInstanceColor | crates/renderer-wgpu/src/object_pipeline.rs:1206-1228 | writes one pass's colour of one instance, matrix kept |
| ObjectRendering.ObjectRenderer.PatchFollowerGeometry | crates/renderer-wgpu/src/object_pipeline.rs:1374-1434 | writes the five vertex and index slices of one object when the guard passes, otherwise nothing, and says which |
| ObjectRendering.ObjectRenderer.ApplyPatch | crates/renderer-wgpu/src/object_pipeline.rs:1153-1179 | applies one patch to the buffers |
| ObjectRendering.ObjectRenderer.CheckPatches | crates/renderer-wgpu/src/object_pipeline.rs:1114-1128 | tells whether every geometry patch fits, with the range assertion proved on the way |
| ObjectRendering.ObjectRenderer.ApplyPlanDiff | crates/renderer-wgpu/src/object_pipeline.rs:1093-1150 | in-place feed: the whole new state, unchanged with a rebuild request or equal to a fresh build |
| ObjectRendering.ObjectRenderer.SetTheme | crates/renderer-wgpu/src/object_pipeline.rs:1257-1304 | the loops over draws and plan entries produce the specified state and keep the invariant |
| Decimal.RenderIntInjective | crates/client-runtime/src/outbox.rs:32-34 | different counters print differently |
| Outbox.OpIdKeyInjective | crates/client-runtime/src/outbox.rs:32-34 | the key `client:seq` identifies the operation, whatever characters the client id holds |
| Outbox.SortSorts | crates/client-runtime/src/outbox.rs:83-87 | sorting orders by sequence number, loses and invents no entry, and keeps entries of equal number as they were |
| Outbox.SortAscending | crates/client-runtime/src/outbox.rs:83-87 | sorting entries that were appended in order changes nothing |
| Outbox.InMemoryOutboxStore.Append | crates/client-runtime/src/outbox.rs:78-81 | appends one entry |
| Outbox.InMemoryOutboxStore.All | crates/client-runtime/src/outbox.rs:83-87 | returns a permutation of the entries in order of sequence number, those of equal number in the order appended |
| Outbox.InMemoryOutboxStore.Clear | crates/client-runtime/src/outbox.rs:98-101 | leaves no entry and the counter alone |
| Outbox.InMemoryOutboxStore.Remove | crates/client-runtime/src/outbox.rs:89-96 | removes exactly the named entries and keeps the order of the rest |
| Outbox.InMemoryOutboxStore.NextLocalSeq | crates/client-runtime/src/outbox.rs:103-106 | counts up by one and returns the new value |
| Ownership.Take | crates/client-runtime/src/sync_engine.rs:376-381 | raises each key's count by its multiplicity |
| Ownership.Release | crates/client-runtime/src/sync_engine.rs:383-399 | lowers each key's count by its multiplicity and reports, once each, exactly the keys that were owned and no longer are |
| Ownership.DropKeys | crates/client-runtime/src/sync_engine.rs:383-399 | an operation's recorded keys are exactly what leaving the outbox takes off every count |
| Ownership.SettledChain | crates/client-runtime/src/sync_engine.rs:286-310 | settling several operations one after the other settles each key once |
| SyncEngine.SyncEngine.Author | crates/client-runtime/src/sync_engine.rs:229-268 | refused operations change nothing, no-ops mint nothing, all others are applied, numbered, stored, queued and owned; the returned id and inverse are those of the operation |
| SyncEngine.SyncEngine.ApplyRemote | crates/client-runtime/src/sync_engine.rs:272-282 | a remote operation is applied exactly when it shares no key with an operation not yet settled and applies; the scene is then what applying it gives, and otherwise as it was |
| SyncEngine.SyncEngine.OnAck | crates/client-runtime/src/sync_engine.rs:286-298 | drops the acked entries, raises the base revision, and settles exactly the keys owned before and not after |
| SyncEngine.SyncEngine.OnRejected | crates/client-runtime/src/sync_engine.rs:300-310 | the same without a revision |
| SyncEngine.SyncEngine.ReconcileSnapshot | crates/client-runtime/src/sync_engine.rs:312-344 | a stale snapshot changes nothing; a fresh one is replayed over and resent, and both ownership maps come back as they were |
| SyncEngine.SyncEngine.Flush | crates/client-runtime/src/sync_engine.rs:348-369 | hands all pending operations to the transport in one batch and disarms the timer |
| SyncEngine.SyncEngine.TakeSettledKeys | crates/client-runtime/src/sync_engine.rs:181-183 | drains the settled keys |
| SyncRuns.AuthorKeeps | crates/client-runtime/src/sync_engine.rs:229-268 | authoring keeps the run invariant |
| SyncRuns.AckKeeps | crates/client-runtime/src/sync_engine.rs:286-310 | acks and rejects of any ids keep it |
| SyncRuns.ReconcileKeeps | crates/client-runtime/src/sync_engine.rs:312-344 | reconnect replay keeps it: what is resent was authored, and what is pending stays pending |
| SyncRuns.FlushKeeps | crates/client-runtime/src/sync_engine.rs:348-374 | flushing keeps it |
| SyncRuns.OutboxSafety | crates/client-runtime/src/sync_engine.rs:229-374 | over any calls: the outbox is what was authored and not acked or rejected since, each such operation is sent or pending, the timer is armed exactly while something is pending, and first sends come in authoring order without gaps if and only if no reconnect found, of two unsent operations, the earlier settled and the later not |
| SyncRuns.StepInOrderIff | crates/client-runtime/src/sync_engine.rs:312-369 | one call keeps the order of first sends exactly when it is no such reconnect, and an order once broken stays broken |
| SyncRuns.LegalRunsKeepOrder | crates/client-runtime/src/sync_engine.rs:286-374 | in particular the order holds over every run whose acks and rejects name sent operations |
| SyncRuns.BaseRevisionNeverFalls | crates/client-runtime/src/sync_engine.rs:286-344 | the base revision never falls, over any calls |
| SyncRuns.EnvelopesCarryKnownRevisions | crates/client-runtime/src/sync_engine.rs:229-268 | over any calls, each envelope's base revision is one the engine had reached, and they rise in authoring order |
| SyncRuns.EarlyAckReorders | crates/client-runtime/src/sync_engine.rs:286-374 | a concrete run: acking an unsent operation before a reconnect lets a later one reach the transport first |
| PendingEdits.OwnsWhatItWrites | crates/client-runtime/src/sync_engine.rs:54-63 | an operation owns the key of a field of an object exactly when it, or a member of the batch, writes that field |
| PendingEdits.KeyInjective | crates/client-runtime/src/sync_engine.rs:54-63 | a key names one field of one object, whatever the id holds |
| PendingEdits.HeldOffIff | crates/client-runtime/src/sync_engine.rs:65-71 | a remote operation is held off exactly when it writes a field that an operation not yet settled writes |
| PendingEdits.PendingEditsSurvive | crates/client-runtime/src/sync_engine.rs:272-282 | while an operation is not settled, remote operations, acks, rejects, flushes and local writes elsewhere leave every field it writes as it shows, for any application that changes only the fields an operation writes |
| PendingEdits.OptimismIsReplay | crates/client-runtime/src/sync_engine.rs:229-344 | if what shows is a snapshot with the unsettled operations replayed, it still is after any local edits and flushes |
| PendingEdits.ReconnectIsIdle | crates/client-runtime/src/sync_engine.rs:312-344 | after any run, a reconnect and any local edits, a reconnect to the same snapshot changes nothing in view |
| Lease.TokenInjective | crates/coordination/src/inmem.rs:80-83 | tokens of different owners or counts differ, even when owner names hold dashes |
| Lease.InMemoryCoordinator.AcquireLease | crates/coordination/src/inmem.rs:96-124 | refuses exactly when another owner holds an unexpired row, otherwise writes the row with a fresh token and the new expiry |
| Lease.InMemoryCoordinator.Renew | crates/coordination/src/inmem.rs:126-144 | extends exactly when token and owner match an unexpired row |
| Lease.InMemoryCoordinator.Release | crates/coordination/src/inmem.rs:146-154 | removes the row exactly when token and owner match |
| Lease.InMemoryCoordinator.FindOwner | crates/coordination/src/inmem.rs:156-164 | the owner of an unexpired row, if any |
| Lease.ExecuteKeepsExclusive | crates/coordination/src/inmem.rs:96-164 | every interleaving of calls with stale clock readings keeps exclusion |
| Lease.AtMostOneWriter | crates/coordination/src/inmem.rs:96-164 | two owners with unexpired, unreleased latest grants on one canvas are the same owner, and the table names it |
| Lease.ReplacedIsRetired | crates/coordination/src/inmem.rs:96-154 | a row that a call replaces or removes retires its token |
| Lease.SupersededForEver | crates/coordination/src/inmem.rs:126-154 | a retired token never again renews or releases, whatever happens later |
| Lease.RevivedIff | crates/coordination/src/inmem.rs:96-154 | whatever tokens are drawn, a lease that is not in the table comes back at some point of a run if and only if the run grants an acquire that draws its token again |
| FileLease.FileCoordinator.NextToken | crates/coordination/src/file.rs:72-75 | owner and the coordinator's own counter, which goes up by one |
| FileLease.FileCoordinator.AcquireLease | crates/coordination/src/file.rs:228-258 | grants exactly when no other owner holds an unexpired row; uses up a token even when refused |
| FileLease.FileCoordinator.Renew | crates/coordination/src/file.rs:260-286 | extends exactly when token and owner match an unexpired row |
| FileLease.FileCoordinator.Release | crates/coordination/src/file.rs:288-297 | removes the row exactly when token and owner match |
| FileLease.FilesAllowOneWriter | crates/coordination/src/file.rs:228-297 | over any interleaving of any coordinators, tokens drawn before the lock is taken, two owners with unexpired, unreleased latest grants on one canvas are the same |
| FileLease.NextTokenIsNew | crates/coordination/src/file.rs:72-75 | with owner ids kept apart, the token a coordinator draws next was never drawn by any |
| FileLease.DoAllKeepsSound | crates/coordination/src/file.rs:228-297 | with owner ids kept apart, every run keeps tokens in use, waiting and retired apart |
| FileLease.StayDeadIffOwnersApart | crates/server/src/registry.rs:91-92 | superseded tokens stay dead in every run of the file coordinators if and only if no two of them use the same owner id |
| FileLease.PerProcessCountersRepeat | crates/coordination/src/file.rs:72-75 | a concrete run: one coordinator acquires twice, another of the same owner acquires once, and the superseded first token renews |
| FrameLog.LeWeights | crates/coordination/src/file.rs:203-216 | the length prefix counts its first byte once and every further one 256 times more than the one before |
| FrameLog.LeRoundTrip | crates/coordination/src/file.rs:203-216 | the length prefix, least significant byte first, decodes to what was encoded |
| FrameLog.DecodeFrames | crates/coordination/src/file.rs:210-224 | the index loop returns the leading whole frames |
| FrameLog.LogFile.AppendFrame | crates/coordination/src/file.rs:198-208 | appends length and payload, or refuses a payload too long for the prefix |
| FrameLog.TailTask.Poll | crates/coordination/src/file.rs:163-180 | one poll delivers the whole frames of what it read and moves the offset over all of it; on a log shorter than the offset it delivers nothing and goes back to its end |
| FrameLog.RoundTrip | crates/coordination/src/file.rs:197-224 | decoding any appended frames, with or without a torn one behind them, gives exactly those frames |
| FrameLog.DecodedBytes | crates/coordination/src/file.rs:212-224 | what is decoded re-encodes to the bytes it was read from |
| FrameLog.DeliversEverythingIff | crates/coordination/src/file.rs:156-182 | a run of polls delivers the very bytes it read if and only if no read ended inside a frame |
| FrameLog.WholeIffBoundary | crates/coordination/src/file.rs:156-182 | a read from a boundary is whole exactly when it ends on a boundary |
| FrameLog.BoundaryReadsDeliver | crates/coordination/src/file.rs:156-182 | reads between boundaries deliver every frame once and in order |
| FrameLog.DeliversFramesIff | crates/coordination/src/file.rs:156-182 | all that was read is delivered if and only if every read ended on a frame boundary |
| FrameLog.SpawnedTailDeliversIff | crates/coordination/src/file.rs:156-182 | whatever length the log had at spawn, the task delivers exactly the frames not complete then, up to a boundary it reaches, if and only if it started on a boundary and every read ended on one |
| FrameLog.TornReadLosesFrame | crates/coordination/src/file.rs:166-174 | a read that catches the writer inside a frame loses that frame for good |
| ConvexHull.PopRightTurns | crates/renderer-core/src/outline.rs:197-209 | pops while the top two and the next point do not turn left, and stops at a left turn or at the floor |
| ConvexHull.LowerChain | crates/renderer-core/src/outline.rs:194-201 | the left-to-right sweep yields a left-turning chain with every point on or left of it |
| ConvexHull.UpperChain | crates/renderer-core/src/outline.rs:202-210 | the same from right to left on top of the lower chain, whose doubled first point goes again |
| ConvexHull.Round | crates/renderer-core/src/outline.rs:194-210 | one round of popping and pushing keeps the chain invariant |
| ConvexHull.JoinedIsHull | crates/renderer-core/src/outline.rs:181-213 | the joined chains are the hull unless all points are collinear |
| ConvexHull.ConvexHull | crates/renderer-core/src/outline.rs:181-213 | input points only; for points not all collinear every vertex off an edge is strictly left of it and every point on or left of it; for distinct collinear points the two extremes |
| ConcaveHull.BestDigCandidate | crates/renderer-core/src/outline.rs:247-284 | among edges no shorter than the threshold and points off the hull, near their middle and nearer than the edge is long, the pair with the greatest edge length minus distance, and of equal ones the first in edge order, then point order; nothing exactly when there is no such pair |
| ConcaveHull.MeanNearestNeighbor | crates/renderer-core/src/outline.rs:288-306 | the mean over all points of the distance to the nearest other point |
| ConcaveHull.SumRootsSplit | crates/renderer-core/src/outline.rs:288-306 | the sum behind the mean is additive over any split, and one distance contributes its root |
| ConcaveHull.DigIn | crates/renderer-core/src/outline.rs:229-237 | keeps the start outline's vertices in order, adds distinct input points only, and goes by passes that each put the best point of that moment between the ends of its edge, up to one that finds nothing: the pass cap never stops it |
| ConcaveHull.DigRunIsDetermined | crates/renderer-core/src/outline.rs:229-237 | hull, points and threshold determine the passes: any two runs from the same hull are equal |
| ConcaveHull.ConcaveHull | crates/renderer-core/src/outline.rs:218-238 | the dig-in of the convex hull with the density threshold |
| ConcaveHull.EvenSpacing | crates/renderer-core/src/outline.rs:224-227 | where every point has its nearest neighbour at one spacing the threshold is two and a half times the largest of that spacing, the tolerance and epsilon |
| ConcaveHull.Bound | crates/renderer-core/src/outline.rs:102-121 | the least box around the outline |
| ConcaveHull.HullSupports | crates/renderer-core/src/outline.rs:181-213 | in every direction some hull vertex lies as far out as any input point |
| ConcaveHull.DigInKeepsBox | crates/renderer-core/src/outline.rs:102-121 | an outline that keeps the hull's vertices and uses input points only has the box of the whole cloud |
| DigTargets.NoNearerPoint | crates/renderer-core/src/outline.rs:535-552 | on an edge long enough to project on, or on a point, no point of the edge is nearer than the distance used |
| DigTargets.EligibleIff | crates/renderer-core/src/outline.rs:256-275 | a point may be pulled in on an edge if and only if it is off the hull, the squared length exceeds epsilon and is no less than the threshold's square, the foot keeps a twentieth of the edge from both ends, and the determinant is within the squared length |
| DigTargets.ScoreIs | crates/renderer-core/src/outline.rs:276-279 | score times edge length is the squared length less the size of the determinant |
| DigTargets.BestIsNearest | crates/renderer-core/src/outline.rs:276-283 | of the points open to edges of one length the one pulled in is nearest to its line |
| CurveLod.Subdivide | crates/renderer-core/src/curve_lod.rs:79-94 | pushes exactly the interior vertices of the adaptive subdivision |
| CurveLod.FlattenCubic | crates/renderer-core/src/curve_lod.rs:61-73 | the end points with the interior vertices between them |
| CurveLod.HalvesArePieces | crates/renderer-core/src/curve_lod.rs:79-94 | the two halves are the curve over the two halves of the parameter interval |
| CurveLod.FlatStaysNear | crates/renderer-core/src/curve_lod.rs:96-119 | a piece that passes the flatness test lies within the tolerance of its chord at every parameter |
| CurveLod.FlattenErrorBound | crates/renderer-core/src/curve_lod.rs:61-119 | vertices are the curve at strictly increasing dyadic parameters from 0 to 1, and between neighbours the curve stays within the flatness asked for of the chord unless the depth cap was hit; a flatness that is not positive stands for the least one |
| CurveLod.FinerRefinesCoarser | crates/renderer-core/src/curve_lod.rs:61-119 | the polyline for a coarser tolerance is a subsequence of the one for a finer tolerance, a flatness that is not positive standing for the least one |
| CurveStops.NearestOnSegment | crates/renderer-core/src/curve_lod.rs:104-119 | on a chord long enough to project on, or on a point, no chord point is nearer than the distance the test uses |
| CurveStops.FlatIff | crates/renderer-core/src/curve_lod.rs:96-119 | a piece is left whole exactly when each control has some chord point within the tolerance; on a chord too short to project on, exactly when each is that near its start |
| CurveStops.EndPointsOnlyIff | crates/renderer-core/src/curve_lod.rs:61-94 | a curve flattens to exactly its end points if and only if both controls are within the flatness of its chord |
| CurveStops.EveryVertexIsNeeded | crates/renderer-core/src/curve_lod.rs:79-119 | every interior vertex is the middle of a piece with a control farther than the tolerance from every point of its chord |
| StrokeDash.OnInSpan | crates/renderer-core/src/stroke_expand.rs:351-395 | the parity of the one span that holds a length decides whether the pattern is on there |
| StrokeDash.UnitSpeed | crates/renderer-core/src/stroke_expand.rs:364-378 | walking a segment moves at unit speed and ends at its far vertex |
| StrokeDash.SkipLeading | crates/renderer-core/src/stroke_expand.rs:351-357 | stops at the first positive entry |
| StrokeDash.NextSpan | crates/renderer-core/src/stroke_expand.rs:380-390 | the flip loop terminates at the next span of positive length with that span's parity |
| StrokeDash.CrossBoundary | crates/renderer-core/src/stroke_expand.rs:374-403 | reaching a span's end keeps what is painted exact, whether a run goes on, ends or starts |
| StrokeDash.WalkSegment | crates/renderer-core/src/stroke_expand.rs:364-410 | the inner loop terminates and advances the invariant by one segment |
| StrokeDash.DashSegments | crates/renderer-core/src/stroke_expand.rs:338-417 | fewer than two points give nothing, an unusable pattern the whole polyline; otherwise the runs are in order with gaps between them, cover exactly the lengths where the parity pattern is on, and follow the polyline at those lengths skipping no vertex but those of segments too short to walk |
| DashPattern.PatternTurns | crates/renderer-core/src/stroke_expand.rs:351-395 | one sum of the positive entries later a pattern of even length is the same, and one of odd length its opposite |
| DashPattern.FirstTurnAlternates | crates/renderer-core/src/stroke_expand.rs:351-395 | within the first turn the entries are on and off by turns, the first one on |
| DashPattern.DrawnLength | crates/renderer-core/src/stroke_expand.rs:359-404 | with true segment lengths consecutive points of a run are as far apart as their arc lengths, but for segments too short to walk |
| HitTest.InverseIsTwoSided | crates/renderer-core/src/hit_test_object.rs:159-190 | there is an inverse exactly above the determinant threshold, and it is two-sided |
| HitTest.Mat3Mul | crates/renderer-core/src/hit_test_object.rs:202-210 | the loop computes the product that acts as one matrix after the other |
| HitTest.MulAssociative | crates/renderer-core/src/hit_test_object.rs:202-210 | the product is associative |
| HitTest.ApplyComposes | crates/renderer-core/src/hit_test_object.rs:193-210 | applying a product is applying one matrix after the other, points at infinity included |
| HitTest.WorldLocalRoundTrip | crates/renderer-core/src/hit_test_object.rs:329-337 | a world point maps to a local point if and only if the transform maps that local point to it |
| HitTest.LocalPointEquivariant | crates/renderer-core/src/hit_test_object.rs:329-337 | a delta on object and pointer leaves the local point unchanged |
| HitTest.PointInPolygon | crates/renderer-core/src/hit_test_object.rs:342-363 | the loop computes the parity of edges that the ray meets; what that means is told by the rows of `ConvexRings` |
| HitTest.InsideIsInBox | crates/renderer-core/src/hit_test_object.rs:342-363 | a point that counts as inside lies in the half-open bounding box |
| HitTest.RingStart | crates/renderer-core/src/hit_test_object.rs:342-363 | where the ring starts does not matter |
| HitTest.RectangleIsHalfOpen | crates/renderer-core/src/hit_test_object.rs:339-363 | a rectangle holds its left and top sides and not its right and bottom ones |
| ConvexRings.CrossesBySide | crates/renderer-core/src/hit_test_object.rs:353-357 | the ray meets an edge that straddles the point's level exactly when the point is on the left of the edge directed upwards, by the sign of the cross product |
| ConvexRings.InsideIff | crates/renderer-core/src/hit_test_object.rs:342-363 | in a strictly convex counter-clockwise ring a point is inside if and only if it is strictly left of the edge that rises across its level and not right of the one that falls |
| ConvexRings.LeftIsInside | crates/renderer-core/src/hit_test_object.rs:342-363 | a point strictly left of every edge of such a ring is inside |
| ConvexRings.RightIsOutside | crates/renderer-core/src/hit_test_object.rs:342-363 | a point strictly right of some edge of such a ring is outside |
| ConvexRings.RingReversed | crates/renderer-core/src/hit_test_object.rs:342-363 | which way round the ring goes does not matter |
| ConvexRings.TriangleHolds | crates/renderer-core/src/hit_test_object.rs:342-363 | a triangle of either orientation holds the points strictly on the inner side of all edges and none strictly on the outer side of any |
| HitTest.HitTestObject | crates/renderer-core/src/hit_test_object.rs:367-377 | a miss when there is no local point, otherwise the polygon test there |
| HitTest.HitIsImage | crates/renderer-core/src/hit_test_object.rs:367-377 | a hit if and only if the transform maps some inside point to the pointer |
| HitTest.GestureEquivariance | crates/renderer-core/src/hit_test_object.rs:200-210 | hit testing `D*M` at `D(p)` equals hit testing `M` at `p` while the product stays above the threshold, and never hits below it |
| HitTest.ResizeTracksPointer | crates/renderer-core/src/hit_test_object.rs:238-281 | a resize fixes its anchor and, axis by axis, carries the grabbed point to the pointer where the handle scales that axis and was grabbed off the anchor, and leaves its coordinate alone otherwise |
| GlyphAtlas.AllocateKeeps | crates/renderer-core/src/text_layout.rs:628-644 | a granted cell has the asked size, is in bounds and at least one texel away from every cell before; a refusal keeps all of that too |
| GlyphAtlas.RunStaysApart | crates/renderer-core/src/text_layout.rs:628-644 | over any run of requests, granted or refused, all cells are in bounds and pairwise at least one texel apart |
| GlyphAtlas.GrantedIff | crates/renderer-core/src/text_layout.rs:628-644 | a request that is smaller than the atlas is refused only when its spot leaves too little height below it |
| GlyphAtlas.RunIsTight | crates/renderer-core/src/text_layout.rs:628-644 | in a run without refusals every cell goes one texel right of the one before, or, where that does not fit, to the left edge one texel below its row's tallest |
| GlyphAtlas.FirstCell | crates/renderer-core/src/text_layout.rs:628-644 | the first cell goes to the corner, one row lower if it needs the whole width |
| GlyphAtlas.IndexInjective | crates/renderer-core/src/text_layout.rs:562-572 | different texels of the atlas have different indices in the flat buffer |
| GlyphAtlas.OthersShow | crates/renderer-core/src/text_layout.rs:562-572 | writing one cell leaves what every other shows |
| GlyphAtlas.Blit | crates/renderer-core/src/text_layout.rs:562-572 | the write loops put the raster into its cell and change nothing outside it |
| GlyphAtlas.Median3Is | crates/renderer-core/src/text_layout.rs:713-715 | the median is the third value besides minimum and maximum |
| GlyphAtlas.FieldTexels | crates/renderer-core/src/text_layout.rs:472-509 | three field channels go to red, green and blue with their median as alpha, a single one to all four |
| GlyphAtlas.CoverageTexels | crates/renderer-core/src/text_layout.rs:562-572 | texel of row and column is the raster value there in all four channels |
| GlyphAtlas.UvFrames | crates/renderer-core/src/text_layout.rs:605-616 | the entry's corners are its cell's, as fractions of the atlas |
| GlyphAtlas.EntryScales | crates/renderer-core/src/text_layout.rs:613-621 | size and bearings are the cell's and the glyph's divided by the oversampling, and unscaled when that is below one |
| GlyphAtlas.StaysClear | crates/renderer-core/src/text_layout.rs:529-541 | texels outside all cells stay clear, so nothing of a neighbour lies around a cell |
| GlyphAtlas.MsdfAtlas.AllocateCell | crates/renderer-core/src/text_layout.rs:628-644 | moves the cursor and keeps every slot valid |
| GlyphAtlas.MsdfAtlas.GenerateCoverageGlyph | crates/renderer-core/src/text_layout.rs:541-586 | known keys return their entry, blank ones an entry without extent, a full atlas nothing and changes no texel or entry; otherwise the allotted cell shows the source raster and is registered with its corners, scaled size and bearings; earlier slots and entries stay, and so do clear surroundings |
| GlyphAtlas.MsdfAtlas.GenerateGlyph | crates/renderer-core/src/text_layout.rs:444-529 | the same for the padded distance-field cell, its bearings moved out by the padding |
| DistanceField.RelaxNear | crates/renderer-core/src/text_layout.rs:848-866 | a relaxation step costs at most its own length in the octile bound: one for a straight step, any number whose square is at least two for a diagonal one |
| DistanceField.ForwardStep | crates/renderer-core/src/text_layout.rs:868-885 | the forward sweep leaves a witnessed distance no larger than the octile distance to any source above that is no farther to the right than above |
| DistanceField.BackwardStep | crates/renderer-core/src/text_layout.rs:886-903 | after the backward sweep that holds for all sources |
| DistanceField.Sweep | crates/renderer-core/src/text_layout.rs:832-903 | both sweeps, in place: every cell has a witness within its offset on each axis, carries that witness's sub-texel offset, and is no farther than any source |
| DistanceField.AtMostOctile | crates/renderer-core/src/text_layout.rs:868-903 | after both sweeps no cell but perhaps a blank corner is farther from any feature than the octile distance, however closely the root of two is approached from above |
| DistanceField.DiagonalAtMost | crates/renderer-core/src/text_layout.rs:868-903 | a feature `k` diagonal steps away is at squared distance at most `2 * k * k` |
| DistanceField.EuclideanDistanceToOther | crates/renderer-core/src/text_layout.rs:820-914 | hands out, per cell, the root of the swept distance less the carried sub-texel offset, never negative; no swept distance is below the true one if and only if the corner is covered |
| DistanceField.DistanceIsSandwiched | crates/renderer-core/src/text_layout.rs:820-903 | when cell `(0, 0)` is a feature, every distance is finite, never below the true distance to some feature and never above the octile distance to any, nor above the Manhattan distance |
| DistanceField.CorrectedIsSandwiched | crates/renderer-core/src/text_layout.rs:905-914 | then what is handed out is at least some feature's distance less its sub-texel offset, and at most the octile distance to each |
| DistanceField.BesideBeatsCorner | crates/renderer-core/src/text_layout.rs:848-866 | a feature beside a neighbour of the corner is no farther from any cell on its side than the corner is |
| DistanceField.NeverBelowIffCornerCovered | crates/renderer-core/src/text_layout.rs:832-903 | no cell, the corner included, reads below the distance to its nearest feature if and only if the corner is a feature or each neighbour it has, and it has one, has a feature at distance at most one |
| DistanceField.PaddedOutsidePassIff | crates/renderer-core/src/text_layout.rs:756-770 | the outside pass of a padded glyph, whose features are its ink, has no cell that reads too low if and only if texel `(1, 1)` is ink |
| DistanceField.PaddedInsidePassIsHonest | crates/renderer-core/src/text_layout.rs:756-770 | the inside pass of a padded glyph has none |
| DistanceField.DotReadsLow | crates/renderer-core/src/text_layout.rs:832-866 | a single ink texel in a five by five cell: the texel beside the corner reads at most one where the true squared distance is five |
| LineFlow.FinalizeLine | crates/renderer-core/src/text_layout.rs:262-300 | the width up to the last visible token, the width of the visible tokens alone, the number of white-space tokens strictly between two visible ones, and the tallest run size or the default |
| LineFlow.WrapLine | crates/renderer-core/src/text_layout.rs:228-236 | breaking before a word that does not fit is a justified break and leaves a fitting line |
| LineFlow.WrapWord | crates/renderer-core/src/text_layout.rs:238-247 | breaking inside a word happens only when the word has the line to itself, and before the first glyph that does not fit |
| LineFlow.FlowLines | crates/renderer-core/src/text_layout.rs:168-260 | lines are consecutive stretches of the text, each ended by a newline, by a wrap that was needed, or by the end; with positive width and non-negative advances each fits unless it is one visible glyph, placed first |
| LineFlow.NothingLost | crates/renderer-core/src/text_layout.rs:168-260 | every character but the newlines is on exactly one line, in reading order |
| LineFlow.InnerGapsAre | crates/renderer-core/src/text_layout.rs:274-291 | the running count of pending white space ends at the number of white-space tokens strictly between two visible ones |
| LineBreaks.LinesAreDetermined | crates/renderer-core/src/text_layout.rs:168-310 | text, font and width determine the lines: any two lists of lines that meet the contract of the flow are equal, in cuts, widths, gaps and heights |
| TextPlacement.PlacedMarks | crates/renderer-core/src/text_layout.rs:136-161 | the placements of a list of lines are its visible characters with their size and run, in order |
| TextPlacement.PlaceLine | crates/renderer-core/src/text_layout.rs:131-159 | each visible token goes where the tokens before it leave the pen, every gap after a visible token widened by the stretch |
| TextPlacement.LinesStack | crates/renderer-core/src/text_layout.rs:131-160 | every placement is a visible token of a line, right of the left edge of its line by the advances before it and a stretch per gap, and below the top by the heights of the lines before |
| TextPlacement.LineEnd | crates/renderer-core/src/text_layout.rs:119-130 | a fitting line ends at its visible width; stretched, it ends past the region by the width of its white space up to the last glyph |
| TextPlacement.JustifyFillsIff | crates/renderer-core/src/text_layout.rs:12-13 | a justified line that is not the last fills the region if and only if, having gaps, its white space has no width, or, having none, it is as wide as the region |
| TextPlacement.GlyphsStayInside | crates/renderer-core/src/text_layout.rs:113-158 | every alignment keeps every glyph of a fitting line inside the region unless it stretches the line past it; a lone wider glyph starts at its left edge |
| TextPlacement.AllInRegionIff | crates/renderer-core/src/text_layout.rs:111-161 | in a layout of fitting lines every glyph ends inside the region or starts at its left edge if and only if no line but the last is stretched with white space of some width |
| TextPlacement.LayoutRuns | crates/renderer-core/src/text_layout.rs:78-163 | for all four alignments every visible character of the text is placed exactly once, in reading order, at the pen position its predecessors and its line leave; with positive width and non-negative advances all glyphs stay in the region if and only if no line is stretched past it |
| JustifiedText.TextStaysIff | crates/renderer-core/src/text_layout.rs:78-163 | with positive width and non-negative advances the glyphs of a text stay in the region if and only if it is not justified or no line of it but the last has both white space between visible characters and white space of some width before its last visible one |
| JustifiedText.ThinTextStays | crates/renderer-core/src/text_layout.rs:119-130 | a text whose white space has no width is never stretched past the region |
| JustifiedText.JustifiesInsideIff | crates/renderer-core/src/text_layout.rs:12-13 | a font with a visible character keeps every justified text inside every region if and only if its white space has no width at any size |
| JustifiedText.JustifiedLineOverruns | crates/renderer-core/src/text_layout.rs:119-130 | the text "a b", newline, "c" with unit advances, justified in a region ten wide: whatever the flow returns, "b" is placed at ten and ends at eleven |
| TextPlacement.Margins | crates/renderer-core/src/text_layout.rs:113-118 | the slack goes to the right, to the left, or to both sides alike |
| TextPlacement.VerticalMargins | crates/renderer-core/src/text_layout.rs:96-109 | bottom alignment puts the bottom of the last line's metric box on the region's bottom, middle alignment leaves equal space above the first line and below that box |
| RenderCache.RenderDataCache.GetOrInsert | crates/renderer-core/src/render_cache.rs:74-105 | returns what deriving the id at the revision gives, derives only on a miss or stale revision, and never evicts the id it returns |
| RenderCache.RenderDataCache.EvictIfNeeded | crates/renderer-core/src/render_cache.rs:134-150 | over capacity exactly one least recently used entry other than the protected one goes |
| RenderCache.OrderSorts | crates/renderer-core/src/frame_budget.rs:130-139 | the schedule is a reordering of the visible items, gesture target first, larger before smaller |
| RenderCache.OrderIsStable | crates/renderer-core/src/frame_budget.rs:128-139 | items of equal rank keep scene order |
| RenderCache.RectsShareAPoint | crates/renderer-core/src/frame_budget.rs:164-169 | rectangles overlap exactly when they share a point, sides included |
| RenderCache.VisibleAre | crates/renderer-core/src/frame_budget.rs:117-127 | culled are exactly the items that share no point with the viewport, the gesture target excepted |
| RenderCache.ScheduleFrameWork | crates/renderer-core/src/frame_budget.rs:99-160 | processed, deferred, culled and hits add up, and the tier counts to processed and hits; derives equal processed and stay within the cap; with distinct ids and room, cached afterwards is exactly what was before and the first missing items up to the cap, each tier counts its items that are cached, nothing is evicted, and the gesture target is never deferred |
| RenderCache.WarmUp | crates/renderer-core/src/frame_budget.rs:99-160 | frame after frame over unchanged items: after `n + 1` frames the missing count is what it was less `n + 1` times the cap, floored at zero, and once `n` frames covered it the last frame derives and defers nothing and hits every item |
| RenderCache.GestureLeads | crates/renderer-core/src/frame_budget.rs:130-139 | the gesture target is scheduled first |
| ClipRefs.ClipRefFor | crates/renderer-core/src/object_pipeline.rs:666-687 | the memoised walk terminates on every parent graph, keeps earlier memo entries, and returns the exact clip depth of every object whose parent chain ends |
| ClipRefs.ComputeClipRefs | crates/renderer-core/src/object_pipeline.rs:649-660 | every object gets an entry, exact for all whose chain ends |
| ClipRefs.DepthStep | crates/renderer-core/src/object_pipeline.rs:677-683 | saturating addition of the parent's flag is min(255, number of strict clip ancestors) |
| ClipRefs.GroundedIffAcyclic | crates/renderer-core/src/object_pipeline.rs:662-665 | a parent chain ends exactly when neither the object nor an ancestor is its own ancestor |
| ClipRefs.OrderIndependent | crates/renderer-core/src/object_pipeline.rs:649-660 | computed for the same objects in two orders, the clip references of every object whose parent chain ends are equal, and so are its depth and whether its chain ends |
| PathParsers.IntsAgree | crates/renderer-core/src/tessellate.rs:499-516 | where the strict lexer reads an integer the forgiving one reads the same and stops at the same place |
| PathParsers.Tokenizer.NextInt | crates/renderer-core/src/render_object.rs:587-601 | the longest run of digits and signs, parsed whole |
| PathParsers.Tokenizer.NextCommand | crates/renderer-core/src/render_object.rs:573-585 | end, a letter, or a stray character |
| PathParsers.ParsePathD | crates/renderer-core/src/render_object.rs:473-545 | the strict loop computes the strict specification |
| PathParsers.PathTokens.NextInt | crates/renderer-core/src/tessellate.rs:499-516 | one optional sign and digits, rewinding without digits |
| PathParsers.PathTokens.NextCommand | crates/renderer-core/src/tessellate.rs:482-494 | the next letter, or nothing |
| PathParsers.ParsePath | crates/renderer-core/src/tessellate.rs:384-452 | the forgiving loop computes the forgiving specification |
| PathParsers.StepsAgree | crates/renderer-core/src/render_object.rs:473-545 | one accepted strict command is one forgiving command with the same effect |
| PathParsers.HandlesRoundTrip | crates/renderer-core/src/render_object.rs:466-545 | turning relative handles into absolute controls and back gives the same nodes |
| PathParsers.SeparatorsAre | crates/renderer-core/src/tessellate.rs:470-478 | the strict parser skips the 25 white-space characters and the comma, the forgiving one the ASCII ones among them but vertical tab and form feed |
| PathParsers.LettersAre | crates/renderer-core/src/tessellate.rs:482-494 | a command letter is one of the 26 in either case |
| PathParsers.ValueIsPositional | crates/renderer-core/src/render_object.rs:598 | digits count by decimal place: appending digits multiplies what came before by a power of ten |
| PathText.NumberReadsBack | crates/renderer-core/src/render_object.rs:598 | a printed integer, signed or with a leading plus, parses to itself in the 32-bit range and is refused outside it |
| PathText.LexersReadBack | crates/renderer-core/src/tessellate.rs:499-516 | both lexers read a printed integer behind any plain separators and stop right after it |
| PathText.StrictReads | crates/renderer-core/src/render_object.rs:473-545 | printed commands take the strict parser exactly where they mean to, whatever comes after them |
| PathText.LooseReads | crates/renderer-core/src/tessellate.rs:384-452 | and the forgiving one, up to the first command it cannot carry out |
| PathText.PrintedPathReadsBack | crates/renderer-core/src/render_object.rs:466-545 | printed contours read back: the same nodes, handles and closed flags from the strict parser, the same commands from the forgiving one |
| PathText.StrayTail | crates/renderer-core/src/tessellate.rs:384-494 | a stray character after a printed path makes the strict parser refuse the text and the forgiving one answer with the path |
| PathText.AcceptedIff | crates/renderer-core/src/render_object.rs:473-545 | the strict parser accepts a printed list of commands if and only if it starts with a move and no curve has a control farther from its end than 32 bits hold |
| PathText.LettersKnown | crates/renderer-core/src/render_object.rs:543 | the strict parser refuses every letter but four |
| PathText.SmallLettersToo | crates/renderer-core/src/tessellate.rs:390-450 | the forgiving parser takes the same four in either case, and refuses all others |
| PathParsers.OtherSpaceDropsTheRest | crates/renderer-core/src/tessellate.rs:470-494 | any other white space before a command is skipped by the strict parser and ends the forgiving one |
| PathParsers.VerticalTabSplitsTheParsers | crates/renderer-core/src/tessellate.rs:470-494 | a text on which the two disagree |
| PathAgreement.StepWeighs | crates/renderer-core/src/render_object.rs:473-545 | every accepted command adds nodes, contours or closed flags, but for a close of a closed contour, which changes nothing |
| PathAgreement.StoppingAgreesIff | crates/renderer-core/src/tessellate.rs:384-452 | stopping anywhere agrees with parsing on if and only if the rest is separators and closes of a closed contour |
| PathAgreement.OtherSpaceAgreesIff | crates/renderer-core/src/tessellate.rs:470-494 | other white space before a command: the results agree if and only if what follows is only separators and `Z`s and, if there is a `Z`, the contour is closed already |
| PathAgreement.CutCoordinatesDiffer | crates/renderer-core/src/tessellate.rs:470-516 | other white space among the coordinates of a command: the results always differ |
| PathAgreement.AgreeIff | crates/renderer-core/src/tessellate.rs:384-452 | from matching states the results of the rest match if and only if its tail, from the first unknown white space on, is idle |
| PathAgreement.ParsersAgreeIff | crates/renderer-core/src/tessellate.rs:384-452 | on every text the strict parser accepts, the forgiving one reads the same contours, closed flags and coordinates if and only if that tail is idle |
| PathAgreement.StrictIsForgiven | crates/renderer-core/src/tessellate.rs:384-452 | in particular on every accepted text whose white space is plain, absolute controls being node plus handle |

## Left out

- Machine numbers: overflow of 32-bit and 64-bit integers, float rounding, infinities and NaN. Square roots come in as a function (dig-in, handed-out distances) or as given segment lengths (dashes); the distance transform compares squares.
- FramePlan.BuildSceneGeometry: meshes, ribbons, shadows, glyph quads, resolved colours, clip depth and the revision hash of each object come in as values; focus rings, gradients and images are not modelled.
- The revision hash as a fingerprint: equal revision implying equal geometry is a hypothesis of the refinement theorems, and the hash leaves out `hidden`, fill opacity crossing zero and being a container (crates/renderer-core/src/object_pipeline.rs:441-462).
- ObjectRendering.ObjectRenderer.ApplyPlanDiff: scenes with repeated object ids, and meshes that have indices but no vertices, are outside the hypotheses.
- Buffers.WriteBuffer: buffers are arrays of whole elements, so byte offsets, strides and the padding of empty buffers are not modelled.
- The clip mesh buffer: patches never rewrite it, so it is not among the nine buffers whose equality is claimed.
- Live previews, camera uniforms, render passes, shaders, stencil semantics and draw counts of the renderer.
- SyncEngine.SyncEngine.constructor: starts from an empty outbox; `reseed` is left out because it can lower the counter and repeat ids (crates/client-runtime/src/outbox.rs:108-112).
- Serialisation of operations, timestamps, outbox errors and the object operations themselves: applying one is a parameter.
- Lease.InMemoryCoordinator.AcquireLease: durations and the clock are unbounded, and a failing clock or lock is not modelled; presence and publishing are left out.
- FileLease.FileCoordinator.AcquireLease: the lease files are one map and the body under the file lock is one step; file and lock errors, file names and unreadable rows are left out.
- FrameLog.TailTask.Poll: file reads, sleeping and the broadcast channel are left out; how many bytes a read sees is a parameter.
- ConcaveHull.ConcaveHull: the region derivation around it, polygon cleanup and the outline cache are left out.
- Zoom buckets, rotation matrices, the blur kernel and the flatten cache.
- Stroke ribbons: joins, caps and miter limits.
- HitTest.PointInPolygon: narrowing of the local point to 32 bits is left out, as are the bounding-box fallback, the swept segment test and handle classification.
- GlyphAtlas.MsdfAtlas.GenerateGlyph: the distance field of the cell comes in as values; registering a ready-made slot is left out.
- DistanceField.EuclideanDistanceToOther: height and width together stay below the source's infinity of a thousand million texels, beyond which cells stay unreached (the 32-bit squares of crates/renderer-core/src/text_layout.rs:846 overflow long before); the four parallel arrays are one grid of cells.
- TextPlacement.LayoutRuns: colours follow the run index.
- RenderCache.ScheduleFrameWork: the apparent size and the detail tier of an item are given, and which of several least recently used entries goes is left open.
- ClipRefs.ClipRefFor: for objects whose parent chain runs into a cycle only termination and the presence of an entry are claimed.
- PathParsers.ParsePathD: texts are sequences of characters, not bytes.
