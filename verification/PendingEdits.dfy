/** What optimistic apply, ownership and reconnect replay keep together of the local edits the server has not settled
    (crates/client-runtime/src/sync_engine.rs, `owned_keys`, `apply_remote`, `author`, `reconcile_snapshot`). */
module PendingEdits {
  import opened Decimal
  import opened Outbox
  import opened Ownership
  import opened SyncEngine
  import opened SyncRuns

  datatype Field = Transform | Geometry | Text | Style

  function Name(f: Field): string {
    match f
    case Transform => "transform"
    case Geometry => "geometry"
    case Text => "text"
    case Style => "style"
  }

  /** The operation, or a member of the batch, sets that field of that object. */
  predicate Writes(op: ObjectOp, id: string, f: Field) {
    match op
    case SetTransform(i, _) => i == id && f == Transform
    case EditGeometry(i, _) => i == id && f == Geometry
    case SetText(i, _) => i == id && f == Text
    case SetStyle(i, _) => i == id && f == Style
    case Structural(_, _) => false
    case Batch(ops) => exists i :: 0 <= i < |ops| && Writes(ops[i], id, f)
  }

  function KeyOf(id: string, f: Field): string { id + ":" + Name(f) }

  /** Different fields have different names, and none contains the separator. */
  lemma NamesDiffer(f: Field, g: Field)
    ensures ':' !in Name(f) && (Name(f) == Name(g) ==> f == g)
  {
    assert |Name(Transform)| == 9 && |Name(Geometry)| == 8 && |Name(Text)| == 4 && |Name(Style)| == 5;
  }

  /** A key names one field of one object, whatever characters the id is made of. */
  lemma KeyInjective(i: string, f: Field, j: string, g: Field)
    requires KeyOf(i, f) == KeyOf(j, g)
    ensures i == j && f == g
  {
    NamesDiffer(f, g);
    NamesDiffer(g, f);
    SplitAtLast(i, Name(f), j, Name(g), ':');
  }

  lemma LeafKeys(op: ObjectOp)
    ensures match op
            case SetTransform(i, _) => OwnedKeys(op) == [KeyOf(i, Transform)]
            case EditGeometry(i, _) => OwnedKeys(op) == [KeyOf(i, Geometry)]
            case SetText(i, _) => OwnedKeys(op) == [KeyOf(i, Text)]
            case SetStyle(i, _) => OwnedKeys(op) == [KeyOf(i, Style)]
            case Structural(_, _) => OwnedKeys(op) == []
            case Batch(ops) => OwnedKeys(op) == OwnedKeysAll(ops)
  {
    if !op.Batch? && !op.Structural? {
      assert op.id + ":transform" == KeyOf(op.id, Transform) && op.id + ":geometry" == KeyOf(op.id, Geometry);
      assert op.id + ":text" == KeyOf(op.id, Text) && op.id + ":style" == KeyOf(op.id, Style);
    }
  }

  lemma OneKey(i: string, g: Field, id: string, f: Field)
    ensures KeyOf(id, f) in [KeyOf(i, g)] <==> i == id && g == f
  {
    if KeyOf(id, f) == KeyOf(i, g) { KeyInjective(id, f, i, g); }
  }

  /** An operation owns the key of a field exactly when it writes the field. */
  lemma {:induction false} OwnsWhatItWrites(op: ObjectOp, id: string, f: Field)
    ensures KeyOf(id, f) in OwnedKeys(op) <==> Writes(op, id, f)
    decreases op, 1
  {
    hide KeyOf, OwnedKeys, OwnedKeysAll;
    LeafKeys(op);
    match op
    case SetTransform(i, _) => OneKey(i, Transform, id, f);
    case EditGeometry(i, _) => OneKey(i, Geometry, id, f);
    case SetText(i, _) => OneKey(i, Text, id, f);
    case SetStyle(i, _) => OneKey(i, Style, id, f);
    case Structural(_, _) =>
    case Batch(ops) => BatchOwns(ops, id, f);
  }

  lemma {:induction false} BatchOwns(ops: seq<ObjectOp>, id: string, f: Field)
    ensures KeyOf(id, f) in OwnedKeysAll(ops) <==> exists i :: 0 <= i < |ops| && Writes(ops[i], id, f)
    decreases ops, 0
  {
    hide KeyOf, OwnedKeys;
    if ops != [] {
      var rest := ops[1..];
      OwnsWhatItWrites(ops[0], id, f);
      BatchOwns(rest, id, f);
      if i :| 0 <= i < |ops| && Writes(ops[i], id, f) {
        if i > 0 { assert rest[i - 1] == ops[i]; }
      }
      if i :| 0 <= i < |rest| && Writes(rest[i], id, f) { assert ops[i + 1] == rest[i]; }
    }
  }

  lemma {:induction false} EveryKeyIsAField(op: ObjectOp, k: string) returns (id: string, f: Field)
    requires k in OwnedKeys(op)
    ensures k == KeyOf(id, f)
    decreases op, 1
  {
    hide KeyOf, OwnedKeys, OwnedKeysAll;
    LeafKeys(op);
    match op
    case SetTransform(i, _) => id, f := i, Transform;
    case EditGeometry(i, _) => id, f := i, Geometry;
    case SetText(i, _) => id, f := i, Text;
    case SetStyle(i, _) => id, f := i, Style;
    case Structural(_, _) =>
    case Batch(ops) => id, f := EveryBatchKeyIsAField(ops, k);
  }

  lemma {:induction false} EveryBatchKeyIsAField(ops: seq<ObjectOp>, k: string) returns (id: string, f: Field)
    requires k in OwnedKeysAll(ops)
    ensures k == KeyOf(id, f)
    decreases ops, 0
  {
    hide KeyOf, OwnedKeys;
    if k in OwnedKeys(ops[0]) {
      id, f := EveryKeyIsAField(ops[0], k);
    } else {
      id, f := EveryBatchKeyIsAField(ops[1..], k);
    }
  }

  /** Both operations write some field of some object. */
  ghost predicate WriteTheSame(a: ObjectOp, b: ObjectOp) { exists id, f :: Writes(a, id, f) && Writes(b, id, f) }

  lemma ConflictIff(a: ObjectOp, b: ObjectOp)
    ensures Conflict(a, b) <==> WriteTheSame(a, b)
  {
    hide KeyOf, OwnedKeys, Writes;
    if Conflict(a, b) {
      var k :| k in OwnedKeys(a) && k in OwnedKeys(b);
      var id, f := EveryKeyIsAField(a, k);
      OwnsWhatItWrites(a, id, f);
      OwnsWhatItWrites(b, id, f);
      assert Writes(a, id, f) && Writes(b, id, f);
    }
    if id, f :| Writes(a, id, f) && Writes(b, id, f) {
      OwnsWhatItWrites(a, id, f);
      OwnsWhatItWrites(b, id, f);
      assert KeyOf(id, f) in OwnedKeys(a);
    }
  }

  /** A remote operation is held off exactly when it writes a field that an operation not yet settled writes. */
  lemma HeldOffIff(s: EngineState, op: ObjectOp)
    ensures Blocked(s, op) <==> exists e :: e in s.entries && WriteTheSame(op, e.op)
  {
    hide Blocked, Conflict, WriteTheSame;
    BlockedIff(s, op);
    if e :| e in s.entries && Conflict(op, e.op) { ConflictIff(op, e.op); }
    if e :| e in s.entries && WriteTheSame(op, e.op) { ConflictIff(op, e.op); }
  }

  // ---- Pending edits stay in view -------------------------------------------

  /** What a scene shows for one field of one object. */
  type View = (Scene, string, Field) -> int

  /** Applying an operation changes no field that it does not write. */
  ghost predicate Local(apply: Apply, view: View) {
    forall s, op, id, f ::
      apply(s, op).Applied? && !Writes(op, id, f) ==> view(apply(s, op).scene, id, f) == view(s, id, f)
  }

  lemma RemoteKeepsPending(apply: Apply, view: View, s: EngineState, op: ObjectOp, e: WireOp, id: string, f: Field)
    requires Local(apply, view) && e in s.entries && Writes(e.op, id, f)
    ensures view(RemoteStep(apply, s, op).scene, id, f) == view(s.scene, id, f)
  {
    hide Blocked, Writes;
    HeldOffIff(s, op);
    if Writes(op, id, f) { assert WriteTheSame(op, e.op); }
  }

  /** No reconnect, and no local write to the field. */
  predicate Leaves(ev: Event, id: string, f: Field) {
    match ev
    case Author(op) => !Writes(op, id, f)
    case Reconcile(_) => false
    case _ => true
  }

  /** While an operation that writes the field is not settled, remote operations, acks, rejects and flushes in any
      order leave the field as it shows. */
  lemma {:induction false} PendingEditsSurvive(apply: Apply, view: View, client: string, r: Run, events: seq<Event>,
                                               e: WireOp, id: string, f: Field)
    requires Local(apply, view) && Writes(e.op, id, f)
    requires forall i :: 0 <= i < |events| ==> Leaves(events[i], id, f)
    requires forall i :: 0 <= i < |events| ==> e in Execute(apply, client, r, events[..i]).st.entries
    ensures view(Execute(apply, client, r, events).st.scene, id, f) == view(r.st.scene, id, f)
  {
    hide Writes, Local, Step;
    if events != [] {
      var n := |events| - 1;
      forall i | 0 <= i < n ensures e in Execute(apply, client, r, events[..n][..i]).st.entries {
        assert events[..n][..i] == events[..i];
      }
      PendingEditsSurvive(apply, view, client, r, events[..n], e, id, f);
      StepLeaves(apply, view, client, Execute(apply, client, r, events[..n]), events[n], e, id, f);
    }
  }

  lemma StepLeaves(apply: Apply, view: View, client: string, r: Run, ev: Event, e: WireOp, id: string, f: Field)
    requires Local(apply, view) && Writes(e.op, id, f) && Leaves(ev, id, f) && e in r.st.entries
    ensures view(Step(apply, client, r, ev).st.scene, id, f) == view(r.st.scene, id, f)
  {
    hide Writes, Without, RemoteStep;
    match ev
    case Author(op) => assert apply(r.st.scene, op).Applied? ==>
                                view(apply(r.st.scene, op).scene, id, f) == view(r.st.scene, id, f);
    case Remote(op) => RemoteKeepsPending(apply, view, r.st, op, e, id, f);
    case _ =>
  }

  // ---- What is shown is the snapshot with the pending edits -----------------

  /** What the engine shows is what replaying the unsettled operations on `snapshot` gives. */
  ghost predicate Based(apply: Apply, r: Run, snapshot: Scene) {
    r.st.scene == Replay(apply, snapshot, r.st.entries)
  }

  predicate Mine(ev: Event) { ev.Author? || ev.Flush? }

  lemma ReplaySnoc(apply: Apply, snapshot: Scene, es: seq<WireOp>, e: WireOp)
    ensures var base := Replay(apply, snapshot, es);
            Replay(apply, snapshot, es + [e])
              == if apply(base, e.op).Applied? then apply(base, e.op).scene else base
  {
    assert (es + [e])[..|es|] == es;
  }

  lemma MineKeepsBased(apply: Apply, client: string, r: Run, ev: Event, snapshot: Scene)
    requires Based(apply, r, snapshot) && Mine(ev)
    ensures Based(apply, Step(apply, client, r, ev), snapshot)
    ensures Step(apply, client, r, ev).st.baseRevision == r.st.baseRevision
  {
    hide Replay;
    if ev.Author? { ReplaySnoc(apply, snapshot, r.st.entries, Envelope(client, r.st, ev.op)); }
  }

  lemma {:induction false} OptimismIsReplay(apply: Apply, client: string, r: Run, events: seq<Event>, snapshot: Scene)
    requires Based(apply, r, snapshot) && forall i :: 0 <= i < |events| ==> Mine(events[i])
    ensures Based(apply, Execute(apply, client, r, events), snapshot)
    ensures Execute(apply, client, r, events).st.baseRevision == r.st.baseRevision
  {
    hide Based, Step;
    if events != [] {
      var n := |events| - 1;
      OptimismIsReplay(apply, client, r, events[..n], snapshot);
      MineKeepsBased(apply, client, Execute(apply, client, r, events[..n]), events[n], snapshot);
    }
  }

  lemma ReconnectBases(apply: Apply, client: string, r: Run, snapshot: Scene)
    requires Inv(client, r) && snapshot.version >= r.st.baseRevision
    ensures Based(apply, Step(apply, client, r, Reconcile(snapshot)), snapshot)
    ensures Step(apply, client, r, Reconcile(snapshot)).st.baseRevision == snapshot.version
  {
    hide Replay, Without, SortBySeq, Numbered, FlushedUpTo;
    NumberedAscends(client, r.authored, r.settled);
  }

  /** After any run, a reconnect and any local edits, reconnecting to the same snapshot changes nothing in view. */
  lemma ReconnectIsIdle(apply: Apply, client: string, initial: Scene, before: seq<Event>, snapshot: Scene,
                        local: seq<Event>)
    requires snapshot.version >= Execute(apply, client, NewRun(initial), before).st.baseRevision
    requires forall i :: 0 <= i < |local| ==> Mine(local[i])
    ensures var events := before + [Reconcile(snapshot)] + local;
            && Execute(apply, client, NewRun(initial), events + [Reconcile(snapshot)]).st.scene
                 == Execute(apply, client, NewRun(initial), events).st.scene
  {
    hide Based, Step, Inv, Execute;
    var start, events := NewRun(initial), before + [Reconcile(snapshot)] + local;
    RunKeeps(apply, client, initial, before);
    var r0 := Execute(apply, client, start, before);
    ReconnectBases(apply, client, r0, snapshot);
    ExecuteLast(apply, client, start, before, Reconcile(snapshot));
    var r1 := Execute(apply, client, start, before + [Reconcile(snapshot)]);
    ExecuteMore(apply, client, start, before + [Reconcile(snapshot)], local);
    OptimismIsReplay(apply, client, r1, local, snapshot);
    RunKeeps(apply, client, initial, events);
    ReconnectBases(apply, client, Execute(apply, client, start, events), snapshot);
    ExecuteLast(apply, client, start, events, Reconcile(snapshot));
    SameEntries(apply, client, Execute(apply, client, start, events), snapshot);
  }

  lemma SameEntries(apply: Apply, client: string, r: Run, snapshot: Scene)
    requires Based(apply, r, snapshot) && Based(apply, Step(apply, client, r, Reconcile(snapshot)), snapshot)
    ensures Step(apply, client, r, Reconcile(snapshot)).st.scene == r.st.scene
  {
    hide Replay, SortBySeq;
  }

  lemma {:induction false} ExecuteMore(apply: Apply, client: string, r: Run, events: seq<Event>, more: seq<Event>)
    ensures Execute(apply, client, r, events + more) == Execute(apply, client, Execute(apply, client, r, events), more)
  {
    hide Step;
    if more == [] {
      assert events + more == events;
    } else {
      var n := |more| - 1;
      ExecuteMore(apply, client, r, events, more[..n]);
      assert (events + more)[..|events + more| - 1] == events + more[..n];
    }
  }
}
