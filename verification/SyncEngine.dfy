/** The client sync engine (crates/client-runtime/src/sync_engine.rs): optimistic apply, counted
    ownership of fields, coalesced sends, acks, rejects and reconnect replay. */
module SyncEngine {
  import opened Sequences
  import opened Outbox
  import opened Ownership

  /** The local scene; how an operation changes it is the parameter `Apply`. */
  datatype Scene = Scene(version: int, objects: map<string, int>)
  datatype ApplyResult = Applied(scene: Scene, inverse: ObjectOp) | Refused(error: string)
  type Apply = (Scene, ObjectOp) -> ApplyResult

  // ---- The protocol on values -----------------------------------------------

  /** The engine without its ownership maps, which are functions of `entries`. `frames` is what
      the transport was handed so far. */
  datatype EngineState = EngineState(
    scene: Scene, baseRevision: int,
    pending: seq<WireOp>, timerArmed: bool,
    entries: seq<WireOp>, counter: int,
    frames: seq<seq<WireOp>>)

  predicate IsNoOp(inverse: ObjectOp) { inverse.Batch? && inverse.ops == [] }

  /** The envelope `author` mints in state `s`. */
  function Envelope(client: string, s: EngineState, op: ObjectOp): WireOp {
    WireOp(OpId(client, s.counter + 1), op, s.baseRevision)
  }

  function AuthorStep(apply: Apply, client: string, s: EngineState, op: ObjectOp): EngineState {
    match apply(s.scene, op)
    case Refused(_) => s
    case Applied(next, inverse) =>
      if IsNoOp(inverse) then s
      else
        var e := Envelope(client, s, op);
        s.(scene := next, counter := s.counter + 1, entries := s.entries + [e],
           pending := s.pending + [e], timerArmed := true)
  }

  lemma {:induction false} OwnerOf(es: seq<WireOp>, k: string) returns (e: WireOp)
    requires Owned(es, k) > 0
    ensures e in es && k in OwnedKeys(e.op)
  {
    hide OwnedKeys;
    var n := |es| - 1;
    TimesPositive(OwnedKeys(es[n].op), k);
    if k in OwnedKeys(es[n].op) { e := es[n]; } else { e := OwnerOf(es[..n], k); }
  }

  lemma {:induction false} OwnersCount(es: seq<WireOp>, e: WireOp, k: string)
    requires e in es && k in OwnedKeys(e.op)
    ensures Owned(es, k) > 0
  {
    hide OwnedKeys;
    var n := |es| - 1;
    TimesPositive(OwnedKeys(es[n].op), k);
    if e != es[n] { OwnersCount(es[..n], e, k); }
  }

  predicate Blocked(s: EngineState, op: ObjectOp) { exists k :: k in OwnedKeys(op) && Owned(s.entries, k) > 0 }

  /** Some key belongs to both operations. */
  predicate Conflict(a: ObjectOp, b: ObjectOp) { exists k :: k in OwnedKeys(a) && k in OwnedKeys(b) }

  /** Ownership is what the operations not yet settled own. */
  lemma BlockedIff(s: EngineState, op: ObjectOp)
    ensures Blocked(s, op) <==> exists e :: e in s.entries && Conflict(op, e.op)
  {
    hide OwnedKeys, Owned;
    if Blocked(s, op) {
      var k :| k in OwnedKeys(op) && Owned(s.entries, k) > 0;
      var e := OwnerOf(s.entries, k);
      assert Conflict(op, e.op);
    }
    if e :| e in s.entries && Conflict(op, e.op) {
      var k :| k in OwnedKeys(op) && k in OwnedKeys(e.op);
      OwnersCount(s.entries, e, k);
    }
  }

  function RemoteStep(apply: Apply, s: EngineState, op: ObjectOp): EngineState {
    if Blocked(s, op) || apply(s.scene, op).Refused? then s else s.(scene := apply(s.scene, op).scene)
  }

  function IdSet(ids: seq<OpId>): set<OpId> { set id | id in ids }

  function AckStep(s: EngineState, ids: seq<OpId>, revision: Option<int>): EngineState {
    s.(entries := Without(s.entries, IdSet(ids)),
       baseRevision := if revision.Some? then Max(s.baseRevision, revision.value) else s.baseRevision)
  }

  function Replay(apply: Apply, scene: Scene, es: seq<WireOp>): Scene {
    if es == [] then scene
    else
      var base := Replay(apply, scene, es[..|es| - 1]);
      match apply(base, es[|es| - 1].op)
      case Applied(next, _) => next
      case Refused(_) => base
  }

  function ReconcileStep(apply: Apply, s: EngineState, snapshot: Scene): EngineState {
    if snapshot.version < s.baseRevision then s
    else
      s.(baseRevision := snapshot.version, scene := Replay(apply, snapshot, SortBySeq(s.entries)),
         frames := if s.entries == [] then s.frames else s.frames + [SortBySeq(s.entries)])
  }

  function FlushStep(s: EngineState): EngineState {
    s.(timerArmed := false, pending := [], frames := if s.pending == [] then s.frames else s.frames + [s.pending])
  }

  // ---- The engine -----------------------------------------------------------

  datatype AuthorResult = AuthorResult(errors: seq<string>, opId: Option<OpId>, inverse: Option<ObjectOp>)

  class SyncEngine {
    const clientId: string
    const apply: Apply
    const outbox: InMemoryOutboxStore
    var scene: Scene
    var baseRevision: int
    var pending: seq<WireOp>
    var timerArmed: bool
    var ownership: map<string, int>
    var opOwnedKeys: map<string, seq<string>>
    var settledKeys: seq<string>
    var frames: seq<seq<WireOp>>

    function State(): EngineState
      reads this, outbox
    {
      EngineState(scene, baseRevision, pending, timerArmed, outbox.entries, outbox.counter, frames)
    }

    /** The ownership maps are exactly those of the operations `es`. */
    ghost predicate Tracks(es: seq<WireOp>)
      reads this
    {
      Positive(ownership) && (forall k :: Get(ownership, k) == Owned(es, k)) && opOwnedKeys == KeysByOp(es)
    }

    ghost predicate Valid()
      reads this, outbox
    {
      && Tracks(outbox.entries)
      && Ascending(outbox.entries)
      && forall e :: e in outbox.entries ==> e.opId.clientId == clientId && e.opId.localSeq <= outbox.counter
    }

    constructor (initial: Scene, clientId: string, apply: Apply, outbox: InMemoryOutboxStore)
      requires outbox.entries == []
      ensures Valid() && this.outbox == outbox && this.clientId == clientId && this.apply == apply
      ensures State() == EngineState(initial, initial.version, [], false, [], outbox.counter, [])
      ensures settledKeys == []
    {
      this.clientId, this.apply, this.outbox := clientId, apply, outbox;
      scene, baseRevision := initial, initial.version;
      pending, timerArmed := [], false;
      ownership, opOwnedKeys, settledKeys := map[], map[], [];
      frames := [];
    }

    method TakeOwnership(opId: OpId, keys: seq<string>)
      requires Positive(ownership)
      modifies this`ownership, this`opOwnedKeys
      ensures opOwnedKeys == old(opOwnedKeys)[OpIdKey(opId) := keys]
      ensures Positive(ownership)
      ensures forall k :: Get(ownership, k) == Get(old(ownership), k) + Times(keys, k)
    {
      opOwnedKeys := opOwnedKeys[OpIdKey(opId) := keys];
      ownership := Take(ownership, keys);
    }

    method ReleaseOwnership(opId: OpId, ghost es: seq<WireOp>) returns (settled: seq<string>)
      requires Tracks(es) && Ascending(es)
      modifies this`ownership, this`opOwnedKeys, this`settledKeys
      ensures Tracks(Without(es, {opId}))
      ensures settledKeys == old(settledKeys) + settled
      ensures Settled(settled, es, Without(es, {opId}))
    {
      hide Owned, KeysByOp, Times, Without, OpIdKey;
      var key := OpIdKey(opId);
      settled := [];
      if key !in opOwnedKeys {
        DropNone(es, opId);
        return;
      }
      var keys := opOwnedKeys[key];
      DropRow(es, opId);
      forall k ensures Owned(es, k) == Owned(Without(es, {opId}), k) + Times(keys, k) { DropKeys(es, opId, k); }
      opOwnedKeys := opOwnedKeys - {key};
      ownership, settled := Release(ownership, keys);
      settledKeys := settledKeys + settled;
    }

    /** The common part of `on_ack` and `on_rejected`. */
    method Settle(opIds: seq<OpId>) returns (settled: seq<string>)
      requires Valid()
      modifies this`ownership, this`opOwnedKeys, this`settledKeys, outbox`entries
      ensures Valid()
      ensures outbox.entries == Without(old(outbox.entries), IdSet(opIds))
      ensures settledKeys == old(settledKeys) + settled
      ensures Settled(settled, old(outbox.entries), outbox.entries)
    {
      hide Owned, KeysByOp, Without;
      ghost var es := outbox.entries;
      outbox.Remove(opIds);
      settled := [];
      WithoutNone(es, {});
      assert IdSet(opIds[..0]) == {};
      for i := 0 to |opIds|
        invariant outbox.entries == Without(es, IdSet(opIds))
        invariant Tracks(Without(es, IdSet(opIds[..i])))
        invariant settledKeys == old(settledKeys) + settled
        invariant Settled(settled, es, Without(es, IdSet(opIds[..i])))
      {
        ghost var ids := IdSet(opIds[..i]);
        WithoutAscending(es, ids);
        var more := ReleaseOwnership(opIds[i], Without(es, ids));
        WithoutTwice(es, ids, {opIds[i]});
        assert ids + {opIds[i]} == IdSet(opIds[..i + 1]);
        SettledChain(settled, more, es, ids, ids + {opIds[i]});
        settled := settled + more;
      }
      assert opIds[..|opIds|] == opIds;
      WithoutAscending(es, IdSet(opIds));
    }

    method OnAck(opIds: seq<OpId>, revision: Option<int>) returns (settled: seq<string>)
      requires Valid()
      modifies this, outbox
      ensures Valid()
      ensures State() == AckStep(old(State()), opIds, revision)
      ensures forall e :: e in outbox.entries <==> e in old(outbox.entries) && e.opId !in opIds
      ensures revision.None? ==> baseRevision == old(baseRevision)
      ensures revision.Some? ==> baseRevision >= old(baseRevision) && baseRevision >= revision.value
                                 && (baseRevision == old(baseRevision) || baseRevision == revision.value)
      ensures scene == old(scene) && frames == old(frames) && pending == old(pending) && timerArmed == old(timerArmed)
      ensures settledKeys == old(settledKeys) + settled
      ensures Settled(settled, old(outbox.entries), outbox.entries)
    {
      settled := Settle(opIds);
      if revision.Some? {
        baseRevision := Max(baseRevision, revision.value);
      }
    }

    method OnRejected(opIds: seq<OpId>) returns (settled: seq<string>)
      requires Valid()
      modifies this, outbox
      ensures Valid()
      ensures State() == AckStep(old(State()), opIds, None)
      ensures forall e :: e in outbox.entries <==> e in old(outbox.entries) && e.opId !in opIds
      ensures scene == old(scene) && frames == old(frames) && pending == old(pending) && timerArmed == old(timerArmed)
      ensures baseRevision == old(baseRevision)
      ensures settledKeys == old(settledKeys) + settled
      ensures Settled(settled, old(outbox.entries), outbox.entries)
    {
      settled := Settle(opIds);
    }

    method TakeSettledKeys() returns (keys: seq<string>)
      modifies this`settledKeys
      ensures keys == old(settledKeys) && settledKeys == []
    {
      keys := settledKeys;
      settledKeys := [];
    }

    method Author(op: ObjectOp) returns (result: AuthorResult)
      requires Valid()
      modifies this, outbox
      ensures Valid()
      ensures State() == AuthorStep(apply, clientId, old(State()), op)
      ensures settledKeys == old(settledKeys)
      ensures match apply(old(scene), op)
              case Refused(e) => result == AuthorResult([e], None, None) && State() == old(State())
              case Applied(next, inverse) =>
                if inverse == Batch([]) then result == AuthorResult([], None, Some(inverse)) && State() == old(State())
                else
                  var id := OpId(clientId, old(outbox.counter) + 1);
                  var e := WireOp(id, op, old(baseRevision));
                  && result == AuthorResult([], Some(id), Some(inverse))
                  && scene == next && baseRevision == old(baseRevision) && frames == old(frames)
                  && outbox.entries == old(outbox.entries) + [e] && outbox.counter == old(outbox.counter) + 1
                  && pending == old(pending) + [e] && timerArmed
    {
      hide Owned, KeysByOp, OwnedKeys, Times, OpIdKey;
      match apply(scene, op)
      case Refused(e) =>
        result := AuthorResult([e], None, None);
      case Applied(next, inverse) =>
        if IsNoOp(inverse) {
          return AuthorResult([], None, Some(inverse));
        }
        var localSeq := outbox.NextLocalSeq();
        var entry := WireOp(OpId(clientId, localSeq), op, baseRevision);
        scene := next;
        TakeOwnership(entry.opId, OwnedKeys(op));
        forall k ensures Owned(outbox.entries + [entry], k) == Owned(outbox.entries, k) + Times(OwnedKeys(op), k) {
          OwnedAppend(outbox.entries, entry, k);
        }
        KeysByOpAppend(outbox.entries, entry);
        outbox.Append(entry);
        pending := pending + [entry];
        timerArmed := true;
        result := AuthorResult([], Some(entry.opId), Some(inverse));
    }

    method ApplyRemote(op: ObjectOp) returns (applied: bool)
      requires Valid()
      modifies this`scene
      ensures Valid()
      ensures State() == RemoteStep(apply, old(State()), op)
      ensures applied <==> apply(old(scene), op).Applied?
                           && forall e :: e in outbox.entries ==> !Conflict(op, e.op)
      ensures scene == if applied then apply(old(scene), op).scene else old(scene)
    {
      hide OwnedKeys, Owned, KeysByOp, Conflict;
      BlockedIff(State(), op);
      ghost var blocked := Blocked(State(), op);
      assert blocked <==> exists k :: k in OwnedKeys(op) && k in ownership by {
        assert forall k :: Get(ownership, k) == Owned(outbox.entries, k);
      }
      hide Blocked;
      var touches := false;
      if ownership != map[] {
        touches := exists k :: k in OwnedKeys(op) && k in ownership;
      }
      if touches {
        return false;
      }
      match apply(scene, op)
      case Refused(_) => applied := false;
      case Applied(next, _) => scene := next; applied := true;
    }

    /** The replay loop: re-apply each unacked operation and take its ownership again. */
    method ReplayAll(es: seq<WireOp>)
      requires ownership == map[] && opOwnedKeys == map[]
      modifies this`scene, this`ownership, this`opOwnedKeys
      ensures Tracks(es) && scene == Replay(apply, old(scene), es)
    {
      hide Owned, KeysByOp, OwnedKeys, Times, OpIdKey;
      forall k ensures Owned([], k) == 0 { OwnedNothing(k); }
      KeysByOpNothing();
      for i := 0 to |es|
        invariant Tracks(es[..i]) && scene == Replay(apply, old(scene), es[..i])
      {
        var e := es[i];
        assert es[..i + 1] == es[..i] + [e] && es[..i + 1][..i] == es[..i];
        match apply(scene, e.op) {
          case Applied(next, _) => scene := next;
          case Refused(_) =>
        }
        TakeOwnership(e.opId, OwnedKeys(e.op));
        forall k ensures Owned(es[..i + 1], k) == Owned(es[..i], k) + Times(OwnedKeys(e.op), k) {
          OwnedAppend(es[..i], e, k);
        }
        KeysByOpAppend(es[..i], e);
      }
      assert es[..|es|] == es;
    }

    /** Reset to the snapshot and replay; the ownership maps come back exactly as they were. */
    method ReconcileSnapshot(snapshot: Scene)
      requires Valid()
      modifies this
      ensures Valid()
      ensures State() == ReconcileStep(apply, old(State()), snapshot)
      ensures snapshot.version < old(baseRevision) ==> State() == old(State())
      ensures snapshot.version >= old(baseRevision) ==>
        && baseRevision == snapshot.version && scene == Replay(apply, snapshot, outbox.entries)
        && frames == if outbox.entries == [] then old(frames) else old(frames) + [outbox.entries]
      ensures pending == old(pending) && timerArmed == old(timerArmed)
      ensures ownership == old(ownership) && opOwnedKeys == old(opOwnedKeys) && settledKeys == old(settledKeys)
    {
      hide Owned, KeysByOp, SortBySeq, Replay;
      if snapshot.version < baseRevision {
        return;
      }
      baseRevision := snapshot.version;
      scene := snapshot;
      ownership := map[];
      opOwnedKeys := map[];
      var es := outbox.All();
      SortAscending(outbox.entries);
      ReplayAll(es);
      SameCounts(ownership, old(ownership));
      if es != [] {
        frames := frames + [es];
      }
    }

    method Flush()
      requires Valid()
      modifies this
      ensures Valid() && State() == FlushStep(old(State()))
      ensures pending == [] && !timerArmed && scene == old(scene) && baseRevision == old(baseRevision)
      ensures frames == if old(pending) == [] then old(frames) else old(frames) + [old(pending)]
      ensures settledKeys == old(settledKeys)
    {
      timerArmed := false;
      if pending == [] {
        return;
      }
      var batch := pending;
      pending := [];
      frames := frames + [batch];
    }
  }
}
