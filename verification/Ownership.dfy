/** Counted ownership of `(object, field)` keys (crates/client-runtime/src/sync_engine.rs). */
module Ownership {
  import opened Sequences
  import opened Outbox

  /** The keys an operation owns until it settles; a batch owns its members' keys together. */
  function OwnedKeys(op: ObjectOp): seq<string>
    decreases op, 1
  {
    match op
    case SetTransform(id, _) => [id + ":transform"]
    case EditGeometry(id, _) => [id + ":geometry"]
    case SetText(id, _) => [id + ":text"]
    case SetStyle(id, _) => [id + ":style"]
    case Batch(ops) => OwnedKeysAll(ops)
    case Structural(_, _) => []
  }

  function OwnedKeysAll(ops: seq<ObjectOp>): seq<string>
    decreases ops, 0
  {
    if ops == [] then [] else OwnedKeys(ops[0]) + OwnedKeysAll(ops[1..])
  }

  /** How often `k` occurs in `keys`. */
  function Times(keys: seq<string>, k: string): nat {
    if keys == [] then 0
    else Times(keys[..|keys| - 1], k) + if keys[|keys| - 1] == k then 1 else 0
  }

  lemma {:induction false} TimesPositive(keys: seq<string>, k: string)
    ensures Times(keys, k) > 0 <==> k in keys
  {
    if keys != [] {
      var n := |keys| - 1;
      assert keys == keys[..n] + [keys[n]];
      TimesPositive(keys[..n], k);
    }
  }

  lemma {:induction false} TimesOfPrefix(keys: seq<string>, i: nat, k: string)
    requires i <= |keys|
    ensures Times(keys[..i], k) <= Times(keys, k)
    ensures i < |keys| ==> Times(keys[..i + 1], k) == Times(keys[..i], k) + if keys[i] == k then 1 else 0
    decreases |keys|
  {
    assert keys[..|keys|] == keys;
    if i < |keys| {
      assert keys[..i + 1][..i] == keys[..i];
      if i + 1 < |keys| {
        var front := keys[..|keys| - 1];
        TimesOfPrefix(front, i, k);
        assert front[..i] == keys[..i] && front[..i + 1] == keys[..i + 1];
      }
    }
  }

  /** The multiplicity of `k` over all operations of `es`. */
  function Owned(es: seq<WireOp>, k: string): nat {
    if es == [] then 0 else Owned(es[..|es| - 1], k) + Times(OwnedKeys(es[|es| - 1].op), k)
  }

  lemma OwnedNothing(k: string)
    ensures Owned([], k) == 0
  {
  }

  lemma OwnedAppend(es: seq<WireOp>, e: WireOp, k: string)
    ensures Owned(es + [e], k) == Owned(es, k) + Times(OwnedKeys(e.op), k)
  {
    assert (es + [e])[..|es|] == es;
  }

  // ---- The counter map ------------------------------------------------------

  function Get(own: map<string, int>, k: string): int { if k in own then own[k] else 0 }

  /** No key is kept at a count of zero. */
  predicate Positive(own: map<string, int>) { forall k :: k in own ==> own[k] > 0 }

  lemma SameCounts(a: map<string, int>, b: map<string, int>)
    requires Positive(a) && Positive(b) && forall k :: Get(a, k) == Get(b, k)
    ensures a == b
  {
    forall k ensures (k in a <==> k in b) && (k in a && k in b ==> a[k] == b[k]) {
      assert Get(a, k) == Get(b, k);
    }
  }

  method Take(own: map<string, int>, keys: seq<string>) returns (r: map<string, int>)
    requires Positive(own)
    ensures Positive(r)
    ensures forall k :: Get(r, k) == Get(own, k) + Times(keys, k)
  {
    r := own;
    for i := 0 to |keys|
      invariant Positive(r)
      invariant forall k :: Get(r, k) == Get(own, k) + Times(keys[..i], k)
    {
      ghost var was := r;
      r := r[keys[i] := (if keys[i] in r then r[keys[i]] else 0) + 1];
      forall k ensures Get(r, k) == Get(own, k) + Times(keys[..i + 1], k) {
        TimesOfPrefix(keys, i, k);
        assert Get(was, k) == Get(own, k) + Times(keys[..i], k);
      }
    }
    assert keys[..|keys|] == keys;
  }

  method Release(own: map<string, int>, keys: seq<string>) returns (r: map<string, int>, gone: seq<string>)
    requires Positive(own) && forall k :: Times(keys, k) <= Get(own, k)
    ensures Positive(r)
    ensures forall k :: Get(r, k) == Get(own, k) - Times(keys, k)
    ensures Distinct(gone)
    ensures forall k :: k in gone <==> Get(own, k) > 0 && Get(r, k) == 0
  {
    r, gone := own, [];
    for i := 0 to |keys|
      invariant Positive(r)
      invariant forall k :: Get(r, k) == Get(own, k) - Times(keys[..i], k)
      invariant Distinct(gone)
      invariant forall k :: k in gone <==> Get(own, k) > 0 && Get(r, k) == 0
    {
      ghost var was := r;
      TimesOfPrefix(keys, i, keys[i]);
      TimesOfPrefix(keys, i + 1, keys[i]);
      var count := (if keys[i] in r then r[keys[i]] else 0) - 1;
      assert count == Get(own, keys[i]) - Times(keys[..i + 1], keys[i]);
      if count <= 0 {
        r := r - {keys[i]};
        gone := gone + [keys[i]];
      } else {
        r := r[keys[i] := count];
      }
      forall k ensures Get(r, k) == Get(own, k) - Times(keys[..i + 1], k) {
        TimesOfPrefix(keys, i, k);
        assert Get(was, k) == Get(own, k) - Times(keys[..i], k);
      }
      forall k ensures k in gone <==> Get(own, k) > 0 && Get(r, k) == 0 {
        TimesOfPrefix(keys, i, k);
        assert k != keys[i] ==> Get(r, k) == Get(was, k);
      }
    }
    assert keys[..|keys|] == keys;
  }

  // ---- Which operation owns what --------------------------------------------

  /** What each unacked operation owns, by operation key. */
  function KeysByOp(es: seq<WireOp>): map<string, seq<string>> {
    if es == [] then map[]
    else
      var e := es[|es| - 1];
      KeysByOp(es[..|es| - 1])[OpIdKey(e.opId) := OwnedKeys(e.op)]
  }

  lemma KeysByOpNothing()
    ensures KeysByOp([]) == map[]
  {
  }

  lemma KeysByOpAppend(es: seq<WireOp>, e: WireOp)
    ensures KeysByOp(es + [e]) == KeysByOp(es)[OpIdKey(e.opId) := OwnedKeys(e.op)]
  {
    assert (es + [e])[..|es|] == es;
  }

  lemma {:induction false} KeysByOpDomain(es: seq<WireOp>, id: OpId)
    ensures OpIdKey(id) in KeysByOp(es) <==> exists i :: 0 <= i < |es| && es[i].opId == id
  {
    hide OpIdKey, OwnedKeys;
    if es != [] {
      var n := |es| - 1;
      KeysByOpDomain(es[..n], id);
      if OpIdKey(id) == OpIdKey(es[n].opId) { OpIdKeyInjective(id, es[n].opId); }
      if i :| 0 <= i < n && es[i].opId == id { assert es[..n][i].opId == id; }
    }
  }

  lemma MapDropLast<K, V>(m: map<K, V>, k: K, v: V)
    requires k !in m
    ensures m[k := v] - {k} == m
  {
  }

  lemma MapDropEarlier<K, V>(m: map<K, V>, k: K, v: V, j: K)
    requires j != k
    ensures m[k := v] - {j} == (m - {j})[k := v]
  {
  }

  lemma NotInFront(es: seq<WireOp>, id: OpId)
    requires Ascending(es) && es != [] && es[|es| - 1].opId == id
    ensures forall e :: e in es[..|es| - 1] ==> e.opId !in {id}
    ensures forall i :: 0 <= i < |es| - 1 ==> es[i].opId != id
  {
  }

  /** Dropping one operation from the list drops its row. */
  lemma {:induction false} DropRow(es: seq<WireOp>, id: OpId)
    requires Ascending(es) && OpIdKey(id) in KeysByOp(es)
    ensures KeysByOp(Without(es, {id})) == KeysByOp(es) - {OpIdKey(id)}
  {
    if es == [] { KeysByOpNothing(); }
    hide Without, OpIdKey, OwnedKeys, KeysByOp;
    var n := |es| - 1;
    var front, e := es[..n], es[n];
    assert es == front + [e];
    KeysByOpAppend(front, e);
    WithoutAppend(front, e, {id});
    if e.opId == id {
      NotInFront(es, id);
      WithoutNone(front, {id});
      KeysByOpDomain(front, id);
      MapDropLast(KeysByOp(front), OpIdKey(id), OwnedKeys(e.op));
    } else {
      if OpIdKey(id) == OpIdKey(e.opId) { OpIdKeyInjective(id, e.opId); }
      DropRow(front, id);
      KeysByOpAppend(Without(front, {id}), e);
      MapDropEarlier(KeysByOp(front), OpIdKey(e.opId), OwnedKeys(e.op), OpIdKey(id));
    }
  }

  /** ... and its keys. */
  lemma {:induction false} DropKeys(es: seq<WireOp>, id: OpId, k: string)
    requires Ascending(es) && OpIdKey(id) in KeysByOp(es)
    ensures Owned(es, k) == Owned(Without(es, {id}), k) + Times(KeysByOp(es)[OpIdKey(id)], k)
  {
    if es == [] { KeysByOpNothing(); }
    hide OpIdKey, OwnedKeys, Times, Owned, KeysByOp, Without;
    var n := |es| - 1;
    var front, e := es[..n], es[n];
    assert es == front + [e];
    OwnedAppend(front, e, k);
    KeysByOpAppend(front, e);
    WithoutAppend(front, e, {id});
    if e.opId == id {
      NotInFront(es, id);
      WithoutNone(front, {id});
    } else {
      if OpIdKey(id) == OpIdKey(e.opId) { OpIdKeyInjective(id, e.opId); }
      DropKeys(front, id, k);
      OwnedAppend(Without(front, {id}), e, k);
    }
  }

  lemma DropNone(es: seq<WireOp>, id: OpId)
    requires OpIdKey(id) !in KeysByOp(es)
    ensures Without(es, {id}) == es
  {
    hide OpIdKey, OwnedKeys;
    KeysByOpDomain(es, id);
    forall e | e in es ensures e.opId !in {id} {
      var i :| 0 <= i < |es| && es[i] == e;
    }
    WithoutNone(es, {id});
  }

  lemma {:induction false} OwnedShrinks(es: seq<WireOp>, ids: set<OpId>, k: string)
    ensures Owned(Without(es, ids), k) <= Owned(es, k)
  {
    hide OwnedKeys, Times;
    if es != [] {
      var n := |es| - 1;
      OwnedShrinks(es[..n], ids, k);
      assert es == es[..n] + [es[n]];
      WithoutAppend(es[..n], es[n], ids);
      if es[n].opId !in ids { OwnedAppend(Without(es[..n], ids), es[n], k); }
    }
  }

  /** `keys` lists once each the keys owned by `before` and no longer by `after`. */
  ghost predicate Settled(keys: seq<string>, before: seq<WireOp>, after: seq<WireOp>) {
    Distinct(keys) && forall k :: k in keys <==> Owned(before, k) > 0 && Owned(after, k) == 0
  }

  lemma SettledChain(a: seq<string>, b: seq<string>, e0: seq<WireOp>, i1: set<OpId>, i2: set<OpId>)
    requires Settled(a, e0, Without(e0, i1)) && Settled(b, Without(e0, i1), Without(e0, i2)) && i1 <= i2
    ensures Settled(a + b, e0, Without(e0, i2))
  {
    hide Owned;
    var c, e1, e2 := a + b, Without(e0, i1), Without(e0, i2);
    WithoutTwice(e0, i1, i2);
    assert i1 + i2 == i2;
    forall k ensures Owned(e2, k) <= Owned(e1, k) <= Owned(e0, k) {
      OwnedShrinks(e0, i1, k);
      OwnedShrinks(e1, i2, k);
    }
    forall i, j | 0 <= i < j < |c| ensures c[i] != c[j] {
      if i < |a| <= j { assert c[i] in a && c[j] in b; }
    }
  }
}
