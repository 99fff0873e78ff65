/** The outbox of unacked operations (crates/client-runtime/src/outbox.rs). */
module Outbox {
  import opened Decimal

  datatype OpId = OpId(clientId: string, localSeq: int)

  /** The operations that matter for ownership; every other kind is `Structural`. */
  datatype ObjectOp =
    | SetTransform(id: string, payload: int)
    | EditGeometry(id: string, payload: int)
    | SetText(id: string, payload: int)
    | SetStyle(id: string, payload: int)
    | Batch(ops: seq<ObjectOp>)
    | Structural(id: string, payload: int)

  datatype WireOp = WireOp(opId: OpId, op: ObjectOp, baseRevision: int)

  /** `clientId:localSeq`, the key of every set and map of operation ids. */
  function OpIdKey(id: OpId): string { id.clientId + [':'] + RenderInt(id.localSeq) }

  lemma OpIdKeyInjective(a: OpId, b: OpId)
    requires OpIdKey(a) == OpIdKey(b)
    ensures a == b
  {
    var v, w := RenderInt(a.localSeq), RenderInt(b.localSeq);
    assert ':' !in v && ':' !in w;
    SplitAtLast(a.clientId, v, b.clientId, w, ':');
    RenderIntInjective(a.localSeq, b.localSeq);
  }

  predicate Ascending(es: seq<WireOp>) {
    forall i, j :: 0 <= i < j < |es| ==> es[i].opId.localSeq < es[j].opId.localSeq
  }

  /** `es` without the entries whose id is in `ids`, order kept. */
  function Without(es: seq<WireOp>, ids: set<OpId>): (r: seq<WireOp>)
    ensures forall e :: e in r <==> e in es && e.opId !in ids
  {
    if es == [] then []
    else
      var n := |es| - 1;
      assert es == es[..n] + [es[n]];
      if es[n].opId in ids then Without(es[..n], ids) else Without(es[..n], ids) + [es[n]]
  }

  lemma {:induction false} WithoutAscending(es: seq<WireOp>, ids: set<OpId>)
    requires Ascending(es)
    ensures Ascending(Without(es, ids))
  {
    if es != [] {
      var n := |es| - 1;
      WithoutAscending(es[..n], ids);
      var r := Without(es[..n], ids);
      forall i | 0 <= i < |r| ensures r[i].opId.localSeq < es[n].opId.localSeq {
        assert r[i] in es[..n];
      }
    }
  }

  lemma WithoutNothing(ids: set<OpId>)
    ensures Without([], ids) == []
  {
  }

  lemma WithoutAppend(es: seq<WireOp>, e: WireOp, ids: set<OpId>)
    ensures Without(es + [e], ids) == if e.opId in ids then Without(es, ids) else Without(es, ids) + [e]
  {
    assert (es + [e])[..|es|] == es;
  }

  lemma {:induction false} WithoutTwice(es: seq<WireOp>, a: set<OpId>, b: set<OpId>)
    ensures Without(Without(es, a), b) == Without(es, a + b)
  {
    hide Ascending;
    if es != [] {
      var n := |es| - 1;
      var front, e := es[..n], es[n];
      assert es == front + [e];
      WithoutTwice(front, a, b);
      WithoutAppend(front, e, a);
      WithoutAppend(front, e, a + b);
      if e.opId !in a {
        WithoutAppend(Without(front, a), e, b);
      }
    }
  }

  lemma {:induction false} WithoutNone(es: seq<WireOp>, ids: set<OpId>)
    requires forall e :: e in es ==> e.opId !in ids
    ensures Without(es, ids) == es
  {
    if es != [] {
      var n := |es| - 1;
      assert es == es[..n] + [es[n]];
      WithoutNone(es[..n], ids);
    }
  }

  function InsertBySeq(e: WireOp, es: seq<WireOp>): seq<WireOp> {
    if es == [] || es[|es| - 1].opId.localSeq <= e.opId.localSeq then es + [e]
    else InsertBySeq(e, es[..|es| - 1]) + [es[|es| - 1]]
  }

  /** The stable sort of `all`. */
  function SortBySeq(es: seq<WireOp>): seq<WireOp> {
    if es == [] then [] else InsertBySeq(es[|es| - 1], SortBySeq(es[..|es| - 1]))
  }

  lemma {:induction false} SortAscending(es: seq<WireOp>)
    requires Ascending(es)
    ensures SortBySeq(es) == es
  {
    if es != [] {
      var n := |es| - 1;
      SortAscending(es[..n]);
      assert es == es[..n] + [es[n]];
    }
  }

  /** In order of sequence number. */
  predicate BySeq(es: seq<WireOp>) { forall i, j :: 0 <= i < j < |es| ==> es[i].opId.localSeq <= es[j].opId.localSeq }

  /** The entries with one sequence number, in the order they stand. */
  function WithSeq(es: seq<WireOp>, n: int): seq<WireOp> {
    if es == [] then []
    else
      var front := WithSeq(es[..|es| - 1], n);
      if es[|es| - 1].opId.localSeq == n then front + [es[|es| - 1]] else front
  }

  lemma WithSeqSnoc(es: seq<WireOp>, e: WireOp, n: int)
    ensures WithSeq(es + [e], n) == if e.opId.localSeq == n then WithSeq(es, n) + [e] else WithSeq(es, n)
  {
    assert (es + [e])[..|es|] == es;
  }

  lemma {:induction false} InsertKeepsSorted(e: WireOp, es: seq<WireOp>)
    requires BySeq(es)
    ensures BySeq(InsertBySeq(e, es))
    ensures multiset(InsertBySeq(e, es)) == multiset(es) + multiset{e}
  {
    if es != [] {
      var n := |es| - 1;
      assert es == es[..n] + [es[n]];
      if es[n].opId.localSeq > e.opId.localSeq {
        InsertKeepsSorted(e, es[..n]);
        LargestLast(es, e, InsertBySeq(e, es[..n]));
        hide InsertBySeq;
      }
    }
  }

  lemma LargestLast(es: seq<WireOp>, e: WireOp, r: seq<WireOp>)
    requires es != [] && BySeq(es) && BySeq(r) && e.opId.localSeq <= es[|es| - 1].opId.localSeq
    requires multiset(r) == multiset(es[..|es| - 1]) + multiset{e}
    ensures BySeq(r + [es[|es| - 1]])
  {
    forall i | 0 <= i < |r| ensures r[i].opId.localSeq <= es[|es| - 1].opId.localSeq {
      assert r[i] in multiset(r);
      if r[i] != e { assert r[i] in es[..|es| - 1]; }
    }
  }

  /** An inserted entry goes behind those with its sequence number. */
  lemma {:induction false} InsertIsStable(e: WireOp, es: seq<WireOp>, n: int)
    ensures WithSeq(InsertBySeq(e, es), n) == if e.opId.localSeq == n then WithSeq(es, n) + [e] else WithSeq(es, n)
  {
    if es == [] || es[|es| - 1].opId.localSeq <= e.opId.localSeq {
      WithSeqSnoc(es, e, n);
    } else {
      var k := |es| - 1;
      InsertIsStable(e, es[..k], n);
      WithSeqSnoc(InsertBySeq(e, es[..k]), es[k], n);
      assert es == es[..k] + [es[k]];
      WithSeqSnoc(es[..k], es[k], n);
    }
  }

  /** The sort orders by sequence number, loses and invents nothing, and keeps entries of equal number
      in the order they were appended. */
  lemma {:induction false} SortSorts(es: seq<WireOp>)
    ensures BySeq(SortBySeq(es)) && multiset(SortBySeq(es)) == multiset(es)
    ensures forall n :: WithSeq(SortBySeq(es), n) == WithSeq(es, n)
  {
    hide InsertBySeq;
    if es != [] {
      var k := |es| - 1;
      SortSorts(es[..k]);
      InsertKeepsSorted(es[k], SortBySeq(es[..k]));
      assert es == es[..k] + [es[k]];
      forall n ensures WithSeq(SortBySeq(es), n) == WithSeq(es, n) {
        InsertIsStable(es[k], SortBySeq(es[..k]), n);
        WithSeqSnoc(es[..k], es[k], n);
      }
    }
  }

  class InMemoryOutboxStore {
    var entries: seq<WireOp>
    var counter: int

    constructor ()
      ensures entries == [] && counter == 0
    {
      entries, counter := [], 0;
    }

    method Append(entry: WireOp)
      modifies this`entries
      ensures entries == old(entries) + [entry]
    {
      entries := entries + [entry];
    }

    /** All entries in order of sequence number, those of equal number in the order appended. */
    method All() returns (out: seq<WireOp>)
      ensures BySeq(out) && multiset(out) == multiset(entries) && forall n :: WithSeq(out, n) == WithSeq(entries, n)
      ensures out == SortBySeq(entries)
    {
      hide InsertBySeq;
      out := [];
      for i := 0 to |entries|
        invariant out == SortBySeq(entries[..i])
      {
        assert entries[..i + 1][..i] == entries[..i];
        out := InsertBySeq(entries[i], out);
      }
      assert entries[..|entries|] == entries;
      SortSorts(entries);
    }

    method Clear()
      modifies this`entries
      ensures entries == []
    {
      entries := [];
    }

    method Remove(opIds: seq<OpId>)
      modifies this`entries
      ensures entries == Without(old(entries), set id | id in opIds)
    {
      hide Without, OpIdKey;
      if opIds == [] {
        WithoutNone(entries, {});
        assert (set id | id in opIds) == {};
        return;
      }
      var drop := set id | id in opIds :: OpIdKey(id);
      var kept := [];
      WithoutNothing(set id | id in opIds);
      for i := 0 to |entries|
        invariant entries == old(entries)
        invariant kept == Without(entries[..i], set id | id in opIds)
      {
        var e := entries[i];
        if OpIdKey(e.opId) in drop {
          var id :| id in opIds && OpIdKey(id) == OpIdKey(e.opId);
          OpIdKeyInjective(id, e.opId);
        } else {
          kept := kept + [e];
        }
        assert entries[..i + 1] == entries[..i] + [e];
        WithoutAppend(entries[..i], e, set id | id in opIds);
      }
      assert entries[..|entries|] == entries;
      entries := kept;
    }

    method NextLocalSeq() returns (n: int)
      modifies this`counter
      ensures counter == old(counter) + 1 && n == counter
    {
      counter := counter + 1;
      n := counter;
    }
  }
}
