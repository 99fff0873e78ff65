/** Whole runs of the sync engine: what no sequence of calls can break. */
module SyncRuns {
  import opened Sequences
  import opened Buffers
  import opened Outbox
  import opened SyncEngine

  /** One call into the engine. `Flush` is both the explicit flush and the coalescing timer. */
  datatype Event =
    | Author(op: ObjectOp)
    | Remote(op: ObjectOp)
    | Ack(ids: seq<OpId>, revision: Option<int>)
    | Reject(ids: seq<OpId>)
    | Reconcile(snapshot: Scene)
    | Flush

  /** The engine with its history: every envelope authored, and every id acked or rejected and not
      authored since. */
  datatype Run = Run(st: EngineState, authored: seq<WireOp>, settled: set<OpId>)

  function NewRun(initial: Scene): Run {
    Run(EngineState(initial, initial.version, [], false, [], 0, []), [], {})
  }

  function Step(apply: Apply, client: string, r: Run, ev: Event): Run {
    match ev
    case Author(op) =>
      var st := AuthorStep(apply, client, r.st, op);
      if st.counter == r.st.counter then r.(st := st)
      else
        var e := Envelope(client, r.st, op);
        Run(st, r.authored + [e], r.settled - {e.opId})
    case Remote(op) => r.(st := RemoteStep(apply, r.st, op))
    case Ack(ids, revision) => r.(st := AckStep(r.st, ids, revision), settled := r.settled + IdSet(ids))
    case Reject(ids) => r.(st := AckStep(r.st, ids, None), settled := r.settled + IdSet(ids))
    case Reconcile(snapshot) => r.(st := ReconcileStep(apply, r.st, snapshot))
    case Flush => r.(st := FlushStep(r.st))
  }

  function Execute(apply: Apply, client: string, r: Run, events: seq<Event>): Run {
    if events == [] then r
    else Step(apply, client, Execute(apply, client, r, events[..|events| - 1]), events[|events| - 1])
  }

  /** What the transport has seen, each operation at its first appearance. */
  function FirstSends(sent: seq<WireOp>): (r: seq<WireOp>)
    ensures forall e :: e in r <==> e in sent
  {
    if sent == [] then []
    else
      var n := |sent| - 1;
      assert sent == sent[..n] + [sent[n]];
      if sent[n] in sent[..n] then FirstSends(sent[..n]) else FirstSends(sent[..n]) + [sent[n]]
  }

  lemma {:induction false} FirstSendsRepeat(sent: seq<WireOp>, batch: seq<WireOp>)
    requires forall e :: e in batch ==> e in sent
    ensures FirstSends(sent + batch) == FirstSends(sent)
  {
    if batch == [] {
      assert sent + batch == sent;
    } else {
      var n := |batch| - 1;
      FirstSendsRepeat(sent, batch[..n]);
      assert (sent + batch)[..|sent| + n] == sent + batch[..n];
      assert batch[n] in sent;
    }
  }

  lemma {:induction false} FirstSendsNew(sent: seq<WireOp>, batch: seq<WireOp>)
    requires Distinct(batch) && forall e :: e in batch ==> e !in sent
    ensures FirstSends(sent + batch) == FirstSends(sent) + batch
  {
    if batch == [] {
      assert sent + batch == sent;
    } else {
      var n := |batch| - 1;
      FirstSendsNew(sent, batch[..n]);
      assert (sent + batch)[..|sent| + n] == sent + batch[..n];
      assert batch == batch[..n] + [batch[n]];
      assert batch[n] !in sent + batch[..n];
    }
  }

  /** Since the last flush nothing was pending but what was authored after it; what came before has been
      sent, and nothing is sent that was not authored. */
  ghost predicate FlushedUpTo(r: Run, p: nat) {
    && p <= |r.authored| && r.st.pending == r.authored[p..]
    && (forall e :: e in r.authored[..p] ==> e in Flat(r.st.frames))
    && forall e :: e in Flat(r.st.frames) ==> e in r.authored
  }

  predicate Numbered(client: string, authored: seq<WireOp>) {
    forall i :: 0 <= i < |authored| ==> authored[i].opId == OpId(client, i + 1)
  }

  ghost predicate Inv(client: string, r: Run) {
    && r.st.counter == |r.authored| && Numbered(client, r.authored)
    && r.st.entries == Without(r.authored, r.settled)
    && (r.st.timerArmed <==> r.st.pending != [])
    && exists p: nat :: FlushedUpTo(r, p)
  }

  lemma UnsentIsNew(client: string, authored: seq<WireOp>, m: nat)
    requires Numbered(client, authored) && m <= |authored|
    ensures Distinct(authored[m..])
    ensures forall e :: e in authored[m..] ==> e !in authored[..m]
  {
    forall e | e in authored[m..] ensures e !in authored[..m] {
      var i :| 0 <= i < |authored| - m && authored[m..][i] == e;
      assert authored[m + i] == e;
      assert forall j :: 0 <= j < m ==> authored[j].opId.localSeq == j + 1;
    }
  }

  lemma SentFirst(sent: seq<WireOp>, e: WireOp)
    ensures e in FirstSends(sent) <==> e in sent
  {
  }

  lemma AuthorKeeps(apply: Apply, client: string, r: Run, op: ObjectOp)
    requires Inv(client, r)
    ensures Inv(client, Step(apply, client, r, Author(op)))
  {
    hide Without, FirstSends, Flat, Numbered, FlushedUpTo;
    match apply(r.st.scene, op)
    case Refused(_) =>
    case Applied(next, inverse) =>
      if !IsNoOp(inverse) { MintedKeeps(client, r, Envelope(client, r.st, op), next); }
  }

  lemma NumberedAppend(client: string, authored: seq<WireOp>, e: WireOp)
    requires Numbered(client, authored) && e.opId == OpId(client, |authored| + 1)
    ensures Numbered(client, authored + [e])
    ensures forall d :: d in authored ==> d.opId != e.opId
  {
  }

  /** A newly authored operation joins the pending ones. */
  lemma MintedPending(r: Run, r': Run, e: WireOp, p: nat)
    requires FlushedUpTo(r, p) && r'.st.frames == r.st.frames
    requires r'.authored == r.authored + [e] && r'.st.pending == r.st.pending + [e]
    ensures FlushedUpTo(r', p)
  {
    hide FirstSends, Flat;
    assert r'.authored[..p] == r.authored[..p];
    assert r'.authored[p..] == r.authored[p..] + [e];
  }

  lemma {:induction false} WithoutOther(es: seq<WireOp>, ids: set<OpId>, id: OpId)
    requires forall e :: e in es ==> e.opId != id
    ensures Without(es, ids - {id}) == Without(es, ids)
  {
    if es != [] {
      assert es[|es| - 1] in es;
      WithoutOther(es[..|es| - 1], ids, id);
    }
  }

  lemma MintedKeeps(client: string, r: Run, e: WireOp, next: Scene)
    requires Inv(client, r) && e.opId == OpId(client, r.st.counter + 1)
    ensures Inv(client, Run(r.st.(scene := next, counter := r.st.counter + 1, entries := r.st.entries + [e],
              pending := r.st.pending + [e], timerArmed := true), r.authored + [e], r.settled - {e.opId}))
  {
    hide Without, FlushedUpTo, Numbered;
    var p: nat :| FlushedUpTo(r, p);
    var st := r.st.(scene := next, counter := r.st.counter + 1, entries := r.st.entries + [e],
                    pending := r.st.pending + [e], timerArmed := true);
    var r' := Run(st, r.authored + [e], r.settled - {e.opId});
    NumberedAppend(client, r.authored, e);
    MintedPending(r, r', e, p);
    WithoutAppend(r.authored, e, r'.settled);
    WithoutOther(r.authored, r.settled, e.opId);
  }

  lemma AckKeeps(client: string, r: Run, ids: seq<OpId>, revision: Option<int>)
    requires Inv(client, r)
    ensures Inv(client, r.(st := AckStep(r.st, ids, revision), settled := r.settled + IdSet(ids)))
  {
    hide Without, FirstSends, Flat, Numbered;
    var p: nat :| FlushedUpTo(r, p);
    WithoutTwice(r.authored, r.settled, IdSet(ids));
    assert FlushedUpTo(r.(st := AckStep(r.st, ids, revision), settled := r.settled + IdSet(ids)), p);
  }

  lemma NumberedAscends(client: string, authored: seq<WireOp>, ids: set<OpId>)
    requires Numbered(client, authored)
    ensures Ascending(Without(authored, ids)) && SortBySeq(Without(authored, ids)) == Without(authored, ids)
  {
    hide Without, SortBySeq;
    WithoutAscending(authored, ids);
    SortAscending(Without(authored, ids));
  }

  /** What one more batch of authored operations leaves flushed. */
  lemma BatchFlushes(r: Run, r': Run, p: nat, batch: seq<WireOp>, q: nat)
    requires FlushedUpTo(r, p) && r'.authored == r.authored && r'.st.frames == r.st.frames + [batch]
    requires forall e :: e in batch ==> e in r.authored
    requires || (q == p && r'.st.pending == r.st.pending)
             || (q == |r.authored| && r'.st.pending == [] && batch == r.st.pending)
    ensures FlushedUpTo(r', q)
  {
    hide FirstSends, Flat;
    FlatSnoc(r.st.frames, batch);
    assert r.authored == r.authored[..p] + r.authored[p..] && r.authored[..|r.authored|] == r.authored;
  }

  lemma ReconcileKeeps(apply: Apply, client: string, r: Run, snapshot: Scene)
    requires Inv(client, r)
    ensures Inv(client, r.(st := ReconcileStep(apply, r.st, snapshot)))
  {
    hide Replay, SortBySeq, Without, FirstSends, Flat, Numbered;
    var r' := r.(st := ReconcileStep(apply, r.st, snapshot));
    var p: nat :| FlushedUpTo(r, p);
    NumberedAscends(client, r.authored, r.settled);
    if r'.st.frames != r.st.frames {
      BatchFlushes(r, r', p, r.st.entries, p);
    } else {
      assert FlushedUpTo(r', p);
    }
  }

  lemma FlushKeeps(client: string, r: Run)
    requires Inv(client, r)
    ensures Inv(client, r.(st := FlushStep(r.st)))
  {
    hide Without, FirstSends, Flat, Numbered;
    var r' := r.(st := FlushStep(r.st));
    var p: nat :| FlushedUpTo(r, p);
    if r.st.pending == [] {
      assert FlushedUpTo(r', p);
    } else {
      BatchFlushes(r, r', p, r.st.pending, |r.authored|);
    }
  }

  lemma StepKeeps(apply: Apply, client: string, r: Run, ev: Event)
    requires Inv(client, r)
    ensures Inv(client, Step(apply, client, r, ev))
  {
    hide Without, FirstSends, Flat, AuthorStep, AckStep, ReconcileStep, FlushStep, Numbered;
    match ev
    case Author(op) => AuthorKeeps(apply, client, r, op);
    case Remote(op) =>
      var p: nat :| FlushedUpTo(r, p);
      assert FlushedUpTo(Step(apply, client, r, ev), p);
    case Ack(ids, revision) => AckKeeps(client, r, ids, revision);
    case Reject(ids) => AckKeeps(client, r, ids, None);
    case Reconcile(snapshot) => ReconcileKeeps(apply, client, r, snapshot);
    case Flush => FlushKeeps(client, r);
  }

  lemma {:induction false} RunKeeps(apply: Apply, client: string, initial: Scene, events: seq<Event>)
    ensures Inv(client, Execute(apply, client, NewRun(initial), events))
  {
    if events == [] {
      assert FlushedUpTo(NewRun(initial), 0);
    } else {
      hide Inv, Step;
      RunKeeps(apply, client, initial, events[..|events| - 1]);
      StepKeeps(apply, client, Execute(apply, client, NewRun(initial), events[..|events| - 1]), events[|events| - 1]);
    }
  }

  // ---- The order of first sends ---------------------------------------------

  /** First sends came in the order the operations were authored, none skipped. */
  predicate InOrder(r: Run) { FirstSends(Flat(r.st.frames)) <= r.authored }

  /** Of two unsent operations the earlier was settled already and the later was not. */
  predicate Overtaken(r: Run, i: nat, j: nat) {
    && i < j < |r.authored|
    && r.authored[i] !in Flat(r.st.frames) && r.authored[i] !in r.st.entries
    && r.authored[j] !in Flat(r.st.frames) && r.authored[j] in r.st.entries
  }

  /** The event is a reconnect that resends an operation past an earlier one, settled before it was sent. */
  ghost predicate Overtakes(r: Run, ev: Event) {
    ev.Reconcile? && ev.snapshot.version >= r.st.baseRevision && exists i: nat, j: nat :: Overtaken(r, i, j)
  }

  ghost predicate NoOvertaking(apply: Apply, client: string, r: Run, events: seq<Event>) {
    forall i :: 0 <= i < |events| ==> !Overtakes(Execute(apply, client, r, events[..i]), events[i])
  }

  lemma {:induction false} FirstSendsGrow(sent: seq<WireOp>, batch: seq<WireOp>)
    ensures FirstSends(sent) <= FirstSends(sent + batch)
  {
    if batch == [] {
      assert sent + batch == sent;
    } else {
      var n := |batch| - 1;
      FirstSendsGrow(sent, batch[..n]);
      assert (sent + batch)[..|sent| + n] == sent + batch[..n];
    }
  }

  /** Keeping part of a list without repeats leaves a prefix exactly when nothing kept follows anything dropped. */
  lemma {:induction false} KeepsPrefixIff(es: seq<WireOp>, ids: set<OpId>)
    requires Distinct(es)
    ensures Without(es, ids) <= es
       <==> forall i, j :: 0 <= i < j < |es| && es[i].opId in ids ==> es[j].opId in ids
    ensures |Without(es, ids)| <= |es|
    ensures |Without(es, ids)| == |es| <==> forall e :: e in es ==> e.opId !in ids
  {
    if es != [] {
      var n := |es| - 1;
      var front, e := es[..n], es[n];
      assert es == front + [e];
      KeepsPrefixIff(front, ids);
      WithoutAppend(front, e, ids);
      hide Without;
      KeepsPrefixStep(front, e, ids, Without(front, ids));
    }
  }

  lemma KeepsPrefixStep(front: seq<WireOp>, e: WireOp, ids: set<OpId>, w: seq<WireOp>)
    requires Distinct(front + [e]) && |w| <= |front|
    requires |w| == |front| <==> forall d :: d in front ==> d.opId !in ids
    requires w <= front <==> forall i, j :: 0 <= i < j < |front| && front[i].opId in ids ==> front[j].opId in ids
    ensures (if e.opId in ids then w else w + [e]) <= front + [e]
       <==> forall i, j :: 0 <= i < j < |front + [e]| && (front + [e])[i].opId in ids ==> (front + [e])[j].opId in ids
  {
    var es := front + [e];
    assert forall i :: 0 <= i < |front| ==> es[i] == front[i];
    if e.opId in ids {
      assert w <= es <==> w <= front;
    } else if forall d :: d in front ==> d.opId !in ids {
      assert forall i :: 0 <= i < |front| ==> front[i] in front;
      assert w <= front;
    } else {
      var d :| d in front && d.opId in ids;
      var i :| 0 <= i < |front| && front[i] == d;
      assert es[i].opId in ids && es[|front|].opId !in ids;
      assert (w + [e])[|w|] == e && es[|w|] != es[|front|];
    }
  }

  /** Handing out old operations and then a selection of the unsent ones keeps the order exactly when the
      selection is a prefix of them. */
  lemma SendsSome(client: string, r: Run, m: nat, again: seq<WireOp>, chosen: seq<WireOp>)
    requires Numbered(client, r.authored) && m <= |r.authored| && FirstSends(Flat(r.st.frames)) == r.authored[..m]
    requires Distinct(chosen) && forall e :: e in again ==> e in r.authored[..m]
    requires forall e :: e in chosen ==> e in r.authored[m..]
    ensures FirstSends(Flat(r.st.frames + [again + chosen])) == r.authored[..m] + chosen
    ensures r.authored[..m] + chosen <= r.authored <==> chosen <= r.authored[m..]
  {
    hide Flat, FirstSends;
    var sent := Flat(r.st.frames);
    FlatSnoc(r.st.frames, again + chosen);
    forall e ensures e in sent <==> e in r.authored[..m] { SentFirst(sent, e); }
    FirstSendsRepeat(sent, again);
    UnsentIsNew(client, r.authored, m);
    FirstSendsNew(sent + again, chosen);
    assert sent + (again + chosen) == (sent + again) + chosen;
    assert r.authored == r.authored[..m] + r.authored[m..];
  }

  /** What was flushed is among what was sent. */
  lemma FlushedIsSent(client: string, r: Run, p: nat, m: nat)
    requires Numbered(client, r.authored) && FlushedUpTo(r, p)
    requires m <= |r.authored| && FirstSends(Flat(r.st.frames)) == r.authored[..m]
    ensures p <= m
  {
    hide Flat, FirstSends;
    if p > 0 {
      assert r.authored[..p][p - 1] == r.authored[p - 1];
      SentFirst(Flat(r.st.frames), r.authored[p - 1]);
      var k :| 0 <= k < m && r.authored[..m][k] == r.authored[p - 1];
      assert r.authored[k].opId.localSeq == k + 1;
    }
  }

  lemma PrefixParts(es: seq<WireOp>, p: nat, m: nat)
    requires p <= m <= |es|
    ensures es[p..] == es[p..m] + es[m..] && forall e :: e in es[p..m] ==> e in es[..m]
  {
    assert es[..m] == es[..p] + es[p..m];
  }

  /** A flush sends everything unsent, in order. */
  lemma FlushInOrder(client: string, r: Run)
    requires Inv(client, r) && InOrder(r)
    ensures InOrder(r.(st := FlushStep(r.st)))
  {
    hide Flat, FirstSends, Without, Numbered;
    var p: nat :| FlushedUpTo(r, p);
    var m := |FirstSends(Flat(r.st.frames))|;
    assert FirstSends(Flat(r.st.frames)) == r.authored[..m];
    FlushedIsSent(client, r, p, m);
    PrefixParts(r.authored, p, m);
    UnsentIsNew(client, r.authored, m);
    if r.st.pending != [] {
      SendsSome(client, r, m, r.authored[p..m], r.authored[m..]);
    }
  }

  lemma {:induction false} WithoutSplit(a: seq<WireOp>, b: seq<WireOp>, ids: set<OpId>)
    ensures Without(a + b, ids) == Without(a, ids) + Without(b, ids)
  {
    hide *;
    if b == [] {
      WithoutNothing(ids);
      assert a + b == a;
    } else {
      var n := |b| - 1;
      var front, e := b[..n], b[n];
      assert b == front + [e] && a + b == (a + front) + [e];
      WithoutSplit(a, front, ids);
      WithoutAppend(a + front, e, ids);
      WithoutAppend(front, e, ids);
    }
  }

  lemma {:induction false} WithoutDistinct(es: seq<WireOp>, ids: set<OpId>)
    requires Distinct(es)
    ensures Distinct(Without(es, ids))
  {
    if es != [] {
      assert es == es[..|es| - 1] + [es[|es| - 1]];
      WithoutDistinct(es[..|es| - 1], ids);
    }
  }

  lemma OvertakenIff(client: string, r: Run, m: nat)
    requires Inv(client, r) && m <= |r.authored| && FirstSends(Flat(r.st.frames)) == r.authored[..m]
    ensures (exists i: nat, j: nat :: Overtaken(r, i, j))
       <==> exists i: nat, j: nat :: m <= i < j < |r.authored| && r.authored[i].opId in r.settled
                                     && r.authored[j].opId !in r.settled
  {
    hide Without;
    var sent := Flat(r.st.frames);
    forall i | 0 <= i < |r.authored| ensures r.authored[i] in sent <==> i < m {
      SentFirst(sent, r.authored[i]);
      if i < m { assert r.authored[..m][i] == r.authored[i]; }
      if r.authored[i] in r.authored[..m] {
        var k :| 0 <= k < m && r.authored[..m][k] == r.authored[i];
        assert r.authored[k].opId.localSeq == k + 1;
      }
    }
    hide Flat, FirstSends;
    forall i | 0 <= i < |r.authored| ensures r.authored[i] in r.st.entries <==> r.authored[i].opId !in r.settled {
      assert r.authored[i] in r.authored;
    }
    if i: nat, j: nat :| m <= i < j < |r.authored| && r.authored[i].opId in r.settled
                         && r.authored[j].opId !in r.settled {
      assert Overtaken(r, i, j);
    }
  }

  lemma InvParts(client: string, r: Run)
    requires Inv(client, r)
    ensures Numbered(client, r.authored) && r.st.entries == Without(r.authored, r.settled)
  {
  }

  lemma InOrderParts(r: Run) returns (m: nat)
    requires InOrder(r)
    ensures m <= |r.authored| && FirstSends(Flat(r.st.frames)) == r.authored[..m]
  {
    hide FirstSends, Flat;
    m := |FirstSends(Flat(r.st.frames))|;
  }

  lemma InOrderIs(r: Run)
    ensures InOrder(r) <==> FirstSends(Flat(r.st.frames)) <= r.authored
  {
  }

  /** Resending the outbox keeps the order exactly when it overtakes nothing. */
  lemma ResendInOrder(client: string, r: Run, r': Run)
    requires Inv(client, r) && InOrder(r)
    requires r'.authored == r.authored && r'.st.frames == r.st.frames + [r.st.entries]
    ensures InOrder(r') <==> !exists i: nat, j: nat :: Overtaken(r, i, j)
  {
    hide *;
    InvParts(client, r);
    var m := InOrderParts(r);
    InOrderIs(r');
    OvertakenIff(client, r, m);
    var unsent := r.authored[m..];
    var again, chosen := Without(r.authored[..m], r.settled), Without(unsent, r.settled);
    assert r.authored == r.authored[..m] + unsent;
    WithoutSplit(r.authored[..m], unsent, r.settled);
    UnsentIsNew(client, r.authored, m);
    WithoutDistinct(unsent, r.settled);
    SendsSome(client, r, m, again, chosen);
    KeepsPrefixIff(unsent, r.settled);
    UnsentShift(r.authored, m, r.settled);
  }

  /** With an empty outbox nothing is resent. */
  lemma EmptyOvertakesNothing(r: Run)
    requires r.st.entries == []
    ensures !exists i: nat, j: nat :: Overtaken(r, i, j)
  {
  }

  /** A reconnect that is taken keeps the order exactly when it overtakes nothing. */
  lemma ReconcileInOrder(apply: Apply, client: string, r: Run, snapshot: Scene)
    requires Inv(client, r) && InOrder(r)
    ensures InOrder(r.(st := ReconcileStep(apply, r.st, snapshot))) <==> !Overtakes(r, Reconcile(snapshot))
  {
    hide Flat, FirstSends, Without, SortBySeq, Replay, Overtaken, Numbered, Inv, InOrder;
    InvParts(client, r);
    NumberedAscends(client, r.authored, r.settled);
    var r' := r.(st := ReconcileStep(apply, r.st, snapshot));
    InOrderIs(r);
    InOrderIs(r');
    if r.st.entries == [] {
      EmptyOvertakesNothing(r);
    } else if snapshot.version >= r.st.baseRevision {
      ResendInOrder(client, r, r');
    }
  }

  lemma UnsentShift(es: seq<WireOp>, m: nat, ids: set<OpId>)
    requires m <= |es|
    ensures (forall i, j :: 0 <= i < j < |es[m..]| && es[m..][i].opId in ids ==> es[m..][j].opId in ids)
       <==> !exists i: nat, j: nat :: m <= i < j < |es| && es[i].opId in ids && es[j].opId !in ids
  {
    if i: nat, j: nat :| m <= i < j < |es| && es[i].opId in ids && es[j].opId !in ids {
      assert es[m..][i - m] == es[i] && es[m..][j - m] == es[j];
    }
    if i, j :| 0 <= i < j < |es[m..]| && es[m..][i].opId in ids && es[m..][j].opId !in ids {
      assert es[m + i] == es[m..][i] && es[m + j] == es[m..][j];
    }
  }

  lemma PrefixLast(es: seq<WireOp>, all: seq<WireOp>, e: WireOp)
    requires es <= all + [e]
    ensures es <= all || e in es
  {
    if |es| > |all| { assert es[|all|] == e; }
  }

  /** Authoring changes neither what is sent nor whether it was in order. */
  lemma AuthoredInOrder(client: string, r: Run, e: WireOp)
    requires Inv(client, r) && e.opId == OpId(client, |r.authored| + 1)
    ensures FirstSends(Flat(r.st.frames)) <= r.authored + [e] <==> InOrder(r)
  {
    var p: nat :| FlushedUpTo(r, p);
    NumberedAppend(client, r.authored, e);
    SentFirst(Flat(r.st.frames), e);
    hide Flat, FirstSends, Without, Numbered;
    if FirstSends(Flat(r.st.frames)) <= r.authored + [e] {
      PrefixLast(FirstSends(Flat(r.st.frames)), r.authored, e);
    }
  }

  /** One event keeps the order exactly when it overtakes nothing, and an order once broken stays broken. */
  lemma StepInOrderIff(apply: Apply, client: string, r: Run, ev: Event)
    requires Inv(client, r)
    ensures InOrder(Step(apply, client, r, ev)) <==> InOrder(r) && !Overtakes(r, ev)
  {
    hide Flat, FirstSends, Without, SortBySeq, Replay, Overtaken, Blocked, Numbered, IdSet;
    match ev
    case Author(op) =>
      AuthoredInOrder(client, r, Envelope(client, r.st, op));
    case Reconcile(snapshot) =>
      if InOrder(r) { ReconcileInOrder(apply, client, r, snapshot); }
      BrokenStays(r, Step(apply, client, r, ev), SortBySeq(r.st.entries));
    case Flush =>
      if InOrder(r) { FlushInOrder(client, r); }
      BrokenStays(r, Step(apply, client, r, ev), r.st.pending);
    case _ =>
  }

  lemma BrokenStays(r: Run, r': Run, batch: seq<WireOp>)
    requires r'.authored == r.authored
    requires r'.st.frames == r.st.frames || r'.st.frames == r.st.frames + [batch]
    ensures InOrder(r') ==> InOrder(r)
  {
    FlatSnoc(r.st.frames, batch);
    hide Flat, FirstSends;
    FirstSendsGrow(Flat(r.st.frames), batch);
  }

  lemma ExecuteFront(apply: Apply, client: string, r: Run, events: seq<Event>)
    requires events != []
    ensures Execute(apply, client, r, events)
         == Step(apply, client, Execute(apply, client, r, events[..|events| - 1]), events[|events| - 1])
  {
    hide Step;
  }

  lemma NoOvertakingFront(apply: Apply, client: string, r: Run, events: seq<Event>)
    requires events != []
    ensures var front, last := events[..|events| - 1], events[|events| - 1];
            NoOvertaking(apply, client, r, events)
            <==> NoOvertaking(apply, client, r, front) && !Overtakes(Execute(apply, client, r, front), last)
  {
    hide Execute, Overtakes;
    var n := |events| - 1;
    forall i | 0 <= i < n ensures events[..n][..i] == events[..i] && events[..n][i] == events[i] {}
  }

  lemma StartInOrder(apply: Apply, client: string, initial: Scene)
    ensures InOrder(NewRun(initial)) && NoOvertaking(apply, client, NewRun(initial), [])
    ensures Execute(apply, client, NewRun(initial), []) == NewRun(initial) && SettledAreSent(NewRun(initial))
  {
    NothingSent();
  }

  lemma {:induction false} InOrderIff(apply: Apply, client: string, initial: Scene, events: seq<Event>)
    ensures InOrder(Execute(apply, client, NewRun(initial), events))
       <==> NoOvertaking(apply, client, NewRun(initial), events)
  {
    hide *;
    if events == [] {
      StartInOrder(apply, client, initial);
    } else {
      var front := events[..|events| - 1];
      InOrderIff(apply, client, initial, front);
      RunKeeps(apply, client, initial, front);
      ExecuteFront(apply, client, NewRun(initial), events);
      NoOvertakingFront(apply, client, NewRun(initial), events);
      StepInOrderIff(apply, client, Execute(apply, client, NewRun(initial), front), events[|events| - 1]);
    }
  }

  /** After any calls: the outbox is what was authored and not settled since, in order; each such operation
      has been sent or is waiting for the armed timer; and operations reach the transport for the first time
      in the order they were authored, none skipped, if and only if no reconnect resent an operation past an
      earlier one that was settled before it was sent. */
  lemma {:induction false} OutboxSafety(apply: Apply, client: string, initial: Scene, events: seq<Event>)
    ensures var r := Execute(apply, client, NewRun(initial), events);
            && r.st.entries == Without(r.authored, r.settled)
            && Numbered(client, r.authored)
            && (r.st.timerArmed <==> r.st.pending != [])
            && (forall e :: e in r.st.entries ==> e in Flat(r.st.frames) || e in r.st.pending)
            && (FirstSends(Flat(r.st.frames)) <= r.authored <==> NoOvertaking(apply, client, NewRun(initial), events))
  {
    hide Execute, Without, Flat, FirstSends, Numbered, NoOvertaking;
    var r := Execute(apply, client, NewRun(initial), events);
    RunKeeps(apply, client, initial, events);
    InOrderIff(apply, client, initial, events);
    var p: nat :| FlushedUpTo(r, p);
    assert r.authored == r.authored[..p] + r.authored[p..];
  }

  // ---- Acks of sent operations ----------------------------------------------

  predicate Sent(r: Run, id: OpId) { exists e :: e in Flat(r.st.frames) && e.opId == id }

  /** Acks and rejects name only operations the transport was handed. */
  predicate Legal(r: Run, ev: Event) { (ev.Ack? || ev.Reject?) ==> forall id :: id in ev.ids ==> Sent(r, id) }

  ghost predicate LegalRun(apply: Apply, client: string, r: Run, events: seq<Event>) {
    forall i :: 0 <= i < |events| ==> Legal(Execute(apply, client, r, events[..i]), events[i])
  }

  ghost predicate SettledAreSent(r: Run) { forall id :: id in r.settled ==> Sent(r, id) }

  lemma LegalStep(apply: Apply, client: string, r: Run, ev: Event)
    requires SettledAreSent(r) && Legal(r, ev)
    ensures SettledAreSent(Step(apply, client, r, ev))
  {
    hide Flat, Without, SortBySeq, Replay, Blocked;
    var r' := Step(apply, client, r, ev);
    if r'.st.frames != r.st.frames { FlatSnoc(r.st.frames, r'.st.frames[|r.st.frames|]); }
    forall id | Sent(r, id) ensures Sent(r', id) {
      var e :| e in Flat(r.st.frames) && e.opId == id;
      assert e in Flat(r'.st.frames);
    }
  }

  /** While only sent operations are settled, nothing can be overtaken. */
  lemma SentSettledOvertakesNothing(client: string, r: Run, ev: Event)
    requires Inv(client, r) && SettledAreSent(r)
    ensures !Overtakes(r, ev)
  {
    hide Flat, Without, FirstSends;
    var p: nat :| FlushedUpTo(r, p);
    forall i | 0 <= i < |r.authored| && r.authored[i].opId in r.settled ensures r.authored[i] in Flat(r.st.frames) {
      var e :| e in Flat(r.st.frames) && e.opId == r.authored[i].opId;
      var k :| 0 <= k < |r.authored| && r.authored[k] == e;
      assert r.authored[k].opId.localSeq == k + 1;
    }
    forall i: nat, j: nat ensures !Overtaken(r, i, j) {}
  }

  lemma LegalFront(apply: Apply, client: string, r: Run, events: seq<Event>)
    requires events != [] && LegalRun(apply, client, r, events)
    ensures LegalRun(apply, client, r, events[..|events| - 1])
    ensures Legal(Execute(apply, client, r, events[..|events| - 1]), events[|events| - 1])
  {
    hide Execute, Legal;
    var n := |events| - 1;
    forall i | 0 <= i < n ensures Legal(Execute(apply, client, r, events[..n][..i]), events[..n][i]) {
      assert events[..n][..i] == events[..i];
    }
  }

  /** In particular the order holds over every run whose acks and rejects name sent operations. */
  lemma {:induction false} LegalRunsKeepOrder(apply: Apply, client: string, initial: Scene, events: seq<Event>)
    requires LegalRun(apply, client, NewRun(initial), events)
    ensures SettledAreSent(Execute(apply, client, NewRun(initial), events))
    ensures InOrder(Execute(apply, client, NewRun(initial), events))
  {
    hide *;
    if events == [] {
      StartInOrder(apply, client, initial);
    } else {
      var front, last := events[..|events| - 1], events[|events| - 1];
      var r := Execute(apply, client, NewRun(initial), front);
      LegalFront(apply, client, NewRun(initial), events);
      LegalRunsKeepOrder(apply, client, initial, front);
      RunKeeps(apply, client, initial, front);
      ExecuteFront(apply, client, NewRun(initial), events);
      LegalStep(apply, client, r, last);
      SentSettledOvertakesNothing(client, r, last);
      StepInOrderIff(apply, client, r, last);
    }
  }

  lemma RevisionStep(apply: Apply, client: string, r: Run, ev: Event)
    ensures r.st.baseRevision <= Step(apply, client, r, ev).st.baseRevision
  {
    hide Replay, SortBySeq, Without, Blocked;
  }

  /** The base revision never falls, whatever the calls. */
  lemma {:induction false} BaseRevisionNeverFalls(apply: Apply, client: string, r: Run, events: seq<Event>, i: nat)
    requires i <= |events|
    ensures Execute(apply, client, r, events[..i]).st.baseRevision <= Execute(apply, client, r, events).st.baseRevision
    decreases |events|
  {
    hide *;
    if i == |events| {
      assert events[..i] == events;
    } else {
      var n := |events| - 1;
      BaseRevisionNeverFalls(apply, client, r, events[..n], i);
      assert events[..n][..i] == events[..i];
      ExecuteFront(apply, client, r, events);
      RevisionStep(apply, client, Execute(apply, client, r, events[..n]), events[n]);
    }
  }

  /** Envelopes carry a base revision the engine knew: never beyond the current one, and rising. */
  predicate RevisionsRise(r: Run) {
    && (forall i :: 0 <= i < |r.authored| ==> r.authored[i].baseRevision <= r.st.baseRevision)
    && forall i, j :: 0 <= i < j < |r.authored| ==> r.authored[i].baseRevision <= r.authored[j].baseRevision
  }

  lemma {:induction false} EnvelopesCarryKnownRevisions(apply: Apply, client: string, initial: Scene,
                                                        events: seq<Event>)
    ensures RevisionsRise(Execute(apply, client, NewRun(initial), events))
  {
    if events != [] {
      var n := |events| - 1;
      EnvelopesCarryKnownRevisions(apply, client, initial, events[..n]);
      RevisionsStep(apply, client, Execute(apply, client, NewRun(initial), events[..n]), events[n]);
      hide RevisionsRise, Step;
    }
  }

  lemma RevisionsStep(apply: Apply, client: string, r: Run, ev: Event)
    requires RevisionsRise(r)
    ensures RevisionsRise(Step(apply, client, r, ev))
  {
    hide Without, Replay, SortBySeq, IdSet, Blocked;
  }

  /** Why acks must name sent operations: acking the first of two unsent operations lets a
      reconnect send the second before the flush sends the first. */
  lemma EarlyAckReorders(apply: Apply, client: string, scene: Scene, op: ObjectOp)
    requires forall s, o :: apply(s, o) == Applied(s, Structural("", 0))
    ensures var a, b := WireOp(OpId(client, 1), op, scene.version), WireOp(OpId(client, 2), op, scene.version);
            FirstSends(Flat(Execute(apply, client, NewRun(scene),
              [Author(op), Author(op), Ack([a.opId], None), Reconcile(scene), Flush]).st.frames)) == [b, a]
  {
    hide Execute, Without, SortBySeq, Replay, Flat, FirstSends;
    var start, e2, ack := NewRun(scene), [Author(op), Author(op)], Ack([OpId(client, 1)], None);
    TwoAuthored(apply, client, scene, op);
    LateSends(apply, client, scene, op);
    ExecuteLast(apply, client, start, e2, ack);
    ExecuteLast(apply, client, start, e2 + [ack], Reconcile(scene));
    ExecuteLast(apply, client, start, e2 + [ack] + [Reconcile(scene)], Flush);
    assert e2 + [ack] + [Reconcile(scene)] + [Flush] == [Author(op), Author(op), ack, Reconcile(scene), Flush];
    BeforeA(First(client, scene, op), Second(client, scene, op));
  }

  function First(client: string, scene: Scene, op: ObjectOp): WireOp { WireOp(OpId(client, 1), op, scene.version) }

  function Second(client: string, scene: Scene, op: ObjectOp): WireOp { WireOp(OpId(client, 2), op, scene.version) }

  function AfterTwo(client: string, scene: Scene, op: ObjectOp): Run {
    var es := [First(client, scene, op), Second(client, scene, op)];
    Run(EngineState(scene, scene.version, es, true, es, 2, []), es, {})
  }

  lemma LateSends(apply: Apply, client: string, scene: Scene, op: ObjectOp)
    ensures var r3 := Step(apply, client, AfterTwo(client, scene, op), Ack([OpId(client, 1)], None));
            var r5 := Step(apply, client, Step(apply, client, r3, Reconcile(scene)), Flush);
            r5.st.frames == [[Second(client, scene, op)], [First(client, scene, op), Second(client, scene, op)]]
  {
    hide Without, Replay, SortBySeq;
    var a, b := First(client, scene, op), Second(client, scene, op);
    OnlySecondLeft(a, b);
    assert IdSet([a.opId]) == {a.opId};
    SortAscending([b]);
  }

  lemma OnlySecondLeft(a: WireOp, b: WireOp)
    requires a.opId != b.opId
    ensures Without([a, b], {a.opId}) == [b]
  {
    WithoutAppend([a], b, {a.opId});
    WithoutAppend([], a, {a.opId});
    assert [] + [a] == [a] && [a] + [b] == [a, b];
  }

  lemma ExecuteLast(apply: Apply, client: string, r: Run, events: seq<Event>, ev: Event)
    ensures Execute(apply, client, r, events + [ev]) == Step(apply, client, Execute(apply, client, r, events), ev)
  {
    assert (events + [ev])[..|events|] == events;
  }

  lemma TwoAuthored(apply: Apply, client: string, scene: Scene, op: ObjectOp)
    requires forall s, o :: apply(s, o) == Applied(s, Structural("", 0))
    ensures Execute(apply, client, NewRun(scene), [Author(op), Author(op)]) == AfterTwo(client, scene, op)
  {
    ExecuteLast(apply, client, NewRun(scene), [], Author(op));
    ExecuteLast(apply, client, NewRun(scene), [Author(op)], Author(op));
    assert [] + [Author(op)] == [Author(op)] && [Author(op)] + [Author(op)] == [Author(op), Author(op)];
  }

  lemma BeforeA(a: WireOp, b: WireOp)
    requires a != b
    ensures FirstSends(Flat([[b], [a, b]])) == [b, a]
  {
    var none: seq<WireOp>, ba, rest := [], [b, a], [b];
    TwoFrames(rest, [a, b]);
    NothingSent();
    hide Flat, FirstSends;
    FirstSendsNew(none, ba);
    assert none + ba == ba && rest + [a, b] == ba + rest;
    FirstSendsRepeat(ba, rest);
  }

  lemma NothingSent()
    ensures FirstSends([]) == []
  {
  }

  lemma TwoFrames(x: seq<WireOp>, y: seq<WireOp>)
    ensures Flat([x, y]) == x + y
  {
    FlatSnoc([], x);
    FlatSnoc([x], y);
    assert [] + [x] == [x] && [x] + [y] == [x, y] && [] + x == x;
  }
}
