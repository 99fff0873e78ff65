/** The lease over a shared directory (crates/coordination/src/file.rs). Every coordinator has a token
    counter of its own, and an acquire draws its token before it takes the file lock, granted or not. */
module FileLease {
  import opened Sequences
  import opened Lease

  /** The lease files, one row per canvas. */
  class LeaseFiles {
    var leases: Leases

    constructor ()
      ensures leases == map[]
    {
      leases := map[];
    }
  }

  class FileCoordinator {
    const files: LeaseFiles
    var counter: nat

    constructor (files: LeaseFiles)
      ensures this.files == files && counter == 0
    {
      this.files, counter := files, 0;
    }

    method NextToken(owner: string) returns (token: string)
      modifies this`counter
      ensures token == Token(owner, old(counter)) && counter == old(counter) + 1
    {
      token := Token(owner, counter);
      counter := counter + 1;
    }

    /** A refused acquire has used up a token too. */
    method AcquireLease(now: nat, canvas: string, owner: string, ttl: nat) returns (lease: Option<Lease>)
      modifies this, files
      ensures counter == old(counter) + 1
      ensures lease.Some? <==> MayAcquire(old(files.leases), now, canvas, owner)
      ensures lease.Some? ==> lease.value == Lease(canvas, owner, Token(owner, old(counter)), now + ttl)
      ensures files.leases == AfterAcquire(old(files.leases), now, canvas, owner, Token(owner, old(counter)), ttl)
    {
      var token := NextToken(owner);
      var expiresAt := now + ttl;
      if canvas in files.leases {
        var existing := files.leases[canvas];
        if existing.expiresAt > now && existing.owner != owner {
          return None;
        }
      }
      files.leases := files.leases[canvas := LeaseEntry(owner, token, expiresAt)];
      lease := Some(Lease(canvas, owner, token, expiresAt));
    }

    method Renew(now: nat, lease: Lease, ttl: nat) returns (ok: bool)
      modifies files
      ensures ok <==> MayRenew(old(files.leases), now, lease)
      ensures files.leases == AfterRenew(old(files.leases), now, lease, ttl)
    {
      var newExpiry := now + ttl;
      if lease.canvasId in files.leases {
        var existing := files.leases[lease.canvasId];
        if existing.token == lease.token && existing.owner == lease.owner && existing.expiresAt > now {
          files.leases := files.leases[lease.canvasId := LeaseEntry(lease.owner, lease.token, newExpiry)];
          return true;
        }
      }
      ok := false;
    }

    method Release(lease: Lease)
      modifies files
      ensures files.leases == AfterRelease(old(files.leases), lease)
    {
      if lease.canvasId in files.leases {
        var existing := files.leases[lease.canvasId];
        if existing.token == lease.token && existing.owner == lease.owner {
          files.leases := files.leases - {lease.canvasId};
        }
      }
    }
  }

  // ---- Many coordinators over one directory ---------------------------------

  /** The shared world, each coordinator's counter, and the token every call has drawn. */
  datatype Site = Site(world: World, counters: map<nat, nat>, drawn: map<nat, string>)

  datatype Act = Wait(elapsed: nat) | Open(id: nat, coordinator: nat, call: Call) | Close(id: nat)

  const FRESH: Site := Site(Start(), map[], map[])

  function Counter(s: Site, coordinator: nat): nat { if coordinator in s.counters then s.counters[coordinator] else 0 }

  function DrawnBy(s: Site, id: nat): string { if id in s.drawn then s.drawn[id] else [] }

  /** Opening a call reads the clock and, for an acquire, draws a token; closing it runs the critical
      section. */
  function Do(s: Site, a: Act): Site {
    match a
    case Wait(elapsed) => s.(world := Step(s.world, Tick(elapsed)))
    case Open(id, coordinator, call) =>
      var w := Step(s.world, Begin(id, call));
      if call.AcquireCall? then
        Site(w, s.counters[coordinator := Counter(s, coordinator) + 1],
             s.drawn[id := Token(call.owner, Counter(s, coordinator))])
      else s.(world := w)
    case Close(id) => s.(world := Step(s.world, Finish(id, DrawnBy(s, id))))
  }

  function DoAll(s: Site, acts: seq<Act>): Site {
    if acts == [] then s else Do(DoAll(s, acts[..|acts| - 1]), acts[|acts| - 1])
  }

  /** Which owner ids each coordinator acquires leases for. */
  type Owners = map<nat, set<string>>

  predicate Follows(owners: Owners, a: Act) {
    a.Open? && a.call.AcquireCall? ==> a.coordinator in owners && a.call.owner in owners[a.coordinator]
  }

  predicate AllFollow(owners: Owners, acts: seq<Act>) { forall i :: 0 <= i < |acts| ==> Follows(owners, acts[i]) }

  /** No owner id is used by two coordinators. */
  predicate OwnersApart(owners: Owners) {
    forall p, q :: p in owners && q in owners && p != q ==> owners[p] !! owners[q]
  }

  lemma {:induction false} SiteKeepsExclusive(acts: seq<Act>)
    ensures Exclusive(DoAll(FRESH, acts).world)
  {
    hide Exclusive, Step;
    if acts != [] {
      var n := |acts| - 1;
      SiteKeepsExclusive(acts[..n]);
      var s := DoAll(FRESH, acts[..n]);
      match acts[n]
      case Wait(elapsed) => StepKeepsExclusive(s.world, Tick(elapsed));
      case Open(id, _, call) => StepKeepsExclusive(s.world, Begin(id, call));
      case Close(id) => StepKeepsExclusive(s.world, Finish(id, DrawnBy(s, id)));
    } else {
      ExecuteKeepsExclusive([]);
    }
  }

  /** Exclusion does not depend on the tokens: it holds over files too, whoever the owners are. */
  lemma FilesAllowOneWriter(acts: seq<Act>, canvas: string, a: string, b: string)
    requires var w := DoAll(FRESH, acts).world; Live(w, canvas, a) && Live(w, canvas, b)
    ensures a == b
  {
    SiteKeepsExclusive(acts);
  }

  // ---- Superseded tokens ----------------------------------------------------

  /** Some coordinator of that owner has drawn this token. */
  ghost predicate WasDrawn(owners: Owners, s: Site, token: string) {
    exists p: nat, owner: string, n: nat ::
      p in owners && owner in owners[p] && n < Counter(s, p) && token == Token(owner, n)
  }

  /** Call `id` is an acquire waiting for the lock. */
  predicate Waiting(s: Site, id: nat) { id in s.world.calls && s.world.calls[id].call.AcquireCall? }

  /** Waiting calls hold tokens of their own that are not in use. */
  ghost predicate WaitsApart(s: Site) {
    && (forall id :: Waiting(s, id) ==> id in s.drawn && !InUse(s.world, s.drawn[id]))
    && (forall i, j :: Waiting(s, i) && Waiting(s, j) && i != j ==> DrawnBy(s, i) != DrawnBy(s, j))
  }

  /** Tokens in use or waiting were all drawn, each in one place only. */
  ghost predicate Sound(owners: Owners, s: Site) {
    && RowsApart(s.world) && WaitsApart(s)
    && (forall t :: InUse(s.world, t) ==> WasDrawn(owners, s, t))
    && (forall id :: Waiting(s, id) ==> WasDrawn(owners, s, DrawnBy(s, id)))
  }

  lemma NextTokenIsNew(owners: Owners, s: Site, p: nat, owner: string)
    requires OwnersApart(owners) && p in owners && owner in owners[p]
    ensures !WasDrawn(owners, s, Token(owner, Counter(s, p)))
  {
    hide Token;
    forall q: nat, o: string, n: nat | q in owners && o in owners[q] && n < Counter(s, q)
      ensures Token(owner, Counter(s, p)) != Token(o, n)
    {
      if Token(owner, Counter(s, p)) == Token(o, n) { TokenInjective(owner, Counter(s, p), o, n); }
    }
  }

  lemma DrawKeepsIssued(owners: Owners, s: Site, id: nat, p: nat, call: Call, token: string)
    requires call.AcquireCall?
    ensures WasDrawn(owners, s, token) ==> WasDrawn(owners, Do(s, Open(id, p, call)), token)
    ensures p in owners && call.owner in owners[p] ==>
      WasDrawn(owners, Do(s, Open(id, p, call)), Token(call.owner, Counter(s, p)))
  {
    hide Token, Step;
    var r := Do(s, Open(id, p, call));
    assert Counter(r, p) == Counter(s, p) + 1;
    if WasDrawn(owners, s, token) {
      var q: nat, o: string, n: nat :| q in owners && o in owners[q] && n < Counter(s, q) && token == Token(o, n);
      assert n < Counter(r, q);
    }
  }

  lemma OpenKeepsSound(owners: Owners, s: Site, id: nat, p: nat, call: Call)
    requires OwnersApart(owners) && Sound(owners, s) && Follows(owners, Open(id, p, call))
    ensures Sound(owners, Do(s, Open(id, p, call)))
  {
    var r := Do(s, Open(id, p, call));
    SameRows(s.world, r.world);
    forall t ensures WasDrawn(owners, s, t) ==> WasDrawn(owners, r, t) { OpenKeepsIssued(owners, s, id, p, call, t); }
    if call.AcquireCall? {
      NextTokenIsNew(owners, s, p, call.owner);
      DrawKeepsIssued(owners, s, id, p, call, []);
    }
    OpenKeepsWaits(s, id, p, call);
    OpenWaits(s, id, p, call);
    hide WasDrawn, Token, InUse, RowsApart, WaitsApart, Waiting, DrawnBy, Do;
  }

  lemma SameRows(w: World, r: World)
    requires r.leases == w.leases && r.retired == w.retired
    ensures RowsApart(r) <==> RowsApart(w)
    ensures forall u :: InUse(r, u) <==> InUse(w, u)
  {
    forall u ensures InUse(r, u) <==> InUse(w, u) { NotInUse(r, u); NotInUse(w, u); }
    hide InUse;
  }

  lemma OpenWaits(s: Site, id: nat, p: nat, call: Call)
    ensures var r := Do(s, Open(id, p, call));
            && (forall i :: i != id ==> (Waiting(r, i) <==> Waiting(s, i)) && DrawnBy(r, i) == DrawnBy(s, i))
            && (Waiting(r, id) <==> call.AcquireCall?)
            && (call.AcquireCall? ==> DrawnBy(r, id) == Token(call.owner, Counter(s, p)))
  {
    hide Token;
  }

  lemma OpenKeepsWaits(s: Site, id: nat, p: nat, call: Call)
    requires WaitsApart(s)
    requires call.AcquireCall? ==>
      && !InUse(s.world, Token(call.owner, Counter(s, p)))
      && forall i :: Waiting(s, i) ==> DrawnBy(s, i) != Token(call.owner, Counter(s, p))
    ensures WaitsApart(Do(s, Open(id, p, call)))
  {
    SameRows(s.world, Do(s, Open(id, p, call)).world);
    OpenWaits(s, id, p, call);
    hide Token, InUse;
  }

  lemma OpenKeepsIssued(owners: Owners, s: Site, id: nat, p: nat, call: Call, token: string)
    ensures WasDrawn(owners, s, token) ==> WasDrawn(owners, Do(s, Open(id, p, call)), token)
  {
    if call.AcquireCall? {
      DrawKeepsIssued(owners, s, id, p, call, token);
    } else {
      SameCounters(owners, s, Do(s, Open(id, p, call)), token);
    }
  }

  lemma SameCounters(owners: Owners, s: Site, r: Site, token: string)
    requires s.counters == r.counters
    ensures WasDrawn(owners, s, token) <==> WasDrawn(owners, r, token)
  {
  }

  lemma CloseKeepsSound(owners: Owners, s: Site, id: nat)
    requires Sound(owners, s)
    ensures Sound(owners, Do(s, Close(id)))
    ensures s.world.retired <= Do(s, Close(id)).world.retired
  {
    if id in s.world.calls {
      var c, token := s.world.calls[id], DrawnBy(s, id);
      assert Waiting(s, id) <==> c.call.AcquireCall?;
      RunKeepsRows(s.world, c, token);
      RunCalls(s.world, c, token);
      var mid, r := Run(s.world, c, token), Do(s, Close(id));
      hide Run;
      SameRows(mid, r.world);
      forall t ensures WasDrawn(owners, s, t) <==> WasDrawn(owners, r, t) { SameCounters(owners, s, r, t); }
      CloseKeepsWaits(s, id);
      assert forall i :: Waiting(r, i) ==> Waiting(s, i) && DrawnBy(r, i) == DrawnBy(s, i);
      hide WasDrawn, Token, InUse, RowsApart, WaitsApart, Waiting, DrawnBy, Do;
    }
  }

  lemma CloseKeepsWaits(s: Site, id: nat)
    requires WaitsApart(s) && RowsApart(s.world) && id in s.world.calls
    ensures WaitsApart(Do(s, Close(id)))
  {
    var c, token := s.world.calls[id], DrawnBy(s, id);
    assert Waiting(s, id) <==> c.call.AcquireCall?;
    RunKeepsRows(s.world, c, token);
    RunCalls(s.world, c, token);
    SameRows(Run(s.world, c, token), Do(s, Close(id)).world);
    hide Run, InUse, RowsApart;
    var r := Do(s, Close(id));
    forall i | Waiting(r, i)
      ensures i != id && Waiting(s, i) && i in r.drawn && r.drawn[i] == s.drawn[i] && !InUse(r.world, r.drawn[i])
    {
      assert Waiting(s, i);
    }
  }

  lemma RunCalls(w: World, c: InFlight, token: string)
    ensures Run(w, c, token).calls == w.calls
  {
  }

  lemma DoKeepsSound(owners: Owners, s: Site, a: Act)
    requires OwnersApart(owners) && Sound(owners, s) && Follows(owners, a)
    ensures Sound(owners, Do(s, a)) && s.world.retired <= Do(s, a).world.retired
  {
    match a
    case Wait(elapsed) => WaitKeepsSound(owners, s, elapsed);
    case Open(id, p, call) => OpenKeepsSound(owners, s, id, p, call);
    case Close(id) => CloseKeepsSound(owners, s, id);
  }

  lemma WaitKeepsSound(owners: Owners, s: Site, elapsed: nat)
    requires Sound(owners, s)
    ensures Sound(owners, Do(s, Wait(elapsed)))
  {
    var r := Do(s, Wait(elapsed));
    SameTokens(s.world, r.world);
    forall t ensures WasDrawn(owners, s, t) <==> WasDrawn(owners, r, t) { SameCounters(owners, s, r, t); }
    hide WasDrawn, Token, InUse, RowsApart;
    assert forall i :: (Waiting(r, i) <==> Waiting(s, i)) && DrawnBy(r, i) == DrawnBy(s, i);
  }

  lemma {:induction false} DoAllKeepsSound(owners: Owners, s: Site, acts: seq<Act>)
    requires OwnersApart(owners) && Sound(owners, s) && AllFollow(owners, acts)
    ensures Sound(owners, DoAll(s, acts)) && s.world.retired <= DoAll(s, acts).world.retired
  {
    hide Sound, Do, Follows, OwnersApart;
    if acts != [] {
      var n := |acts| - 1;
      DoAllKeepsSound(owners, s, acts[..n]);
      DoKeepsSound(owners, DoAll(s, acts[..n]), acts[n]);
    }
  }

  /** In every run that follows `owners`, a token that has left the table stays dead. */
  ghost predicate StayDead(owners: Owners) {
    forall before: seq<Act>, after: seq<Act>, lease: Lease, now: nat ::
      AllFollow(owners, before) && AllFollow(owners, after) && Superseded(before, lease) ==>
        Dead(before, after, lease, now)
  }

  predicate Superseded(before: seq<Act>, lease: Lease) { lease.token in DoAll(FRESH, before).world.retired }

  predicate Dead(before: seq<Act>, after: seq<Act>, lease: Lease, now: nat) {
    var w := DoAll(DoAll(FRESH, before), after).world;
    !MayRenew(w.leases, now, lease) && AfterRelease(w.leases, lease) == w.leases
  }

  lemma FreshIsSound(owners: Owners)
    ensures Sound(owners, FRESH)
  {
    forall t ensures !InUse(FRESH.world, t) { NotInUse(FRESH.world, t); }
    hide WasDrawn;
  }

  lemma RetiredStaysDead(owners: Owners, s: Site, now: nat, lease: Lease)
    requires Sound(owners, s) && lease.token in s.world.retired
    ensures !MayRenew(s.world.leases, now, lease) && AfterRelease(s.world.leases, lease) == s.world.leases
  {
    hide WasDrawn, InUse, WaitsApart;
  }

  // ---- Two coordinators under one owner id ----------------------------------

  function Grab(id: nat, p: nat, owner: string): seq<Act> { [Open(id, p, AcquireCall("c", owner, 1)), Close(id)] }

  /** One coordinator acquires twice, which supersedes its first token; then another coordinator of
      the same owner draws that token again. */
  lemma PerProcessCountersRepeat(p: nat, q: nat, owner: string)
    requires p != q
    ensures var first := Lease("c", owner, Token(owner, 0), 1);
            && Superseded(Grab(0, p, owner) + Grab(1, p, owner), first)
            && !Dead(Grab(0, p, owner) + Grab(1, p, owner), Grab(2, q, owner), first, 0)
  {
    TokensDiffer(owner);
    var s1 := Grabbed(FRESH, 0, p, owner);
    var s2 := Grabbed(s1, 1, p, owner);
    GrabIs(FRESH, 0, p, owner);
    GrabIs(s1, 1, p, owner);
    DoAllConcat(FRESH, Grab(0, p, owner), Grab(1, p, owner));
    GrabIs(s2, 2, q, owner);
    GrabTakes(FRESH, 0, p, owner);
    GrabTakes(s1, 1, p, owner);
    GrabTakes(s2, 2, q, owner);
    hide Token, Grabbed, DoAll, Grab;
  }

  /** What such an acquire does at time zero. */
  lemma GrabTakes(s: Site, id: nat, p: nat, owner: string)
    requires s.world.clock == 0 && ("c" in s.world.leases ==> s.world.leases["c"].owner == owner)
    ensures var r := Grabbed(s, id, p, owner);
            && r.world.clock == 0 && "c" in r.world.leases
            && r.world.leases["c"] == LeaseEntry(owner, Token(owner, Counter(s, p)), 1)
            && Counter(r, p) == Counter(s, p) + 1 && (forall q :: q != p ==> Counter(r, q) == Counter(s, q))
            && s.world.retired <= r.world.retired
            && ("c" in s.world.leases ==> s.world.leases["c"].token in r.world.retired)
  {
    hide Token;
  }

  lemma TokensDiffer(owner: string)
    ensures Token(owner, 0) != Token(owner, 1)
  {
    if Token(owner, 0) == Token(owner, 1) { TokenInjective(owner, 0, owner, 1); }
  }

  lemma {:induction false} DoAllConcat(s: Site, a: seq<Act>, b: seq<Act>)
    ensures DoAll(s, a + b) == DoAll(DoAll(s, a), b)
  {
    hide Do;
    if b == [] {
      assert a + b == a;
    } else {
      var n := |b| - 1;
      DoAllConcat(s, a, b[..n]);
      assert (a + b)[..|a| + n] == a + b[..n];
    }
  }

  function Grabbed(s: Site, id: nat, p: nat, owner: string): Site {
    Do(Do(s, Open(id, p, AcquireCall("c", owner, 1))), Close(id))
  }

  lemma GrabIs(s: Site, id: nat, p: nat, owner: string)
    ensures DoAll(s, Grab(id, p, owner)) == Grabbed(s, id, p, owner)
  {
    hide Do;
    var a, b := Open(id, p, AcquireCall("c", owner, 1)), Close(id);
    assert [a, b][..1] == [a] && [a][..0] == [];
    assert DoAll(s, [a]) == Do(s, a);
  }

  /** Superseded tokens stay dead in every run exactly when no two coordinators share an owner id. */
  lemma StayDeadIffOwnersApart(owners: Owners)
    ensures StayDead(owners) <==> OwnersApart(owners)
  {
    if OwnersApart(owners) {
      forall before: seq<Act>, after: seq<Act>, lease: Lease, now: nat
        | AllFollow(owners, before) && AllFollow(owners, after) && Superseded(before, lease)
        ensures Dead(before, after, lease, now)
      {
        FreshIsSound(owners);
        DoAllKeepsSound(owners, FRESH, before);
        DoAllKeepsSound(owners, DoAll(FRESH, before), after);
        RetiredStaysDead(owners, DoAll(DoAll(FRESH, before), after), now, lease);
      }
    } else {
      var p, q :| p in owners && q in owners && p != q && !(owners[p] !! owners[q]);
      var owner :| owner in owners[p] && owner in owners[q];
      PerProcessCountersRepeat(p, q, owner);
      hide Superseded, Dead;
      assert AllFollow(owners, Grab(0, p, owner) + Grab(1, p, owner)) && AllFollow(owners, Grab(2, q, owner));
    }
  }
}
