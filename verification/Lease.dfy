/** The single-writer lease (crates/coordination/src/inmem.rs). Each call reads the clock first and
    takes the lock later, so its critical section works with a time that may already be stale. */
module Lease {
  import opened Sequences
  import opened Decimal

  datatype LeaseEntry = LeaseEntry(owner: string, token: string, expiresAt: nat)
  datatype Lease = Lease(canvasId: string, owner: string, token: string, expiresAt: nat)
  type Leases = map<string, LeaseEntry>

  function Token(owner: string, n: nat): string { owner + ['-'] + Render(n) }

  lemma TokenInjective(a: string, m: nat, b: string, n: nat)
    requires Token(a, m) == Token(b, n)
    ensures a == b && m == n
  {
    assert '-' !in Render(m) && '-' !in Render(n);
    SplitAtLast(a, Render(m), b, Render(n), '-');
    RenderInjective(m, n);
  }

  // ---- The critical sections ------------------------------------------------

  predicate Held(ls: Leases, now: nat, canvas: string) { canvas in ls && ls[canvas].expiresAt > now }

  predicate MayAcquire(ls: Leases, now: nat, canvas: string, owner: string) {
    Held(ls, now, canvas) ==> ls[canvas].owner == owner
  }

  predicate Matches(ls: Leases, lease: Lease) {
    lease.canvasId in ls && ls[lease.canvasId].token == lease.token && ls[lease.canvasId].owner == lease.owner
  }

  predicate MayRenew(ls: Leases, now: nat, lease: Lease) {
    Matches(ls, lease) && ls[lease.canvasId].expiresAt > now
  }

  function AfterAcquire(ls: Leases, now: nat, canvas: string, owner: string, token: string, ttl: nat): Leases {
    if MayAcquire(ls, now, canvas, owner) then ls[canvas := LeaseEntry(owner, token, now + ttl)] else ls
  }

  function AfterRenew(ls: Leases, now: nat, lease: Lease, ttl: nat): Leases {
    if MayRenew(ls, now, lease) then ls[lease.canvasId := ls[lease.canvasId].(expiresAt := now + ttl)] else ls
  }

  function AfterRelease(ls: Leases, lease: Lease): Leases {
    if Matches(ls, lease) then ls - {lease.canvasId} else ls
  }

  /** The state behind the mutex and the atomic token counter. `now` is the time each call read
      before it took the lock. */
  class InMemoryCoordinator {
    var leases: Leases
    var counter: nat

    constructor ()
      ensures leases == map[] && counter == 0
    {
      leases, counter := map[], 0;
    }

    method NextToken(owner: string) returns (token: string)
      modifies this`counter
      ensures token == Token(owner, old(counter)) && counter == old(counter) + 1
    {
      var n := counter;
      counter := counter + 1;
      token := owner + "-" + Render(n);
    }

    method AcquireLease(now: nat, canvas: string, owner: string, ttl: nat) returns (lease: Option<Lease>)
      modifies this
      ensures lease.Some? <==> MayAcquire(old(leases), now, canvas, owner)
      ensures lease.None?
         <==> canvas in old(leases) && old(leases)[canvas].expiresAt > now && old(leases)[canvas].owner != owner
      ensures lease.Some? ==> lease.value == Lease(canvas, owner, Token(owner, old(counter)), now + ttl)
      ensures leases == AfterAcquire(old(leases), now, canvas, owner, Token(owner, old(counter)), ttl)
      ensures leases == if lease.Some? then old(leases)[canvas := LeaseEntry(owner, lease.value.token, now + ttl)]
                        else old(leases)
      ensures counter == if lease.Some? then old(counter) + 1 else old(counter)
    {
      if canvas in leases {
        var existing := leases[canvas];
        if existing.expiresAt > now && existing.owner != owner {
          return None;
        }
      }
      var token := NextToken(owner);
      var expiresAt := now + ttl;
      leases := leases[canvas := LeaseEntry(owner, token, expiresAt)];
      lease := Some(Lease(canvas, owner, token, expiresAt));
    }

    method Renew(now: nat, lease: Lease, ttl: nat) returns (ok: bool)
      modifies this`leases
      ensures ok <==> MayRenew(old(leases), now, lease)
      ensures ok <==> lease.canvasId in old(leases)
                      && var row := old(leases)[lease.canvasId];
                         row.token == lease.token && row.owner == lease.owner && row.expiresAt > now
      ensures leases == AfterRenew(old(leases), now, lease, ttl)
      ensures leases == if ok then old(leases)[lease.canvasId := LeaseEntry(lease.owner, lease.token, now + ttl)]
                        else old(leases)
    {
      if lease.canvasId in leases {
        var entry := leases[lease.canvasId];
        if entry.token == lease.token && entry.owner == lease.owner && entry.expiresAt > now {
          leases := leases[lease.canvasId := entry.(expiresAt := now + ttl)];
          return true;
        }
      }
      ok := false;
    }

    method Release(lease: Lease)
      modifies this`leases
      ensures leases == AfterRelease(old(leases), lease)
      ensures forall c :: c in leases <==>
                c in old(leases)
                && !(c == lease.canvasId && old(leases)[c].token == lease.token && old(leases)[c].owner == lease.owner)
      ensures forall c :: c in leases ==> leases[c] == old(leases)[c]
    {
      if lease.canvasId in leases {
        var entry := leases[lease.canvasId];
        if entry.token == lease.token && entry.owner == lease.owner {
          leases := leases - {lease.canvasId};
        }
      }
    }

    method FindOwner(now: nat, canvas: string) returns (owner: Option<string>)
      ensures owner == if Held(leases, now, canvas) then Some(leases[canvas].owner) else None
      ensures owner.Some? <==> canvas in leases && leases[canvas].expiresAt > now
    {
      owner := None;
      if canvas in leases && leases[canvas].expiresAt > now {
        owner := Some(leases[canvas].owner);
      }
    }
  }

  // ---- Interleavings --------------------------------------------------------

  datatype Call =
    | AcquireCall(canvas: string, owner: string, ttl: nat)
    | RenewCall(lease: Lease, ttl: nat)
    | ReleaseCall(lease: Lease)

  /** A call that has read the clock and not yet run its critical section. */
  datatype InFlight = InFlight(call: Call, readAt: nat)

  /** What an owner was last granted on a canvas, as that owner knows it. */
  datatype Grant = Grant(token: string, expiresAt: nat, released: bool)

  /** `retired` holds every token that was once in the table and no longer is. */
  datatype World = World(
    clock: nat, leases: Leases, counter: nat, calls: map<nat, InFlight>,
    grants: map<(string, string), Grant>, retired: set<string>)

  /** `Finish` runs a critical section; `token` is what an acquire would hand out. */
  datatype Event = Tick(elapsed: nat) | Begin(id: nat, call: Call) | Finish(id: nat, token: string)

  function Start(): World { World(0, map[], 0, map[], map[], {}) }

  function Retire(ls: Leases, canvas: string, retired: set<string>): set<string> {
    if canvas in ls then retired + {ls[canvas].token} else retired
  }

  function Run(w: World, c: InFlight, token: string): World {
    match c.call
    case AcquireCall(canvas, owner, ttl) =>
      if MayAcquire(w.leases, c.readAt, canvas, owner) then
        w.(leases := AfterAcquire(w.leases, c.readAt, canvas, owner, token, ttl), counter := w.counter + 1,
           grants := w.grants[(canvas, owner) := Grant(token, c.readAt + ttl, false)],
           retired := Retire(w.leases, canvas, w.retired))
      else w
    case RenewCall(lease, ttl) =>
      if MayRenew(w.leases, c.readAt, lease) then
        w.(leases := AfterRenew(w.leases, c.readAt, lease, ttl),
           grants := w.grants[(lease.canvasId, lease.owner) := Grant(lease.token, c.readAt + ttl, false)])
      else w
    case ReleaseCall(lease) =>
      var key := (lease.canvasId, lease.owner);
      w.(leases := AfterRelease(w.leases, lease),
         grants := if key in w.grants && w.grants[key].token == lease.token
                   then w.grants[key := w.grants[key].(released := true)] else w.grants,
         retired := if Matches(w.leases, lease) then Retire(w.leases, lease.canvasId, w.retired) else w.retired)
  }

  function Step(w: World, ev: Event): World {
    match ev
    case Tick(elapsed) => w.(clock := w.clock + elapsed)
    case Begin(id, call) => w.(calls := w.calls[id := InFlight(call, w.clock)])
    case Finish(id, token) =>
      if id !in w.calls then w else Run(w, w.calls[id], token).(calls := w.calls - {id})
  }

  function Execute(w: World, events: seq<Event>): World {
    if events == [] then w else Step(Execute(w, events[..|events| - 1]), events[|events| - 1])
  }

  // ---- Exclusion, whatever the tokens ---------------------------------------

  predicate Live(w: World, canvas: string, owner: string) {
    var key := (canvas, owner);
    key in w.grants && !w.grants[key].released && w.grants[key].expiresAt > w.clock
  }

  /** A live grant is the table's row. */
  ghost predicate LiveInTable(w: World) {
    forall canvas, owner :: Live(w, canvas, owner) ==>
      && canvas in w.leases
      && w.leases[canvas] == LeaseEntry(owner, w.grants[(canvas, owner)].token, w.grants[(canvas, owner)].expiresAt)
  }

  /** Clock readings are in the past. */
  predicate ReadBefore(w: World) { forall id :: id in w.calls ==> w.calls[id].readAt <= w.clock }

  /** The table's row is its owner's latest grant, and not released. */
  ghost predicate RowIsGrant(w: World) {
    forall canvas :: canvas in w.leases ==>
      var e := w.leases[canvas];
      (canvas, e.owner) in w.grants && w.grants[(canvas, e.owner)] == Grant(e.token, e.expiresAt, false)
  }

  ghost predicate Exclusive(w: World) { LiveInTable(w) && RowIsGrant(w) && ReadBefore(w) }

  lemma AcquireKeepsExclusive(w: World, readAt: nat, canvas: string, owner: string, ttl: nat, token: string)
    requires Exclusive(w) && readAt <= w.clock && MayAcquire(w.leases, readAt, canvas, owner)
    ensures Exclusive(Run(w, InFlight(AcquireCall(canvas, owner, ttl), readAt), token))
  {
    hide Token;
    var w' := Run(w, InFlight(AcquireCall(canvas, owner, ttl), readAt), token);
    forall c, o | Live(w', c, o)
      ensures c in w'.leases && w'.leases[c] == LeaseEntry(o, w'.grants[(c, o)].token, w'.grants[(c, o)].expiresAt)
    {
      if (c, o) != (canvas, owner) { assert Live(w, c, o); }
    }
  }

  lemma RenewKeepsExclusive(w: World, readAt: nat, lease: Lease, ttl: nat, token: string)
    requires Exclusive(w) && readAt <= w.clock && MayRenew(w.leases, readAt, lease)
    ensures Exclusive(Run(w, InFlight(RenewCall(lease, ttl), readAt), token))
  {
    hide Token;
    var w' := Run(w, InFlight(RenewCall(lease, ttl), readAt), token);
    forall c, o | Live(w', c, o)
      ensures c in w'.leases && w'.leases[c] == LeaseEntry(o, w'.grants[(c, o)].token, w'.grants[(c, o)].expiresAt)
    {
      if (c, o) != (lease.canvasId, lease.owner) { assert Live(w, c, o); }
    }
  }

  lemma ReleaseKeepsExclusive(w: World, readAt: nat, lease: Lease, token: string)
    requires Exclusive(w)
    ensures Exclusive(Run(w, InFlight(ReleaseCall(lease), readAt), token))
  {
    hide Token;
    var w' := Run(w, InFlight(ReleaseCall(lease), readAt), token);
    forall c, o | Live(w', c, o)
      ensures c in w'.leases && w'.leases[c] == LeaseEntry(o, w'.grants[(c, o)].token, w'.grants[(c, o)].expiresAt)
    {
      assert Live(w, c, o);
    }
  }

  lemma RunKeepsExclusive(w: World, c: InFlight, token: string)
    requires Exclusive(w) && c.readAt <= w.clock
    ensures Exclusive(Run(w, c, token))
  {
    hide Exclusive;
    match c.call
    case AcquireCall(canvas, owner, ttl) =>
      if MayAcquire(w.leases, c.readAt, canvas, owner) {
        AcquireKeepsExclusive(w, c.readAt, canvas, owner, ttl, token);
      }
    case RenewCall(lease, ttl) =>
      if MayRenew(w.leases, c.readAt, lease) { RenewKeepsExclusive(w, c.readAt, lease, ttl, token); }
    case ReleaseCall(lease) => ReleaseKeepsExclusive(w, c.readAt, lease, token);
  }

  lemma StepKeepsExclusive(w: World, ev: Event)
    requires Exclusive(w)
    ensures Exclusive(Step(w, ev))
  {
    match ev
    case Tick(elapsed) =>
      forall canvas, owner | Live(Step(w, ev), canvas, owner) ensures Live(w, canvas, owner) {}
    case Begin(id, call) =>
      forall canvas, owner | Live(Step(w, ev), canvas, owner) ensures Live(w, canvas, owner) {}
    case Finish(id, token) =>
      if id in w.calls {
        RunKeepsExclusive(w, w.calls[id], token);
        var r := Run(w, w.calls[id], token);
        forall canvas, owner | Live(Step(w, ev), canvas, owner) ensures Live(r, canvas, owner) {}
      }
  }

  lemma {:induction false} ExecuteKeepsExclusive(events: seq<Event>)
    ensures Exclusive(Execute(Start(), events))
  {
    if events != [] {
      var n := |events| - 1;
      ExecuteKeepsExclusive(events[..n]);
      StepKeepsExclusive(Execute(Start(), events[..n]), events[n]);
    }
  }

  /** In every interleaving at most one owner per canvas holds an unexpired, unreleased latest
      grant, and a fresh look at the table names that owner. */
  lemma AtMostOneWriter(events: seq<Event>, canvas: string, a: string, b: string)
    requires var w := Execute(Start(), events); Live(w, canvas, a) && Live(w, canvas, b)
    ensures a == b
    ensures var w := Execute(Start(), events); Held(w.leases, w.clock, canvas) && w.leases[canvas].owner == a
  {
    ExecuteKeepsExclusive(events);
  }

  // ---- Superseded tokens ----------------------------------------------------

  /** Acquires draw their tokens from the shared counter, as the in-memory coordinator does. */
  predicate Minted(w: World, ev: Event) {
    ev.Finish? && ev.id in w.calls && w.calls[ev.id].call.AcquireCall? ==>
      ev.token == Token(w.calls[ev.id].call.owner, w.counter)
  }

  ghost predicate MintedRun(w: World, events: seq<Event>) {
    forall i :: 0 <= i < |events| ==> Minted(Execute(w, events[..i]), events[i])
  }

  /** A token some earlier counter value produced. */
  ghost predicate Issued(counter: nat, token: string) {
    exists owner: string, n: nat :: n < counter && token == Token(owner, n)
  }

  ghost predicate InRow(w: World, token: string) {
    exists canvas :: canvas in w.leases && w.leases[canvas].token == token
  }

  /** In the table, or once there. */
  ghost predicate InUse(w: World, token: string) { token in w.retired || InRow(w, token) }

  /** Every token is in one row, or retired, never both. */
  ghost predicate RowsApart(w: World) {
    && (forall c :: c in w.leases ==> w.leases[c].token !in w.retired)
    && (forall c, d :: c in w.leases && d in w.leases && c != d ==> w.leases[c].token != w.leases[d].token)
  }

  /** A critical section with an unused token keeps tokens apart and brings no other token back. */
  lemma RunKeepsRows(w: World, c: InFlight, token: string)
    requires RowsApart(w) && (c.call.AcquireCall? ==> !InUse(w, token))
    ensures RowsApart(Run(w, c, token)) && w.retired <= Run(w, c, token).retired
    ensures forall u :: InUse(Run(w, c, token), u) ==> InUse(w, u) || (c.call.AcquireCall? && u == token)
  {
    forall u | InUse(Run(w, c, token), u) ensures InUse(w, u) || (c.call.AcquireCall? && u == token) {
      UsedBefore(w, c, token, u);
    }
    NotInUse(w, token);
    match c.call
    case AcquireCall(canvas, owner, ttl) => AcquireKeepsRows(w, c.readAt, canvas, owner, ttl, token);
    case RenewCall(lease, ttl) => RenewKeepsRows(w, c.readAt, lease, ttl, token);
    case ReleaseCall(lease) => ReleaseKeepsRows(w, c.readAt, lease, token);
    hide InUse, RowsApart, Run;
  }

  lemma AcquireKeepsRows(w: World, readAt: nat, canvas: string, owner: string, ttl: nat, token: string)
    requires RowsApart(w) && token !in w.retired && forall d :: d in w.leases ==> w.leases[d].token != token
    ensures var r := Run(w, InFlight(AcquireCall(canvas, owner, ttl), readAt), token);
            RowsApart(r) && w.retired <= r.retired
  {
    hide MayAcquire;
  }

  lemma RenewKeepsRows(w: World, readAt: nat, lease: Lease, ttl: nat, token: string)
    requires RowsApart(w)
    ensures var r := Run(w, InFlight(RenewCall(lease, ttl), readAt), token);
            RowsApart(r) && w.retired <= r.retired
  {
  }

  lemma ReleaseKeepsRows(w: World, readAt: nat, lease: Lease, token: string)
    requires RowsApart(w)
    ensures var r := Run(w, InFlight(ReleaseCall(lease), readAt), token);
            RowsApart(r) && w.retired <= r.retired
  {
  }

  lemma NotInUse(w: World, token: string)
    ensures !InUse(w, token) <==> token !in w.retired && forall d :: d in w.leases ==> w.leases[d].token != token
  {
    if d :| d in w.leases && w.leases[d].token == token { assert InRow(w, token); }
  }

  lemma UsedBefore(w: World, c: InFlight, token: string, u: string)
    requires InUse(Run(w, c, token), u)
    ensures InUse(w, u) || (c.call.AcquireCall? && u == token)
  {
    NotInUse(Run(w, c, token), u);
    NotInUse(w, u);
    hide InUse, MayAcquire;
  }

  ghost predicate TokensFresh(w: World) {
    RowsApart(w) && forall token :: InUse(w, token) ==> Issued(w.counter, token)
  }

  lemma IssuedLater(counter: nat, later: nat, token: string)
    requires Issued(counter, token) && counter <= later
    ensures Issued(later, token)
  {
    var owner, n: nat :| n < counter && token == Token(owner, n);
  }

  lemma NotYetIssued(counter: nat, owner: string)
    ensures !Issued(counter, Token(owner, counter))
    ensures Issued(counter + 1, Token(owner, counter))
  {
    forall o: string, n: nat | n < counter ensures Token(owner, counter) != Token(o, n) {
      if Token(owner, counter) == Token(o, n) { TokenInjective(owner, counter, o, n); }
    }
  }

  lemma StepKeepsFresh(w: World, ev: Event)
    requires TokensFresh(w) && Minted(w, ev)
    ensures TokensFresh(Step(w, ev))
    ensures w.retired <= Step(w, ev).retired
  {
    if ev.Finish? && ev.id in w.calls { RunKeepsFresh(w, w.calls[ev.id], ev.token); }
    var r := Step(w, ev);
    if ev.Finish? && ev.id in w.calls {
      SameTokens(Run(w, w.calls[ev.id], ev.token), r);
    } else {
      SameTokens(w, r);
    }
    hide TokensFresh, Run;
  }

  lemma SameTokens(w: World, r: World)
    requires r.leases == w.leases && r.retired == w.retired && r.counter == w.counter
    ensures TokensFresh(r) <==> TokensFresh(w)
    ensures RowsApart(r) <==> RowsApart(w)
    ensures forall u :: InUse(r, u) <==> InUse(w, u)
  {
    forall u ensures InUse(r, u) <==> InUse(w, u) {}
    hide InUse;
  }

  lemma RunKeepsFresh(w: World, c: InFlight, token: string)
    requires TokensFresh(w) && (c.call.AcquireCall? ==> token == Token(c.call.owner, w.counter))
    ensures TokensFresh(Run(w, c, token)) && w.retired <= Run(w, c, token).retired
  {
    if c.call.AcquireCall? { NotYetIssued(w.counter, c.call.owner); }
    RunKeepsRows(w, c, token);
    var r := Run(w, c, token);
    forall u | InUse(r, u) ensures Issued(r.counter, u) {
      if InUse(w, u) {
        IssuedLater(w.counter, r.counter, u);
      } else {
        UsedNewly(w, c, token, u);
      }
    }
    hide Token, Issued, InUse, Run;
  }

  lemma UsedNewly(w: World, c: InFlight, token: string, u: string)
    requires InUse(Run(w, c, token), u) && !InUse(w, u)
    ensures Run(w, c, token).counter == w.counter + 1
  {
    hide MayAcquire;
    if Run(w, c, token).counter == w.counter { UsedBefore(w, c, token, u); }
    assert c.call.AcquireCall? && !MayAcquire(w.leases, c.readAt, c.call.canvas, c.call.owner) ==>
             Run(w, c, token) == w;
  }

  lemma {:induction false} ExecuteKeepsFresh(w: World, events: seq<Event>)
    requires TokensFresh(w) && MintedRun(w, events)
    ensures TokensFresh(Execute(w, events)) && w.retired <= Execute(w, events).retired
  {
    hide TokensFresh, Step, Minted;
    if events != [] {
      var n := |events| - 1;
      var front := events[..n];
      forall i | 0 <= i < n ensures Minted(Execute(w, front[..i]), front[i]) {
        assert front[..i] == events[..i];
        assert Minted(Execute(w, events[..i]), events[i]);
      }
      ExecuteKeepsFresh(w, front);
      assert Minted(Execute(w, events[..n]), events[n]);
      StepKeepsFresh(Execute(w, front), events[n]);
    }
  }

  lemma RetiredIsDead(w: World, now: nat, lease: Lease)
    requires TokensFresh(w) && lease.token in w.retired
    ensures !MayRenew(w.leases, now, lease) && AfterRelease(w.leases, lease) == w.leases
  {
  }

  /** Once an acquire replaces a row or a release removes it, the token it held can never renew
      or release anything again, whatever happens afterwards. */
  lemma SupersededForEver(before: seq<Event>, after: seq<Event>, lease: Lease, now: nat)
    requires MintedRun(Start(), before)
    requires lease.token in Execute(Start(), before).retired
    requires MintedRun(Execute(Start(), before), after)
    ensures var w := Execute(Execute(Start(), before), after);
            !MayRenew(w.leases, now, lease) && AfterRelease(w.leases, lease) == w.leases
  {
    ExecuteKeepsFresh(Start(), before);
    ExecuteKeepsFresh(Execute(Start(), before), after);
    RetiredIsDead(Execute(Execute(Start(), before), after), now, lease);
  }

  /** What puts a token among the retired ones. */
  lemma ReplacedIsRetired(w: World, id: nat, token: string, canvas: string)
    requires id in w.calls && TokensFresh(w) && Minted(w, Finish(id, token)) && canvas in w.leases
    ensures var w' := Step(w, Finish(id, token));
            canvas !in w'.leases || w'.leases[canvas].token != w.leases[canvas].token ==>
              w.leases[canvas].token in w'.retired
  {
    hide Token, Issued, TokensFresh, Minted, MayAcquire, MayRenew;
  }

  // ---- When a superseded token comes back, whatever the tokens ---------------

  /** `ev` grants an acquire of the lease's canvas to its owner under its token. */
  predicate Regrants(w: World, ev: Event, lease: Lease) {
    && ev.Finish? && ev.id in w.calls && w.calls[ev.id].call.AcquireCall? && ev.token == lease.token
    && var c := w.calls[ev.id];
       c.call.canvas == lease.canvasId && c.call.owner == lease.owner
       && MayAcquire(w.leases, c.readAt, lease.canvasId, lease.owner)
  }

  lemma StepRevives(w: World, ev: Event, lease: Lease)
    requires !Matches(w.leases, lease)
    ensures Matches(Step(w, ev).leases, lease) <==> Regrants(w, ev, lease)
  {
  }

  /** Where a run stands after `i` events. */
  function After(w: World, events: seq<Event>, i: nat): World
    requires i <= |events|
  {
    Execute(w, events[..i])
  }

  /** A lease that is no longer in the table comes back at some point of a run if and only if the run
      grants an acquire that draws the same token. */
  lemma {:induction false} RevivedIff(w: World, events: seq<Event>, lease: Lease)
    requires !Matches(w.leases, lease)
    ensures (exists i: nat :: i <= |events| && Matches(After(w, events, i).leases, lease))
       <==> (exists i: nat :: i < |events| && Regrants(After(w, events, i), events[i], lease))
  {
    hide Matches, Regrants, Step;
    forall i: nat | i < |events| ensures After(w, events, i + 1) == Step(After(w, events, i), events[i]) {
      assert events[..i + 1][..i] == events[..i];
    }
    assert After(w, events, 0) == w;
    if i: nat :| i < |events| && Regrants(After(w, events, i), events[i], lease) {
      if !Matches(After(w, events, i).leases, lease) {
        StepRevives(After(w, events, i), events[i], lease);
        assert Matches(After(w, events, i + 1).leases, lease);
      }
    }
    if i: nat :| i <= |events| && Matches(After(w, events, i).leases, lease) {
      var k := FirstRevival(w, events, lease, i);
      StepRevives(After(w, events, k), events[k], lease);
    }
  }

  lemma {:induction false} FirstRevival(w: World, events: seq<Event>, lease: Lease, i: nat) returns (k: nat)
    requires i <= |events| && !Matches(w.leases, lease) && Matches(After(w, events, i).leases, lease)
    ensures k < i && !Matches(After(w, events, k).leases, lease) && Matches(After(w, events, k + 1).leases, lease)
  {
    hide Matches, Step;
    assert events[..0] == [];
    if Matches(After(w, events, i - 1).leases, lease) {
      k := FirstRevival(w, events, lease, i - 1);
    } else {
      k := i - 1;
    }
  }
}
