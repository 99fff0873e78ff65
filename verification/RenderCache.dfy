/** The revision-keyed LRU cache (crates/renderer-core/src/render_cache.rs) and the per-frame
    budget scheduler over it (crates/renderer-core/src/frame_budget.rs). */
module RenderCache {
  import opened Sequences

  datatype Cached<T> = Cached(revision: nat, lastUsed: nat, data: T)

  /** Every cached datum is what deriving its id at its revision gives. */
  ghost predicate Faithful<T>(derive: (string, nat) -> T, entries: map<string, Cached<T>>) {
    forall id :: id in entries ==> entries[id].data == derive(id, entries[id].revision)
  }

  predicate HasRevision<T>(entries: map<string, Cached<T>>, id: string, revision: nat) {
    id in entries && entries[id].revision == revision
  }

  /** `victim` is least recently used among the ids that may go. */
  predicate IsOldest<T>(entries: map<string, Cached<T>>, protect: string, victim: string) {
    && victim in entries && victim != protect
    && forall id :: id in entries && id != protect ==> entries[victim].lastUsed <= entries[id].lastUsed
  }

  /** `after` is `before` without one least recently used entry. */
  ghost predicate LostOldest<T>(before: map<string, Cached<T>>, protect: string, after: map<string, Cached<T>>) {
    exists victim :: IsOldest(before, protect, victim) && after == before - {victim}
  }

  lemma {:induction false} OldestExists<T>(entries: map<string, Cached<T>>, protect: string)
    requires |entries| >= 2
    ensures exists victim :: IsOldest(entries, protect, victim)
  {
    var rest := entries.Keys - {protect};
    assert |entries.Keys| == |entries|;
    if entries.Keys <= {protect} { SubsetSize(entries.Keys, {protect}); }
    var victim := OldestOf(entries, rest);
    assert IsOldest(entries, protect, victim);
  }

  lemma {:induction false} OldestOf<T>(entries: map<string, Cached<T>>, ids: set<string>) returns (victim: string)
    requires ids != {} && ids <= entries.Keys
    ensures victim in ids && forall id :: id in ids ==> entries[victim].lastUsed <= entries[id].lastUsed
    decreases |ids|
  {
    victim :| victim in ids;
    var rest := ids - {victim};
    if rest != {} {
      var other := OldestOf(entries, rest);
      if entries[other].lastUsed < entries[victim].lastUsed { victim := other; }
      forall id | id in ids ensures entries[victim].lastUsed <= entries[id].lastUsed {
        if id !in rest { assert id in ids - rest; }
      }
    } else {
      assert ids == {victim};
    }
  }

  class RenderDataCache<T> {
    var entries: map<string, Cached<T>>
    const capacity: nat
    var frame: nat
    var hits: nat
    var misses: nat
    var evictions: nat

    ghost predicate Valid(derive: (string, nat) -> T)
      reads this
    {
      && capacity >= 1 && |entries| <= capacity && Faithful(derive, entries)
      && forall id :: id in entries ==> entries[id].lastUsed <= frame
    }

    constructor (capacity: nat, ghost derive: (string, nat) -> T)
      ensures Valid(derive) && entries == map[] && this.capacity == Max(capacity, 1)
      ensures hits == misses == evictions == frame == 0
    {
      this.capacity := Max(capacity, 1);
      entries, frame, hits, misses, evictions := map[], 0, 0, 0, 0;
    }

    method BeginFrame(ghost derive: (string, nat) -> T)
      requires Valid(derive)
      modifies this`frame
      ensures Valid(derive) && frame == old(frame) + 1
    {
      frame := frame + 1;
    }

    /** Drops least recently used entries until the cache fits, never `protect`. */
    method EvictIfNeeded(protect: string)
      requires capacity >= 1 && |entries| <= capacity + 1
      modifies this`entries, this`evictions
      ensures old(|entries|) <= capacity ==> entries == old(entries) && evictions == old(evictions)
      ensures old(|entries|) > capacity ==>
        && evictions == old(evictions) + 1
        && LostOldest(old(entries), protect, entries)
    {
      ghost var all := entries;
      while |entries| > capacity
        invariant |all| <= capacity || |entries| > capacity ==> entries == all && evictions == old(evictions)
        invariant |entries| <= capacity < |all| ==> evictions == old(evictions) + 1 && LostOldest(all, protect, entries)
        invariant |entries| <= |all|
        decreases |entries|
      {
        OldestExists(entries, protect);
        var victim :| victim in entries.Keys && IsOldest(entries, protect, victim);
        Removed(entries, victim);
        entries := entries - {victim};
        evictions := evictions + 1;
      }
    }

    /** The cached datum of `id` at `revision`, derived only on a miss or a stale revision. */
    method GetOrInsert(id: string, revision: nat, derive: (string, nat) -> T) returns (data: T)
      requires Valid(derive)
      modifies this`entries, this`hits, this`misses, this`evictions
      ensures Valid(derive) && data == derive(id, revision) && HasRevision(entries, id, revision)
      ensures entries[id].lastUsed == frame
      ensures HasRevision(old(entries), id, revision) ==>
        && hits == old(hits) + 1 && misses == old(misses) && evictions == old(evictions)
        && entries == old(entries)[id := old(entries)[id].(lastUsed := frame)]
      ensures !HasRevision(old(entries), id, revision) ==> hits == old(hits) && misses == old(misses) + 1
      ensures !HasRevision(old(entries), id, revision) ==>
        var more := old(entries)[id := Cached(revision, frame, data)];
        if |more| <= capacity then entries == more && evictions == old(evictions)
        else evictions == old(evictions) + 1 && LostOldest(more, id, entries)
    {
      hide LostOldest;
      ghost var c := Cached(revision, frame, derive(id, revision));
      FaithfulWith(derive, entries, id, c);
      if HasRevision(entries, id, revision) {
        FaithfulWith(derive, entries, id, entries[id].(lastUsed := frame));
        hits := hits + 1;
        Grown(entries, id, entries[id].(lastUsed := frame));
        entries := entries[id := entries[id].(lastUsed := frame)];
      } else {
        misses := misses + 1;
        Grown(entries, id, Cached(revision, frame, derive(id, revision)));
        entries := entries[id := Cached(revision, frame, derive(id, revision))];
        ghost var more := entries;
        EvictIfNeeded(id);
        if |more| > capacity { AfterLoss(derive, more, id, entries, frame); }
      }
      data := entries[id].data;
    }
  }

  lemma FaithfulWith<T>(derive: (string, nat) -> T, entries: map<string, Cached<T>>, id: string, c: Cached<T>)
    requires Faithful(derive, entries) && c.data == derive(id, c.revision)
    ensures Faithful(derive, entries[id := c])
  {
  }

  lemma AfterLoss<T>(derive: (string, nat) -> T, more: map<string, Cached<T>>, id: string,
                     less: map<string, Cached<T>>, frame: nat)
    requires LostOldest(more, id, less) && Faithful(derive, more) && id in more
    requires forall k :: k in more ==> more[k].lastUsed <= frame
    ensures |less| == |more| - 1 && Faithful(derive, less) && id in less && less[id] == more[id]
    ensures forall k :: k in less ==> less[k].lastUsed <= frame
  {
    var victim :| IsOldest(more, id, victim) && less == more - {victim};
    Removed(more, victim);
  }

  lemma Grown<T>(entries: map<string, Cached<T>>, id: string, c: Cached<T>)
    ensures |entries[id := c]| == if id in entries then |entries| else |entries| + 1
  {
    var more := entries[id := c];
    assert more.Keys == entries.Keys + {id};
    assert |more.Keys| == |more| && |entries.Keys| == |entries|;
  }

  lemma Removed<T>(entries: map<string, Cached<T>>, id: string)
    requires id in entries
    ensures |entries - {id}| == |entries| - 1
  {
    assert (entries - {id}).Keys == entries.Keys - {id};
    assert |(entries - {id}).Keys| == |entries - {id}| && |entries.Keys| == |entries|;
  }

  // ---- One frame ------------------------------------------------------------

  datatype Rect = Rect(x: real, y: real, width: real, height: real)

  datatype LodTier = Full | Compact | ShapeOnly | Density | Minimap

  /** An object to draw; `px` is its apparent size and `tier` the detail that calls for. */
  datatype Item = Item(id: string, bounds: Rect, px: real, tier: LodTier, revision: nat)

  datatype Budget = Budget(viewport: Rect, gestureTarget: Option<string>, maxDerives: nat)

  datatype TierCounts = TierCounts(full: nat, compact: nat, shapeOnly: nat, density: nat, minimap: nat)

  function Record(t: TierCounts, tier: LodTier): TierCounts {
    match tier
    case Full => t.(full := t.full + 1)
    case Compact => t.(compact := t.compact + 1)
    case ShapeOnly => t.(shapeOnly := t.shapeOnly + 1)
    case Density => t.(density := t.density + 1)
    case Minimap => t.(minimap := t.minimap + 1)
  }

  function Of(t: TierCounts, tier: LodTier): nat {
    match tier
    case Full => t.full
    case Compact => t.compact
    case ShapeOnly => t.shapeOnly
    case Density => t.density
    case Minimap => t.minimap
  }

  /** One more of the tier, and no more of any other. */
  lemma RecordCounts(t: TierCounts, tier: LodTier, other: LodTier)
    ensures Of(Record(t, tier), other) == Of(t, other) + if other == tier then 1 else 0
    ensures Total(Record(t, tier)) == Total(t) + 1
  {
  }

  function Total(t: TierCounts): nat { t.full + t.compact + t.shapeOnly + t.density + t.minimap }

  datatype Report = Report(processed: nat, deferred: nat, culled: nat, cacheHits: nat, tierCounts: TierCounts)

  predicate RectsIntersect(a: Rect, b: Rect) {
    a.x <= b.x + b.width && a.x + a.width >= b.x && a.y <= b.y + b.height && a.y + a.height >= b.y
  }

  /** The point lies in the rectangle, sides included. */
  predicate Holds(r: Rect, x: real, y: real) { r.x <= x <= r.x + r.width && r.y <= y <= r.y + r.height }

  /** The test is whether the rectangles share a point, sides included. */
  lemma RectsShareAPoint(a: Rect, b: Rect)
    requires a.width >= 0.0 && a.height >= 0.0 && b.width >= 0.0 && b.height >= 0.0
    ensures RectsIntersect(a, b) <==> exists x: real, y: real :: Holds(a, x, y) && Holds(b, x, y)
  {
    if RectsIntersect(a, b) { assert Holds(a, MaxReal(a.x, b.x), MaxReal(a.y, b.y)); }
  }

  predicate IsGesture(b: Budget, i: Item) { b.gestureTarget == Some(i.id) }

  predicate Shown(b: Budget, i: Item) { IsGesture(b, i) || RectsIntersect(i.bounds, b.viewport) }

  /** The items that are not culled, in scene order. */
  function Visible(b: Budget, items: seq<Item>): seq<Item> {
    if items == [] then []
    else
      var n := |items| - 1;
      if Shown(b, items[n]) then Visible(b, items[..n]) + [items[n]] else Visible(b, items[..n])
  }

  predicate WellSized(r: Rect) { r.width >= 0.0 && r.height >= 0.0 }

  /** Culled are exactly the items that share no point with the viewport, the gesture target excepted. */
  lemma {:induction false} VisibleAre(b: Budget, items: seq<Item>, i: Item)
    requires WellSized(b.viewport) && WellSized(i.bounds)
    ensures i in Visible(b, items) <==>
              && i in items
              && (|| b.gestureTarget == Some(i.id)
                  || exists x: real, y: real :: Holds(i.bounds, x, y) && Holds(b.viewport, x, y))
  {
    hide RectsIntersect, Holds;
    RectsShareAPoint(i.bounds, b.viewport);
    if items != [] {
      VisibleAre(b, items[..|items| - 1], i);
      assert items == items[..|items| - 1] + [items[|items| - 1]];
    }
  }

  /** `x` goes before `y`: the gesture target first, then the larger apparent size. */
  predicate Sooner(b: Budget, x: Item, y: Item) {
    (IsGesture(b, x) && !IsGesture(b, y)) || (IsGesture(b, x) == IsGesture(b, y) && x.px > y.px)
  }

  /** Behind every item it does not come before: a stable insertion. */
  function Insert(b: Budget, s: seq<Item>, x: Item): seq<Item> {
    if s == [] then [x]
    else if Sooner(b, x, s[|s| - 1]) then Insert(b, s[..|s| - 1], x) + [s[|s| - 1]]
    else s + [x]
  }

  /** The stable sort of the visible items. */
  function Order(b: Budget, s: seq<Item>): seq<Item> {
    if s == [] then [] else Insert(b, Order(b, s[..|s| - 1]), s[|s| - 1])
  }

  predicate InOrder(b: Budget, s: seq<Item>) { forall i, j :: 0 <= i < j < |s| ==> !Sooner(b, s[j], s[i]) }

  lemma {:induction false} InsertOrders(b: Budget, s: seq<Item>, x: Item)
    requires InOrder(b, s)
    ensures InOrder(b, Insert(b, s, x)) && multiset(Insert(b, s, x)) == multiset(s) + multiset{x}
    ensures |Insert(b, s, x)| == |s| + 1
  {
    hide Sooner;
    if s != [] {
      var n := |s| - 1;
      assert s == s[..n] + [s[n]];
      if Sooner(b, x, s[n]) {
        InsertOrders(b, s[..n], x);
        var t := Insert(b, s[..n], x);
        hide Insert;
        forall i | 0 <= i < |t| ensures !Sooner(b, s[n], t[i]) { LastStaysLast(b, s, x, t, i); }
        OrderSnoc(b, t, s[n]);
      } else {
        forall i | 0 <= i < |s| ensures !Sooner(b, x, s[i]) {
          if i < n { Transitive(b, s[i], s[n], x); }
        }
        OrderSnoc(b, s, x);
      }
    }
  }

  lemma LastStaysLast(b: Budget, s: seq<Item>, x: Item, t: seq<Item>, i: nat)
    requires s != [] && InOrder(b, s) && Sooner(b, x, s[|s| - 1]) && i < |t|
    requires multiset(t) == multiset(s[..|s| - 1]) + multiset{x}
    ensures !Sooner(b, s[|s| - 1], t[i])
  {
    hide Sooner;
    Asymmetric(b, x, s[|s| - 1]);
    assert t[i] in multiset(t);
    if t[i] != x { assert t[i] in s[..|s| - 1]; }
  }

  lemma OrderSnoc(b: Budget, s: seq<Item>, x: Item)
    requires InOrder(b, s) && forall i :: 0 <= i < |s| ==> !Sooner(b, x, s[i])
    ensures InOrder(b, s + [x])
  {
    hide Sooner;
  }

  lemma Asymmetric(b: Budget, x: Item, y: Item)
    requires Sooner(b, x, y)
    ensures !Sooner(b, y, x)
  {
  }

  lemma Transitive(b: Budget, x: Item, y: Item, z: Item)
    requires !Sooner(b, y, x) && !Sooner(b, z, y)
    ensures !Sooner(b, z, x)
  {
  }

  /** The schedule is a reordering with the gesture target first and larger objects before smaller. */
  lemma {:induction false} OrderSorts(b: Budget, s: seq<Item>)
    ensures InOrder(b, Order(b, s)) && multiset(Order(b, s)) == multiset(s) && |Order(b, s)| == |s|
    ensures forall i, j :: 0 <= i < j < |s| ==>
      var (x, y) := (Order(b, s)[i], Order(b, s)[j]);
      (b.gestureTarget == Some(x.id) && b.gestureTarget != Some(y.id))
      || ((b.gestureTarget == Some(x.id) <==> b.gestureTarget == Some(y.id)) && x.px >= y.px)
  {
    hide Insert;
    if s != [] {
      var n := |s| - 1;
      OrderSorts(b, s[..n]);
      InsertOrders(b, Order(b, s[..n]), s[n]);
      assert s == s[..n] + [s[n]];
    }
  }

  /** The items that neither go before `x` nor after it. */
  function Level(b: Budget, s: seq<Item>, x: Item): seq<Item> {
    if s == [] then []
    else
      var n := |s| - 1;
      if Sooner(b, s[n], x) || Sooner(b, x, s[n]) then Level(b, s[..n], x) else Level(b, s[..n], x) + [s[n]]
  }

  lemma LevelSnoc(b: Budget, s: seq<Item>, y: Item, x: Item)
    ensures Level(b, s + [y], x)
         == if Sooner(b, y, x) || Sooner(b, x, y) then Level(b, s, x) else Level(b, s, x) + [y]
  {
    assert (s + [y])[..|s|] == s;
  }

  lemma LevelKept(b: Budget, x: Item, y: Item, z: Item)
    requires Sooner(b, y, z) && !Sooner(b, y, x) && !Sooner(b, x, y)
    ensures Sooner(b, z, x) || Sooner(b, x, z)
  {
  }

  lemma {:induction false} InsertLevel(b: Budget, s: seq<Item>, y: Item, x: Item)
    ensures Level(b, Insert(b, s, y), x) == Level(b, s + [y], x)
  {
    LevelSnoc(b, s, y, x);
    if s == [] {
      assert s + [y] == [y];
    } else {
      var n := |s| - 1;
      assert s == s[..n] + [s[n]];
      if Sooner(b, y, s[n]) {
        InsertLevel(b, s[..n], y, x);
        LevelSnoc(b, s[..n], y, x);
        LevelSnoc(b, s[..n], s[n], x);
        LevelSnoc(b, Insert(b, s[..n], y), s[n], x);
        if !Sooner(b, y, x) && !Sooner(b, x, y) { LevelKept(b, x, y, s[n]); }
        hide Sooner, Level;
      }
    }
  }

  /** Items of one rank keep scene order. */
  lemma {:induction false} OrderIsStable(b: Budget, s: seq<Item>, x: Item)
    ensures Level(b, Order(b, s), x) == Level(b, s, x)
  {
    hide Sooner, Level, Insert;
    if s != [] {
      var n := |s| - 1;
      OrderIsStable(b, s[..n], x);
      InsertLevel(b, Order(b, s[..n]), s[n], x);
      LevelSnoc(b, Order(b, s[..n]), s[n], x);
      LevelSnoc(b, s[..n], s[n], x);
      assert s == s[..n] + [s[n]];
    }
  }

  predicate DistinctIds(s: seq<Item>) { forall i, j :: 0 <= i < j < |s| ==> s[i].id != s[j].id }

  predicate IsCached<T>(entries: map<string, Cached<T>>, i: Item) { HasRevision(entries, i.id, i.revision) }

  /** How many of the first `k` items are not cached at their revision. */
  function Missing<T>(entries: map<string, Cached<T>>, s: seq<Item>, k: nat): nat
    requires k <= |s|
  {
    if k == 0 then 0 else Missing(entries, s, k - 1) + (if IsCached(entries, s[k - 1]) then 0 else 1)
  }

  function Ids(s: seq<Item>): set<string> { set i | i in s :: i.id }

  /** Nothing needs evicting to hold these items too. */
  predicate Roomy<T>(entries: map<string, Cached<T>>, s: seq<Item>, capacity: nat) {
    |entries.Keys + Ids(s)| <= capacity
  }

  lemma {:induction false} MissingSame<T>(e: map<string, Cached<T>>, f: map<string, Cached<T>>, s: seq<Item>, k: nat)
    requires k <= |s| && forall i :: 0 <= i < k ==> (IsCached(e, s[i]) <==> IsCached(f, s[i]))
    ensures Missing(e, s, k) == Missing(f, s, k)
  {
    if k > 0 { MissingSame(e, f, s, k - 1); }
  }

  /** Storing item `k` changes the standing of no other item. */
  lemma StoreKeepsOthers<T>(e: map<string, Cached<T>>, f: map<string, Cached<T>>, s: seq<Item>, k: nat, c: Cached<T>)
    requires k < |s| && DistinctIds(s) && f == e[s[k].id := c]
    ensures Missing(e, s, k) == Missing(f, s, k)
    ensures forall i :: 0 <= i < |s| && i != k ==> (IsCached(e, s[i]) <==> IsCached(f, s[i]))
  {
    MissingSame(e, f, s, k);
  }

  lemma StaysRoomy<T>(e: map<string, Cached<T>>, f: map<string, Cached<T>>, s: seq<Item>, k: nat, c: Cached<T>,
                      capacity: nat)
    requires k < |s| && Roomy(e, s, capacity) && f == e[s[k].id := c]
    ensures Roomy(f, s, capacity) && |f| <= capacity
  {
    assert s[k] in s;
    assert f.Keys + Ids(s) == e.Keys + Ids(s);
    SubsetSize(f.Keys, e.Keys + Ids(s));
    assert |f.Keys| == |f|;
  }

  /** How many of the first `k` items are of the tier and cached. */
  function CachedOf<T>(entries: map<string, Cached<T>>, s: seq<Item>, k: nat, tier: LodTier): nat
    requires k <= |s|
  {
    if k == 0 then 0
    else CachedOf(entries, s, k - 1, tier) + if s[k - 1].tier == tier && IsCached(entries, s[k - 1]) then 1 else 0
  }

  lemma {:induction false} CachedOfSame<T>(e: map<string, Cached<T>>, f: map<string, Cached<T>>, s: seq<Item>, k: nat,
                                          tier: LodTier)
    requires k <= |s| && forall i :: 0 <= i < k ==> (IsCached(e, s[i]) <==> IsCached(f, s[i]))
    ensures CachedOf(e, s, k, tier) == CachedOf(f, s, k, tier)
  {
    if k > 0 { CachedOfSame(e, f, s, k - 1, tier); }
  }

  /** Item `i` is cached after the frame: it was before, or it is among the first missing ones up to the cap. */
  predicate ServedRight<T>(first: map<string, Cached<T>>, now: map<string, Cached<T>>, order: seq<Item>, cap: nat,
                           i: nat)
    requires i < |order|
  {
    IsCached(now, order[i]) <==> IsCached(first, order[i]) || Missing(first, order, i) < cap
  }

  /** A frame over a roomy cache: the first of the missing items, as many as the cap allows, get cached. */
  predicate Progress<T>(before: map<string, Cached<T>>, after: map<string, Cached<T>>, order: seq<Item>, cap: nat,
                        capacity: nat) {
    && Roomy(after, order, capacity)
    && (forall i :: 0 <= i < |order| ==> ServedRight(before, after, order, cap, i))
    && Missing(after, order, |order|) == Missing(before, order, |order|) - Min(cap, Missing(before, order, |order|))
  }

  lemma CachedIs<T>(e: map<string, Cached<T>>, i: Item)
    ensures IsCached(e, i) <==> HasRevision(e, i.id, i.revision)
  {
  }

  /** A roomy frame after `k` items: nothing was evicted, what was missing is cached or deferred, and
      later items stand as at the start. */
  predicate Underway<T>(first: map<string, Cached<T>>, now: map<string, Cached<T>>, order: seq<Item>, k: nat, cap: nat,
                        capacity: nat, report: Report)
    requires k <= |order|
  {
    && DistinctIds(order) && Roomy(now, order, capacity)
    && report.processed + report.deferred == Missing(first, order, k) && report.deferred == Missing(now, order, k)
    && (k > 0 && cap >= 1 ==> IsCached(now, order[0]))
    && forall i :: k <= i < |order| ==> (IsCached(first, order[i]) <==> IsCached(now, order[i]))
  }

  /** Who got served in the first `k` items, and their number per tier. */
  predicate Served<T>(first: map<string, Cached<T>>, now: map<string, Cached<T>>, order: seq<Item>, k: nat, cap: nat,
                      report: Report)
    requires k <= |order|
  {
    && (report.deferred > 0 ==> report.processed == cap) && report.processed <= cap
    && (forall i :: 0 <= i < k ==> ServedRight(first, now, order, cap, i))
    && forall tier :: Of(report.tierCounts, tier) == CachedOf(now, order, k, tier)
  }

  /** Touching or storing item `k` on a roomy cache. */
  lemma StoreUnderway<T>(first: map<string, Cached<T>>, now: map<string, Cached<T>>, order: seq<Item>, k: nat, cap: nat,
                         capacity: nat, report: Report, c: Cached<T>, next: Report)
    requires k < |order| && Underway(first, now, order, k, cap, capacity, report) && c.revision == order[k].revision
    requires next.deferred == report.deferred
    requires next.processed == report.processed + if IsCached(now, order[k]) then 0 else 1
    ensures var after := now[order[k].id := c];
            |after| <= capacity && Underway(first, after, order, k + 1, cap, capacity, next)
  {
    hide Roomy, DistinctIds, IsCached;
    var after := now[order[k].id := c];
    StaysRoomy(now, after, order, k, c, capacity);
    StoreKeepsOthers(now, after, order, k, c);
    CachedIs(after, order[k]);
    assert Missing(after, order, k + 1) == Missing(now, order, k);
    assert Missing(first, order, k + 1) == Missing(first, order, k) + if IsCached(now, order[k]) then 0 else 1;
    hide Missing;
  }

  lemma StoreServed<T>(first: map<string, Cached<T>>, now: map<string, Cached<T>>, order: seq<Item>, k: nat, cap: nat,
                       capacity: nat, report: Report, c: Cached<T>, next: Report)
    requires k < |order| && Underway(first, now, order, k, cap, capacity, report) && c.revision == order[k].revision
    requires Served(first, now, order, k, cap, report) && (IsCached(now, order[k]) || report.processed < cap)
    requires next.deferred == report.deferred && next.tierCounts == Record(report.tierCounts, order[k].tier)
    requires next.processed == report.processed + if IsCached(now, order[k]) then 0 else 1
    ensures Served(first, now[order[k].id := c], order, k + 1, cap, next)
  {
    hide Roomy, DistinctIds, IsCached, Missing, Record, Of;
    var after := now[order[k].id := c];
    StoreKeepsOthers(now, after, order, k, c);
    CachedIs(after, order[k]);
    forall tier ensures Of(next.tierCounts, tier) == CachedOf(after, order, k + 1, tier) {
      RecordCounts(report.tierCounts, order[k].tier, tier);
      CachedOfSame(now, after, order, k, tier);
    }
    assert IsCached(first, order[k]) || Missing(first, order, k) < cap;
    forall i | 0 <= i < k + 1 ensures ServedRight(first, after, order, cap, i) {
      if i < k { assert ServedRight(first, now, order, cap, i); }
    }
  }

  lemma DeferServed<T>(first: map<string, Cached<T>>, now: map<string, Cached<T>>, order: seq<Item>, k: nat, cap: nat,
                       capacity: nat, report: Report)
    requires k < |order| && Underway(first, now, order, k, cap, capacity, report)
    requires Served(first, now, order, k, cap, report) && !IsCached(now, order[k]) && report.processed == cap
    ensures Served(first, now, order, k + 1, cap, report.(deferred := report.deferred + 1))
  {
    hide Roomy, DistinctIds, IsCached, Missing, Of;
    var next := report.(deferred := report.deferred + 1);
    forall tier ensures Of(next.tierCounts, tier) == CachedOf(now, order, k + 1, tier) {
      assert Of(report.tierCounts, tier) == CachedOf(now, order, k, tier);
    }
    assert forall i :: 0 <= i < k + 1 ==> ServedRight(first, now, order, cap, i);
  }

  lemma DeferUnderway<T>(first: map<string, Cached<T>>, now: map<string, Cached<T>>, order: seq<Item>, k: nat, cap: nat,
                         capacity: nat, report: Report)
    requires k < |order| && Underway(first, now, order, k, cap, capacity, report)
    requires !IsCached(now, order[k]) && (k == 0 ==> cap == 0)
    ensures Underway(first, now, order, k + 1, cap, capacity, report.(deferred := report.deferred + 1))
  {
    hide Roomy, DistinctIds, IsCached;
  }

  method ProcessOrder<T>(order: seq<Item>, cap: nat, cache: RenderDataCache<T>, derive: (string, nat) -> T, culled: nat)
      returns (report: Report)
    requires cache.Valid(derive)
    modifies cache
    ensures cache.Valid(derive) && cache.frame == old(cache.frame) && report.culled == culled
    ensures report.processed + report.deferred + report.cacheHits == |order| && report.processed <= cap
    ensures Total(report.tierCounts) == report.processed + report.cacheHits
    ensures report.deferred > 0 ==> report.processed == cap
    ensures cache.misses == old(cache.misses) + report.processed && cache.hits == old(cache.hits) + report.cacheHits
    ensures DistinctIds(order) && Roomy(old(cache.entries), order, cache.capacity) ==>
      && cache.evictions == old(cache.evictions)
      && Underway(old(cache.entries), cache.entries, order, |order|, cap, cache.capacity, report)
      && Served(old(cache.entries), cache.entries, order, |order|, cap, report)
  {
    hide Faithful, LostOldest, Roomy, DistinctIds, IsCached, Missing, Underway, Served, RenderDataCache.Valid;
    report := Report(0, 0, culled, 0, TierCounts(0, 0, 0, 0, 0));
    ghost var first := cache.entries;
    ghost var roomy := DistinctIds(order) && Roomy(first, order, cache.capacity);
    if roomy { FrameBegins(first, order, cap, cache.capacity, report); }
    for k := 0 to |order|
      invariant cache.Valid(derive) && cache.frame == old(cache.frame) && report.culled == culled
      invariant report.processed + report.deferred + report.cacheHits == k && report.processed <= cap
      invariant Total(report.tierCounts) == report.processed + report.cacheHits
      invariant report.deferred > 0 ==> report.processed == cap
      invariant cache.misses == old(cache.misses) + report.processed && cache.hits == old(cache.hits) + report.cacheHits
      invariant roomy ==> cache.evictions == old(cache.evictions)
                          && Underway(first, cache.entries, order, k, cap, cache.capacity, report)
                          && Served(first, cache.entries, order, k, cap, report)
    {
      report := ProcessItem(order, k, cap, cache, derive, report, first);
    }
  }

  lemma FrameBegins<T>(first: map<string, Cached<T>>, order: seq<Item>, cap: nat, capacity: nat, report: Report)
    requires DistinctIds(order) && Roomy(first, order, capacity)
    requires report.processed == report.deferred == 0 && report.tierCounts == TierCounts(0, 0, 0, 0, 0)
    ensures Underway(first, first, order, 0, cap, capacity, report) && Served(first, first, order, 0, cap, report)
  {
    hide DistinctIds, Roomy;
  }

  /** One item of the frame: a free hit, a deferral over the cap, or a derive. */
  method ProcessItem<T>(order: seq<Item>, k: nat, cap: nat, cache: RenderDataCache<T>, derive: (string, nat) -> T,
                        was: Report, ghost first: map<string, Cached<T>>) returns (report: Report)
    requires cache.Valid(derive) && k < |order| && was.processed <= cap
    requires was.processed + was.deferred + was.cacheHits == k && (was.deferred > 0 ==> was.processed == cap)
    modifies cache
    ensures cache.Valid(derive) && cache.frame == old(cache.frame) && report.culled == was.culled
    ensures report.processed + report.deferred + report.cacheHits == k + 1 && was.processed <= report.processed <= cap
    ensures report.deferred > 0 ==> report.processed == cap
    ensures Total(report.tierCounts) - Total(was.tierCounts) ==
              report.processed + report.cacheHits - was.processed - was.cacheHits
    ensures cache.misses == old(cache.misses) + report.processed - was.processed
    ensures cache.hits == old(cache.hits) + report.cacheHits - was.cacheHits
    ensures
      && Underway(first, old(cache.entries), order, k, cap, cache.capacity, was)
      && Served(first, old(cache.entries), order, k, cap, was) ==>
        && cache.evictions == old(cache.evictions)
        && Underway(first, cache.entries, order, k + 1, cap, cache.capacity, report)
        && Served(first, cache.entries, order, k + 1, cap, report)
  {
    hide Faithful, LostOldest, IsCached, Missing, Underway, Served, RenderDataCache.Valid;
    var item := order[k];
    ghost var before := cache.entries;
    ghost var roomy :=
      Underway(first, before, order, k, cap, cache.capacity, was) && Served(first, before, order, k, cap, was);
    CachedIs(cache.entries, item);
    if IsCached(cache.entries, item) {
      report := was.(cacheHits := was.cacheHits + 1, tierCounts := Record(was.tierCounts, item.tier));
      if roomy {
        var c := before[item.id].(lastUsed := cache.frame);
        StoreUnderway(first, before, order, k, cap, cache.capacity, was, c, report);
        StoreServed(first, before, order, k, cap, cache.capacity, was, c, report);
      }
      var _ := cache.GetOrInsert(item.id, item.revision, derive);
    } else if was.processed >= cap {
      report := was.(deferred := was.deferred + 1);
      if roomy {
        DeferUnderway(first, before, order, k, cap, cache.capacity, was);
        DeferServed(first, before, order, k, cap, cache.capacity, was);
      }
    } else {
      report := was.(processed := was.processed + 1, tierCounts := Record(was.tierCounts, item.tier));
      if roomy {
        var c := Cached(item.revision, cache.frame, derive(item.id, item.revision));
        StoreUnderway(first, before, order, k, cap, cache.capacity, was, c, report);
        StoreServed(first, before, order, k, cap, cache.capacity, was, c, report);
      }
      var _ := cache.GetOrInsert(item.id, item.revision, derive);
    }
  }

  lemma ShownIs(b: Budget)
    ensures forall i :: Shown(b, i) <==> IsGesture(b, i) || RectsIntersect(i.bounds, b.viewport)
  {
  }

  /** What is scheduled in one frame, in order. */
  function Schedule(b: Budget, items: seq<Item>): seq<Item> { Order(b, Visible(b, items)) }

  method ScheduleFrameWork<T>(items: seq<Item>, budget: Budget, cache: RenderDataCache<T>, derive: (string, nat) -> T)
      returns (report: Report)
    requires cache.Valid(derive)
    modifies cache
    ensures cache.Valid(derive) && cache.frame == old(cache.frame) + 1
    ensures report.processed + report.deferred + report.culled + report.cacheHits == |items|
    ensures Total(report.tierCounts) == report.processed + report.cacheHits
    ensures report.culled == |items| - |Visible(budget, items)| && report.processed <= budget.maxDerives
    ensures cache.misses == old(cache.misses) + report.processed && cache.hits == old(cache.hits) + report.cacheHits
    ensures var order := Schedule(budget, items);
      DistinctIds(order) && Roomy(old(cache.entries), order, cache.capacity) ==>
        && Progress(old(cache.entries), cache.entries, order, budget.maxDerives, cache.capacity)
        && report.processed == Min(budget.maxDerives, Missing(old(cache.entries), order, |order|))
        && report.cacheHits == |order| - Missing(old(cache.entries), order, |order|)
        && (forall tier :: Of(report.tierCounts, tier) == CachedOf(cache.entries, order, |order|, tier))
        && cache.evictions == old(cache.evictions)
    ensures var order := Schedule(budget, items);
      DistinctIds(order) && Roomy(old(cache.entries), order, cache.capacity) && budget.maxDerives >= 1 ==>
        forall i :: 0 <= i < |order| && IsGesture(budget, order[i]) ==> IsCached(cache.entries, order[i])
  {
    hide Faithful, Roomy, DistinctIds, Missing, Progress, Shown, Order, IsCached, IsGesture, InOrder, Underway,
         Served, CachedOf, Of, RenderDataCache.Valid;
    ShownIs(budget);
    cache.BeginFrame(derive);
    var culled := 0;
    var visible := [];
    for i := 0 to |items|
      invariant visible == Visible(budget, items[..i]) && culled == i - |visible|
    {
      assert items[..i + 1][..i] == items[..i];
      if !IsGesture(budget, items[i]) && !RectsIntersect(items[i].bounds, budget.viewport) {
        culled := culled + 1;
        continue;
      }
      visible := visible + [items[i]];
    }
    assert items[..|items|] == items;
    OrderSorts(budget, visible);
    ghost var first := cache.entries;
    report := ProcessOrder(Order(budget, visible), budget.maxDerives, cache, derive, culled);
    ghost var order := Order(budget, visible);
    if DistinctIds(order) && Roomy(first, order, cache.capacity) {
      FrameEnds(first, cache.entries, order, budget.maxDerives, cache.capacity, report);
      forall i | 0 <= i < |order| && IsGesture(budget, order[i]) ensures i == 0 { GestureLeads(budget, visible, i); }
    }
  }

  /** The books at the end of a roomy frame. */
  lemma FrameEnds<T>(first: map<string, Cached<T>>, now: map<string, Cached<T>>, order: seq<Item>, cap: nat,
                     capacity: nat, report: Report)
    requires Underway(first, now, order, |order|, cap, capacity, report)
    requires Served(first, now, order, |order|, cap, report)
    requires report.processed + report.deferred + report.cacheHits == |order|
    ensures Progress(first, now, order, cap, capacity)
    ensures report.processed == Min(cap, Missing(first, order, |order|))
    ensures report.cacheHits == |order| - Missing(first, order, |order|)
    ensures cap >= 1 && order != [] ==> IsCached(now, order[0])
    ensures forall tier :: Of(report.tierCounts, tier) == CachedOf(now, order, |order|, tier)
  {
    hide CachedOf, Of, Missing, Roomy, DistinctIds, IsCached;
  }

  /** Frames over unchanged visible items: the cache warms up at the cap's pace, and once
      that covers what was missing a frame derives and defers nothing. */
  method WarmUp<T>(items: seq<Item>, budget: Budget, cache: RenderDataCache<T>, derive: (string, nat) -> T, n: nat)
      returns (last: Report)
    requires cache.Valid(derive)
    requires DistinctIds(Schedule(budget, items)) && Roomy(cache.entries, Schedule(budget, items), cache.capacity)
    modifies cache
    ensures cache.Valid(derive) && cache.evictions == old(cache.evictions)
    ensures var order := Schedule(budget, items);
            var m := Missing(old(cache.entries), order, |order|);
            && Missing(cache.entries, order, |order|) == Max(0, m - (n + 1) * budget.maxDerives)
            && (n * budget.maxDerives >= m ==> last.processed == last.deferred == 0 && last.cacheHits == |order|)
  {
    hide Missing, Roomy, DistinctIds, Schedule, IsCached, RenderDataCache.Valid;
    ghost var order := Schedule(budget, items);
    ghost var m := Missing(cache.entries, order, |order|);
    ScheduledCount(budget, items);
    OneMore(1, budget.maxDerives);
    last := ScheduleFrameWork(items, budget, cache, derive);
    for i := 0 to n
      invariant cache.Valid(derive) && cache.evictions == old(cache.evictions)
      invariant Roomy(cache.entries, order, cache.capacity)
      invariant Missing(cache.entries, order, |order|) == Max(0, m - (i + 1) * budget.maxDerives)
      invariant i * budget.maxDerives >= m ==> last.processed == last.deferred == 0 && last.cacheHits == |order|
    {
      OneMore(i + 1, budget.maxDerives);
      OneMore(i + 2, budget.maxDerives);
      last := ScheduleFrameWork(items, budget, cache, derive);
    }
  }

  lemma ScheduledCount(b: Budget, items: seq<Item>)
    ensures |Schedule(b, items)| == |Visible(b, items)|
  {
    OrderSorts(b, Visible(b, items));
  }

  lemma OneMore(n: nat, cap: nat)
    requires n > 0
    ensures n * cap == (n - 1) * cap + cap
  {
  }

  /** Distinct visible ids stay distinct in the schedule, and the gesture target leads it. */
  lemma GestureLeads(b: Budget, s: seq<Item>, i: nat)
    requires i < |Order(b, s)| && IsGesture(b, Order(b, s)[i]) && DistinctIds(Order(b, s))
    ensures i == 0
  {
    OrderSorts(b, s);
    var t := Order(b, s);
    assert forall j :: 0 < j < |t| ==> !Sooner(b, t[j], t[0]);
    assert IsGesture(b, t[0]) && t[0].id == t[i].id;
  }
}
