/**
 Image garbage collection: the tracked images, the least-recently-used deletion plan, and one
 iteration of the loop that drives them.  Clock readings are inputs; thresholds are reals.
 */
module ImageGc {
  import opened Wrappers

  datatype Image = Image(id: string, repoTags: seq<string>, repoDigests: seq<string>, size: nat)

  datatype Tracked = Tracked(info: Image, lastUsed: int, inUse: bool)

  datatype Config = Config(high: real, low: real, minAge: int)

  datatype Manager = Manager(images: map<string, Tracked>, pinned: set<string>)

  const EMPTY := Manager(map[], {})

  /** The calls that change the manager; Retain is the first half of `sync`. */
  datatype Call =
    | Track(info: Image, now: int)
    | MarkInUse(id: string, now: int)
    | MarkNotInUse(id: string)
    | RemoveImage(id: string)
    | Retain(ids: set<string>)

  function Next(m: Manager, c: Call): Manager {
    match c
    case Track(info, now) =>
      if info.id in m.images then m else m.(images := m.images[info.id := Tracked(info, now, false)])
    case MarkInUse(id, now) =>
      Manager(if id in m.images then m.images[id := m.images[id].(lastUsed := now, inUse := true)] else m.images,
              m.pinned + {id})
    case MarkNotInUse(id) =>
      Manager(if id in m.images then m.images[id := m.images[id].(inUse := false)] else m.images, m.pinned - {id})
    case RemoveImage(id) => Manager(m.images - {id}, m.pinned - {id})
    case Retain(ids) => m.(images := map id | id in m.images && id in ids :: m.images[id])
  }

  function Run(m: Manager, calls: seq<Call>): Manager
    decreases |calls|
  {
    if calls == [] then m else Next(Run(m, calls[..|calls| - 1]), calls[|calls| - 1])
  }

  lemma {:induction false} RunConcat(m: Manager, a: seq<Call>, b: seq<Call>)
    ensures Run(m, a + b) == Run(Run(m, a), b)
    decreases |b|
  {
    if b == [] {
      assert a + b == a;
    } else {
      var front := b[..|b| - 1];
      RunConcat(m, a, front);
      assert (a + b)[..|a + b| - 1] == a + front;
    }
  }

  // -- Recency over whole runs -------------------------------------------------

  predicate Timed(c: Call) {
    c.Track? || c.MarkInUse?
  }

  /** Clock readings never go back along the calls. */
  predicate Monotone(calls: seq<Call>) {
    forall i, j :: 0 <= i < j < |calls| && Timed(calls[i]) && Timed(calls[j]) ==> calls[i].now <= calls[j].now
  }

  /** No reading in the calls is later than `now`. */
  predicate Until(calls: seq<Call>, now: int) {
    forall i :: 0 <= i < |calls| && Timed(calls[i]) ==> calls[i].now <= now
  }

  /** Call number `i` marks the image in use or is the one that starts to track it. */
  predicate Touches(calls: seq<Call>, i: nat, id: string)
    requires i < |calls|
  {
    || (calls[i].MarkInUse? && calls[i].id == id)
    || (calls[i].Track? && calls[i].info.id == id && id !in Run(EMPTY, calls[..i]).images)
  }

  predicate WellKeyed(m: Manager) {
    forall id :: id in m.images ==> m.images[id].info.id == id
  }

  /** A tracked image was last used no earlier than any call that touched it. */
  lemma {:induction false} LastUsedIsLatest(calls: seq<Call>)
    requires Monotone(calls)
    ensures var m := Run(EMPTY, calls);
            && WellKeyed(m)
            && forall id, i :: id in m.images && 0 <= i < |calls| && Touches(calls, i, id) ==>
                 calls[i].now <= m.images[id].lastUsed
    decreases |calls|
  {
    if calls != [] {
      var n := |calls| - 1;
      var front, c := calls[..n], calls[n];
      LastUsedIsLatest(front);
      var before, m := Run(EMPTY, front), Run(EMPTY, calls);
      forall id, i | id in m.images && 0 <= i < |calls| && Touches(calls, i, id)
        ensures calls[i].now <= m.images[id].lastUsed
      {
        if i < n {
          assert front[..i] == calls[..i] && front[i] == calls[i];
          assert Touches(front, i, id);
        }
      }
    }
  }

  /** A tracked image was last used exactly when some call touched it. */
  lemma {:induction false} LastUsedIsTouch(calls: seq<Call>, id: string) returns (i: nat)
    requires id in Run(EMPTY, calls).images
    ensures i < |calls| && Touches(calls, i, id) && calls[i].now == Run(EMPTY, calls).images[id].lastUsed
    decreases |calls|
  {
    var n := |calls| - 1;
    var before := Run(EMPTY, calls[..n]);
    if (calls[n].MarkInUse? && calls[n].id == id) || id !in before.images {
      i := n;
    } else {
      i := LastUsedIsTouch(calls[..n], id);
      assert calls[..n][..i] == calls[..i];
    }
  }

  /** The call unpins the image, by marking it not in use or by removing it. */
  predicate Unpins(c: Call, id: string) {
    (c.MarkNotInUse? && c.id == id) || (c.RemoveImage? && c.id == id)
  }

  /** Call number `i` marks the image in use and no later call unpins it. */
  predicate PinsForGood(calls: seq<Call>, i: int, id: string) {
    && 0 <= i < |calls|
    && calls[i].MarkInUse? && calls[i].id == id
    && forall j :: i < j < |calls| ==> !Unpins(calls[j], id)
  }

  /** In every run an image is pinned exactly when it was marked in use and not unmarked or removed since. */
  lemma {:induction false} PinnedIff(calls: seq<Call>, id: string)
    ensures id in Run(EMPTY, calls).pinned <==> exists i :: PinsForGood(calls, i, id)
    decreases |calls|
  {
    if calls != [] {
      var n := |calls| - 1;
      var front, c := calls[..n], calls[n];
      PinnedIff(front, id);
      if c.MarkInUse? && c.id == id {
        assert PinsForGood(calls, n, id);
      } else if !Unpins(c, id) {
        if i :| PinsForGood(front, i, id) {
          assert PinsForGood(calls, i, id);
        }
        if i :| PinsForGood(calls, i, id) {
          assert i < n && PinsForGood(front, i, id);
        }
      }
    }
  }

  /** Call number `i` marks the tracked image in use, and no later call unmarks it or stops tracking it. */
  predicate UsesForGood(calls: seq<Call>, i: int, id: string) {
    && 0 <= i < |calls|
    && calls[i].MarkInUse? && calls[i].id == id && id in Run(EMPTY, calls[..i]).images
    && forall j :: i < j < |calls| ==> !Unpins(calls[j], id) && !Forgets(calls[j], id)
  }

  /** In every run a tracked image says it is in use exactly when it was marked so while tracked, and not unmarked. */
  lemma {:induction false} InUseIff(calls: seq<Call>, id: string)
    requires id in Run(EMPTY, calls).images
    ensures Run(EMPTY, calls).images[id].inUse <==> exists i :: UsesForGood(calls, i, id)
    decreases |calls|
  {
    var n := |calls| - 1;
    var front, c := calls[..n], calls[n];
    var before := Run(EMPTY, front);
    forall i | 0 <= i < n
      ensures UsesForGood(calls, i, id) <==> UsesForGood(front, i, id) && !Unpins(c, id) && !Forgets(c, id)
    {
      assert front[..i] == calls[..i] && front[i] == calls[i];
      assert forall j :: i < j < n ==> front[j] == calls[j];
    }
    if c.MarkInUse? && c.id == id {
      assert UsesForGood(calls, n, id);
    } else if id in before.images {
      InUseIff(front, id);
      if i :| UsesForGood(front, i, id) {
        assert UsesForGood(calls, i, id) <==> !Unpins(c, id) && !Forgets(c, id);
      }
    } else {
      NewIsUnused(front, id);
    }
  }

  /** An image that is not tracked was not marked for good since. */
  lemma NewIsUnused(calls: seq<Call>, id: string)
    requires id !in Run(EMPTY, calls).images
    ensures forall i :: !UsesForGood(calls, i, id)
  {
    assert calls[..|calls|] == calls;
    forall i | UsesForGood(calls, i, id)
      ensures false
    {
      StaysTracked(calls, i, |calls|, id);
    }
  }

  lemma {:induction false} StaysTracked(calls: seq<Call>, i: nat, n: nat, id: string)
    requires i <= n <= |calls| && id in Run(EMPTY, calls[..i]).images
    requires forall j :: i <= j < n ==> !Forgets(calls[j], id)
    ensures id in Run(EMPTY, calls[..n]).images
  {
    if i < n {
      StaysTracked(calls, i, n - 1, id);
      assert calls[..n][..n - 1] == calls[..n - 1];
    }
  }

  /** The call stops tracking the image, by removing it or by a listing without it. */
  predicate Forgets(c: Call, id: string) {
    (c.RemoveImage? && c.id == id) || (c.Retain? && id !in c.ids)
  }

  predicate TracksForGood(calls: seq<Call>, i: int, id: string) {
    && 0 <= i < |calls|
    && calls[i].Track? && calls[i].info.id == id
    && forall j :: i < j < |calls| ==> !Forgets(calls[j], id)
  }

  /** In every run an image is tracked exactly when it was listed and not removed or unlisted since. */
  lemma {:induction false} TrackedIff(calls: seq<Call>, id: string)
    ensures id in Run(EMPTY, calls).images <==> exists i :: TracksForGood(calls, i, id)
    decreases |calls|
  {
    if calls != [] {
      var n := |calls| - 1;
      var front, c := calls[..n], calls[n];
      TrackedIff(front, id);
      if c.Track? && c.info.id == id {
        assert TracksForGood(calls, n, id);
      } else if !Forgets(c, id) {
        if i :| TracksForGood(front, i, id) {
          assert TracksForGood(calls, i, id);
        }
        if i :| TracksForGood(calls, i, id) {
          assert i < n && TracksForGood(front, i, id);
        }
      }
    }
  }

  // -- The plan ----------------------------------------------------------------

  predicate Eligible(m: Manager, minAge: int, now: int, id: string) {
    id in m.images && m.images[id].info.id !in m.pinned && now - m.images[id].lastUsed > minAge
  }

  /** The high-threshold test; with no capacity the fraction is not a number or infinite, and GC goes on. */
  predicate AboveHigh(cfg: Config, used: nat, total: nat) {
    total == 0 || used as real / total as real > cfg.high
  }

  function BytesToFree(cfg: Config, used: nat, total: nat): nat {
    var excess := used as real - cfg.low * total as real;
    if excess <= 0.0 then 0 else excess.Floor
  }

  function SizeOf(m: Manager, id: string): nat {
    if id in m.images then m.images[id].info.size else 0
  }

  function Freed(m: Manager, ids: seq<string>): nat {
    if ids == [] then 0 else Freed(m, ids[..|ids| - 1]) + SizeOf(m, ids[|ids| - 1])
  }

  predicate OldestFirst(m: Manager, ids: seq<string>)
    requires forall id :: id in ids ==> id in m.images
  {
    forall i, j :: 0 <= i < j < |ids| ==> m.images[ids[i]].lastUsed <= m.images[ids[j]].lastUsed
  }

  /** The eligible images, each once, least recently used first; equal times may come in any order. */
  ghost predicate LruOrder(m: Manager, minAge: int, now: int, order: seq<string>) {
    && (forall id :: id in order <==> Eligible(m, minAge, now, id))
    && Distinct(order)
    && OldestFirst(m, order)
  }

  /** Images are taken from the front of the order until enough is freed. */
  ghost predicate Greedy(m: Manager, order: seq<string>, goal: nat, n: nat) {
    && n <= |order|
    && (forall k :: 0 <= k < n ==> Freed(m, order[..k]) < goal)
    && (n < |order| ==> Freed(m, order[..n]) >= goal)
  }

  ghost predicate IsPlan(m: Manager, cfg: Config, used: nat, total: nat, now: int,
                         order: seq<string>, plan: seq<string>) {
    if AboveHigh(cfg, used, total)
    then LruOrder(m, cfg.minAge, now, order) && |plan| <= |order| && plan == order[..|plan|]
         && Greedy(m, order, BytesToFree(cfg, used, total), |plan|)
    else plan == []
  }

  /**
   Above the high threshold the plan is a shortest prefix: it frees enough, and without its
   last image it would not, and use ends below the low target plus one byte; or it is every
   eligible image.  No planned image was used later than an eligible image left out.
   */
  lemma PlanIsShortestPrefix(m: Manager, cfg: Config, used: nat, total: nat, now: int,
                             order: seq<string>, plan: seq<string>)
    requires AboveHigh(cfg, used, total) && IsPlan(m, cfg, used, total, now, order, plan)
    ensures forall id :: id in plan ==> Eligible(m, cfg.minAge, now, id)
    ensures forall a, b :: a in plan && Eligible(m, cfg.minAge, now, b) && b !in plan ==>
              m.images[a].lastUsed <= m.images[b].lastUsed
    ensures plan != [] ==> Freed(m, plan[..|plan| - 1]) < BytesToFree(cfg, used, total)
    ensures plan != [] ==>
              (used - Freed(m, plan[..|plan| - 1])) as real >= cfg.low * total as real + 1.0
    ensures || (&& Freed(m, plan) >= BytesToFree(cfg, used, total)
                && (used - Freed(m, plan)) as real < cfg.low * total as real + 1.0)
            || forall id :: Eligible(m, cfg.minAge, now, id) ==> id in plan
  {
    var n := |plan|;
    assert forall id :: id in plan ==> id in order;
    if n > 0 {
      assert plan[..n - 1] == order[..n - 1];
      NotEarlier(cfg, used, total, Freed(m, plan[..n - 1]));
    }
    forall a, b | a in plan && Eligible(m, cfg.minAge, now, b) && b !in plan
      ensures m.images[a].lastUsed <= m.images[b].lastUsed
    {
      var i :| 0 <= i < n && plan[i] == a;
      assert b in order;
      var j :| 0 <= j < |order| && order[j] == b;
      assert order[i] == a;
    }
    if n < |order| {
      GoalReached(cfg, used, total, Freed(m, plan));
    } else {
      assert plan == order;
    }
  }

  lemma RatioExceeds(a: real, b: real, limit: real)
    requires b > 0.0
    ensures a / b > limit <==> a > limit * b
  {
    var q := a / b;
    assert q * b == a;
    assert q > limit ==> q * b > limit * b;
    assert q <= limit ==> q * b <= limit * b;
  }

  lemma AboveHighIff(cfg: Config, used: nat, total: nat)
    ensures AboveHigh(cfg, used, total) <==> total == 0 || used as real > cfg.high * total as real
  {
    if total > 0 {
      RatioExceeds(used as real, total as real, cfg.high);
    }
  }

  /** The goal is at least a byte exactly when use is at least a byte over the low target. */
  lemma GoalIsPositiveIff(cfg: Config, used: nat, total: nat)
    ensures BytesToFree(cfg, used, total) > 0 <==> used as real >= cfg.low * total as real + 1.0
  {
  }

  /** Freeing any images counts the size of each. */
  lemma FreedSnoc(m: Manager, ids: seq<string>, id: string)
    requires id in m.images
    ensures Freed(m, []) == 0 && Freed(m, ids + [id]) == Freed(m, ids) + m.images[id].info.size
  {
    assert (ids + [id])[..|ids|] == ids;
  }

  /**
   Collection starts exactly when use is over the high mark and at least a byte over the low target
   and some image is old and unpinned; without a known capacity the high mark does not count.
   */
  lemma PlanStartsIff(m: Manager, cfg: Config, used: nat, total: nat, now: int, order: seq<string>, plan: seq<string>)
    requires IsPlan(m, cfg, used, total, now, order, plan)
    ensures plan != [] <==>
              && (total == 0 || used as real > cfg.high * total as real)
              && used as real >= cfg.low * total as real + 1.0
              && exists id :: id in m.images && m.images[id].info.id !in m.pinned
                              && now - m.images[id].lastUsed > cfg.minAge
  {
    AboveHighIff(cfg, used, total);
    GoalIsPositiveIff(cfg, used, total);
    if AboveHigh(cfg, used, total) {
      if plan != [] {
        assert plan[0] in order;
        assert order[..0] == [] && Freed(m, order[..0]) < BytesToFree(cfg, used, total);
        assert Eligible(m, cfg.minAge, now, plan[0]);
      } else {
        assert order[..0] == [] && Freed(m, order[..0]) == 0;
        assert order != [] ==> Freed(m, order[..0]) >= BytesToFree(cfg, used, total);
        forall id | id in m.images && m.images[id].info.id !in m.pinned && now - m.images[id].lastUsed > cfg.minAge
          ensures id in order
        {
          assert Eligible(m, cfg.minAge, now, id);
        }
      }
    }
  }

  lemma NotEarlier(cfg: Config, used: nat, total: nat, freed: nat)
    requires freed < BytesToFree(cfg, used, total)
    ensures (used - freed) as real >= cfg.low * total as real + 1.0
  {
  }

  lemma GoalReached(cfg: Config, used: nat, total: nat, freed: nat)
    requires freed >= BytesToFree(cfg, used, total)
    ensures (used - freed) as real < cfg.low * total as real + 1.0
  {
  }

  /** Whatever the loop did before, a planned image was not touched within the last `minAge`. */
  lemma PlannedImageIsOld(calls: seq<Call>, cfg: Config, used: nat, total: nat, now: int,
                          order: seq<string>, plan: seq<string>, id: string, i: nat)
    requires Monotone(calls) && Until(calls, now)
    requires IsPlan(Run(EMPTY, calls), cfg, used, total, now, order, plan)
    requires id in plan && i < |calls| && Touches(calls, i, id)
    ensures now - calls[i].now > cfg.minAge
    ensures id !in Run(EMPTY, calls).pinned
  {
    LastUsedIsLatest(calls);
    var m := Run(EMPTY, calls);
    assert id in order;
    assert Eligible(m, cfg.minAge, now, id);
  }

  // -- The calls of one tick -----------------------------------------------------

  function TrackCalls(available: seq<Image>, readings: seq<int>): (calls: seq<Call>)
    requires |readings| == |available|
    ensures |calls| == |available|
    ensures forall i :: 0 <= i < |calls| ==> calls[i] == Track(available[i], readings[i])
  {
    seq(|available|, i requires 0 <= i < |available| => Track(available[i], readings[i]))
  }

  function SyncCalls(available: seq<Image>, readings: seq<int>): seq<Call>
    requires |readings| == |available|
  {
    [Retain(set i | 0 <= i < |available| :: available[i].id)] + TrackCalls(available, readings)
  }

  lemma TrackCallsSnoc(ids: set<string>, available: seq<Image>, readings: seq<int>, i: nat)
    requires |readings| == |available| && i < |available|
    ensures var calls := [Retain(ids)] + TrackCalls(available[..i + 1], readings[..i + 1]);
            && calls[|calls| - 1] == Track(available[i], readings[i])
            && calls[..|calls| - 1] == [Retain(ids)] + TrackCalls(available[..i], readings[..i])
  {
  }

  predicate Referenced(img: Image, desired: set<string>) {
    || (exists i :: 0 <= i < |img.repoTags| && img.repoTags[i] in desired)
    || (exists i :: 0 <= i < |img.repoDigests| && img.repoDigests[i] in desired)
  }

  function MarkCalls(listed: seq<Image>, desired: set<string>, readings: seq<int>): (calls: seq<Call>)
    requires |readings| == |listed|
    ensures |calls| == |listed|
    ensures forall i :: 0 <= i < |calls| ==>
              calls[i] == if Referenced(listed[i], desired) then MarkInUse(listed[i].id, readings[i])
                          else MarkNotInUse(listed[i].id)
  {
    seq(|listed|, i requires 0 <= i < |listed| =>
      if Referenced(listed[i], desired) then MarkInUse(listed[i].id, readings[i]) else MarkNotInUse(listed[i].id))
  }

  predicate UniqueIds(listed: seq<Image>) {
    forall i, j :: 0 <= i < j < |listed| ==> listed[i].id != listed[j].id
  }

  // -- The manager object ------------------------------------------------------

  /** `sort_by_key(last_used)`: a stable sort, so a new id goes behind every id that is not newer. */
  method SortByLastUsed(m: Manager, ids: seq<string>) returns (order: seq<string>)
    requires Distinct(ids) && forall id :: id in ids ==> id in m.images
    ensures forall id :: id in order <==> id in ids
    ensures Distinct(order) && OldestFirst(m, order)
  {
    order := [];
    for i := 0 to |ids|
      invariant forall id :: id in order <==> id in ids[..i]
      invariant Distinct(order)
      invariant OldestFirst(m, order)
    {
      assert ids[i] !in ids[..i];
      order := InsertSorted(m, order, ids[i]);
      assert ids[..i + 1] == ids[..i] + [ids[i]];
    }
    assert ids[..|ids|] == ids;
  }

  method InsertSorted(m: Manager, order: seq<string>, id: string) returns (more: seq<string>)
    requires (forall x :: x in order ==> x in m.images) && id in m.images
    requires Distinct(order) && OldestFirst(m, order) && id !in order
    ensures forall x :: x in more <==> x in order || x == id
    ensures Distinct(more) && OldestFirst(m, more)
  {
    var p := |order|;
    while p > 0 && m.images[order[p - 1]].lastUsed > m.images[id].lastUsed
      invariant 0 <= p <= |order|
      invariant forall j :: p <= j < |order| ==> m.images[order[j]].lastUsed > m.images[id].lastUsed
    {
      p := p - 1;
    }
    InsertedDistinct(order, p, id);
    InsertedOldestFirst(m, order, p, id);
    more := Inserted(order, p, id);
  }

  function Inserted(order: seq<string>, p: nat, id: string): (more: seq<string>)
    requires p <= |order|
    ensures |more| == |order| + 1
    ensures forall j :: 0 <= j < |more| ==> more[j] == if j < p then order[j] else if j == p then id else order[j - 1]
  {
    order[..p] + [id] + order[p..]
  }

  lemma InsertedDistinct(order: seq<string>, p: nat, id: string)
    requires p <= |order| && Distinct(order) && id !in order
    ensures Distinct(Inserted(order, p, id))
    ensures forall x :: x in Inserted(order, p, id) <==> x in order || x == id
  {
  }

  lemma InsertedOldestFirst(m: Manager, order: seq<string>, p: nat, id: string)
    requires p <= |order| && (forall x :: x in order ==> x in m.images) && id in m.images
    requires OldestFirst(m, order)
    requires p > 0 ==> m.images[order[p - 1]].lastUsed <= m.images[id].lastUsed
    requires forall j :: p <= j < |order| ==> m.images[order[j]].lastUsed > m.images[id].lastUsed
    ensures forall x :: x in Inserted(order, p, id) ==> x in m.images
    ensures OldestFirst(m, Inserted(order, p, id))
  {
    assert forall j :: 0 <= j < p ==> m.images[order[j]].lastUsed <= m.images[order[p - 1]].lastUsed;
  }

  class ImageGcManager {
    const config: Config
    var images: map<string, Tracked>
    var pinned: set<string>

    function Value(): Manager
      reads this
    {
      Manager(images, pinned)
    }

    constructor (config: Config)
      ensures this.config == config && Value() == EMPTY
    {
      this.config := config;
      images, pinned := map[], {};
    }

    method TrackImage(info: Image, now: int)
      modifies this
      ensures Value() == Next(old(Value()), Track(info, now))
    {
      if info.id !in images {
        images := images[info.id := Tracked(info, now, false)];
      }
    }

    method MarkInUse(id: string, now: int)
      modifies this
      ensures Value() == Next(old(Value()), Call.MarkInUse(id, now))
    {
      pinned := pinned + {id};
      if id in images {
        images := images[id := images[id].(lastUsed := now, inUse := true)];
      }
    }

    method MarkNotInUse(id: string)
      modifies this
      ensures Value() == Next(old(Value()), Call.MarkNotInUse(id))
    {
      pinned := pinned - {id};
      if id in images {
        images := images[id := images[id].(inUse := false)];
      }
    }

    method RemoveImage(id: string)
      modifies this
      ensures Value() == Next(old(Value()), Call.RemoveImage(id))
    {
      images := images - {id};
      pinned := pinned - {id};
    }

    /** `sync`, with one clock reading per listed image. */
    method Sync(available: seq<Image>, readings: seq<int>)
      requires |readings| == |available|
      modifies this
      ensures Value() == Run(old(Value()), SyncCalls(available, readings))
    {
      var ids := set i | 0 <= i < |available| :: available[i].id;
      images := map id | id in images && id in ids :: images[id];
      ghost var start := old(Value());
      assert Value() == Run(start, [Retain(ids)]) by {
        assert [Retain(ids)][..0] == [];
      }
      for i := 0 to |available|
        invariant Value() == Run(start, [Retain(ids)] + TrackCalls(available[..i], readings[..i]))
      {
        TrackImage(available[i], readings[i]);
        TrackCallsSnoc(ids, available, readings, i);
      }
      assert available[..|available|] == available && readings[..|readings|] == readings;
    }

    /** The deletion plan; `order` is the order the sort happened to choose. */
    method GcCandidates(used: nat, total: nat, now: int)
      returns (plan: seq<string>, bytesToFree: nat, ghost order: seq<string>)
      requires WellKeyed(Value())
      ensures IsPlan(Value(), config, used, total, now, order, plan)
      ensures bytesToFree == if AboveHigh(config, used, total) then BytesToFree(config, used, total) else 0
    {
      if total != 0 && used as real / total as real <= config.high {
        return [], 0, [];
      }
      bytesToFree := BytesToFree(config, used, total);
      var eligible := CollectEligible(now);
      var sorted := SortByLastUsed(Value(), eligible);
      plan := [];
      var freed := 0;
      for i := 0 to |sorted|
        invariant plan == sorted[..i]
        invariant freed == Freed(Value(), sorted[..i])
        invariant forall k :: 0 <= k < i ==> Freed(Value(), sorted[..k]) < bytesToFree
      {
        if freed >= bytesToFree {
          return plan, bytesToFree, sorted;
        }
        assert sorted[..i + 1][..i] == sorted[..i];
        freed := freed + images[sorted[i]].info.size;
        plan := plan + [sorted[i]];
      }
      order := sorted;
    }

    /** Walks the hash map in an arbitrary order. */
    method CollectEligible(now: int) returns (ids: seq<string>)
      ensures Distinct(ids)
      ensures forall id :: id in ids <==> Eligible(Value(), config.minAge, now, id)
    {
      ids := [];
      var todo := images.Keys;
      while todo != {}
        invariant todo <= images.Keys
        invariant Distinct(ids)
        invariant forall id :: id in ids <==> id !in todo && Eligible(Value(), config.minAge, now, id)
      {
        var id :| id in todo;
        if images[id].info.id !in pinned && now - images[id].lastUsed > config.minAge {
          ids := ids + [id];
        }
        todo := todo - {id};
      }
    }

    /** The loop over the second listing: pin what a desired pod references, unpin the rest. */
    method MarkAll(listed: seq<Image>, desired: set<string>, readings: seq<int>)
      requires |readings| == |listed|
      modifies this
      ensures Value() == Run(old(Value()), MarkCalls(listed, desired, readings))
    {
      for i := 0 to |listed|
        invariant Value() == Run(old(Value()), MarkCalls(listed[..i], desired, readings[..i]))
      {
        var img := listed[i];
        if Referenced(img, desired) {
          MarkInUse(img.id, readings[i]);
        } else {
          MarkNotInUse(img.id);
        }
        assert listed[..i + 1][..i] == listed[..i] && readings[..i + 1][..i] == readings[..i];
        ghost var more := MarkCalls(listed[..i + 1], desired, readings[..i + 1]);
        assert more[..i] == MarkCalls(listed[..i], desired, readings[..i]);
      }
      assert listed[..|listed|] == listed && readings[..|readings|] == readings;
    }
  }

  // -- The loop ----------------------------------------------------------------

  /** What one tick of the loop sees: the two listings (None when listing failed) with their clock
      readings, the images desired pods name, disk use, the time, and the images that fail to delete. */
  datatype Tick = Tick(first: Option<seq<Image>>, firstReadings: seq<int>, desired: set<string>,
                       second: Option<seq<Image>>, secondReadings: seq<int>, used: nat, total: nat, now: int,
                       undeletable: set<string>)
  {
    predicate Valid() {
      && (first.Some? ==> |firstReadings| == |first.value|)
      && (second.Some? ==> |secondReadings| == |second.value|)
    }

    /** The manager calls made before planning. */
    function Calls(): seq<Call>
      requires Valid()
    {
      if first.None? then []
      else if second.None? then SyncCalls(first.value, firstReadings)
      else SyncCalls(first.value, firstReadings) + MarkCalls(second.value, desired, secondReadings)
    }

    /** The clock is read in order, from `lo` to `now`. */
    predicate ReadFrom(lo: int) {
      var all := firstReadings + secondReadings;
      && lo <= now
      && (forall i :: 0 <= i < |all| ==> lo <= all[i] <= now)
      && (forall i, j :: 0 <= i < j < |all| ==> all[i] <= all[j])
    }
  }

  /** The planned images that do not fail to delete, removed in the order of the plan. */
  function Removals(plan: seq<string>, undeletable: set<string>): (calls: seq<Call>)
    ensures forall c :: c in calls ==> c.RemoveImage? && c.id in plan && c.id !in undeletable
    ensures forall id :: id in plan && id !in undeletable ==> RemoveImage(id) in calls
  {
    if plan == [] then []
    else
      var n := |plan| - 1;
      Removals(plan[..n], undeletable) + if plan[n] in undeletable then [] else [RemoveImage(plan[n])]
  }

  method Iteration(gc: ImageGcManager, t: Tick) returns (plan: seq<string>, ghost order: seq<string>)
    requires WellKeyed(gc.Value()) && t.Valid()
    modifies gc
    ensures WellKeyed(gc.Value())
    ensures PlannedAt(Run(old(gc.Value()), t.Calls()), gc.config, t, order, plan)
    ensures gc.Value() == Run(Run(old(gc.Value()), t.Calls()), Removals(plan, t.undeletable))
    ensures SparesReferenced(plan, t)
  {
    plan, order := [], [];
    ghost var start := gc.Value();
    RunKeepsKeys(start, t.Calls());
    if t.first.None? {
      return;
    }
    gc.Sync(t.first.value, t.firstReadings);
    ghost var synced := gc.Value();
    RunKeepsKeys(start, SyncCalls(t.first.value, t.firstReadings));
    if t.second.None? {
      return;
    }
    gc.MarkAll(t.second.value, t.desired, t.secondReadings);
    RunConcat(start, SyncCalls(t.first.value, t.firstReadings), MarkCalls(t.second.value, t.desired, t.secondReadings));
    if t.total == 0 {
      return;
    }
    var bytesToFree;
    plan, bytesToFree, order := gc.GcCandidates(t.used, t.total, t.now);
    if UniqueIds(t.second.value) {
      PlanSparesReferenced(synced, t.second.value, t.desired, t.secondReadings, gc.config, t.used, t.total, t.now,
                           order, plan);
    }
    RemovePlanned(gc, plan, t.undeletable);
  }

  /** The plan a tick makes in state `m`, after its calls: none when a listing failed or the disk is unknown. */
  ghost predicate PlannedAt(m: Manager, config: Config, t: Tick, order: seq<string>, plan: seq<string>) {
    if t.first.Some? && t.second.Some? && t.total != 0
    then IsPlan(m, config, t.used, t.total, t.now, order, plan)
    else plan == []
  }

  method RemovePlanned(gc: ImageGcManager, plan: seq<string>, undeletable: set<string>)
    requires WellKeyed(gc.Value())
    modifies gc
    ensures WellKeyed(gc.Value())
    ensures gc.Value() == Run(old(gc.Value()), Removals(plan, undeletable))
  {
    for i := 0 to |plan|
      invariant gc.Value() == Run(old(gc.Value()), Removals(plan[..i], undeletable))
    {
      RemovalsSnoc(old(gc.Value()), plan, i, undeletable);
      if plan[i] !in undeletable {
        gc.RemoveImage(plan[i]);
      }
    }
    assert plan[..|plan|] == plan;
    RunKeepsKeys(old(gc.Value()), Removals(plan, undeletable));
  }

  lemma RemovalsSnoc(m: Manager, plan: seq<string>, i: nat, undeletable: set<string>)
    requires i < |plan|
    ensures var before := Run(m, Removals(plan[..i], undeletable));
            Run(m, Removals(plan[..i + 1], undeletable))
            == if plan[i] in undeletable then before else Next(before, Call.RemoveImage(plan[i]))
  {
    assert plan[..i + 1][..i] == plan[..i];
    var less, more := Removals(plan[..i], undeletable), Removals(plan[..i + 1], undeletable);
    if plan[i] in undeletable {
      assert more == less;
    } else {
      assert more[..|more| - 1] == less;
    }
  }

  /** Each tick reads the clock no earlier than the tick before, and the first not before `start`. */
  predicate ReadInOrder(ticks: seq<Tick>, start: int) {
    forall k :: 0 <= k < |ticks| ==> ticks[k].Valid() && ticks[k].ReadFrom(Previous(ticks, k, start))
  }

  function Previous(ticks: seq<Tick>, k: nat, start: int): int
    requires k <= |ticks|
  {
    if k == 0 then start else ticks[k - 1].now
  }

  lemma {:induction false} TickCallsInOrder(t: Tick, lo: int)
    requires t.Valid() && t.ReadFrom(lo)
    ensures Monotone(t.Calls()) && Until(t.Calls(), t.now)
    ensures forall i :: 0 <= i < |t.Calls()| && Timed(t.Calls()[i]) ==> lo <= t.Calls()[i].now
  {
    var all := t.firstReadings + t.secondReadings;
    var calls := t.Calls();
    forall i | 0 <= i < |calls| && Timed(calls[i])
      ensures 0 < i <= |all| && calls[i].now == all[i - 1]
    {
    }
  }

  lemma HistoryInOrder(h: seq<Call>, lo: int, calls: seq<Call>, now: int, removals: seq<Call>)
    requires Monotone(h) && Until(h, lo) && Monotone(calls) && Until(calls, now) && lo <= now
    requires forall i :: 0 <= i < |calls| && Timed(calls[i]) ==> lo <= calls[i].now
    requires forall c :: c in removals ==> c.RemoveImage?
    ensures Monotone(h + calls) && Until(h + calls, now)
    ensures Monotone(h + calls + removals) && Until(h + calls + removals, now)
  {
    assert forall i :: 0 <= i < |removals| ==> removals[i] in removals;
  }

  predicate AllValid(ticks: seq<Tick>) {
    forall k :: 0 <= k < |ticks| ==> ticks[k].Valid()
  }

  /** Every manager call before tick `k`: the calls and the removals of each earlier tick. */
  function History(ticks: seq<Tick>, plans: seq<seq<string>>, k: nat): seq<Call>
    requires AllValid(ticks) && k <= |ticks| && k <= |plans|
    decreases k, 0
  {
    if k == 0 then [] else Seen(ticks, plans, k - 1) + Removals(plans[k - 1], ticks[k - 1].undeletable)
  }

  /** Every manager call before the plan of tick `k` is made. */
  function Seen(ticks: seq<Tick>, plans: seq<seq<string>>, k: nat): seq<Call>
    requires AllValid(ticks) && k < |ticks| && k <= |plans|
    decreases k, 1
  {
    History(ticks, plans, k) + ticks[k].Calls()
  }

  lemma {:induction false} HistoryIsPast(ticks: seq<Tick>, plans: seq<seq<string>>, more: seq<seq<string>>, k: nat)
    requires AllValid(ticks) && k <= |ticks| && k <= |plans| && plans <= more
    ensures History(ticks, plans, k) == History(ticks, more, k)
  {
    if k > 0 {
      HistoryIsPast(ticks, plans, more, k - 1);
    }
  }

  lemma {:induction false} HistoryMonotone(ticks: seq<Tick>, plans: seq<seq<string>>, k: nat, start: int)
    requires AllValid(ticks) && ReadInOrder(ticks, start) && k <= |ticks| && k <= |plans|
    ensures var h := History(ticks, plans, k); Monotone(h) && Until(h, Previous(ticks, k, start))
    ensures k < |ticks| ==> var h := Seen(ticks, plans, k); Monotone(h) && Until(h, ticks[k].now)
  {
    if k > 0 {
      HistoryMonotone(ticks, plans, k - 1, start);
      var t := ticks[k - 1];
      HistoryInOrder(Seen(ticks, plans, k - 1), t.now, [], t.now, Removals(plans[k - 1], t.undeletable));
      assert Seen(ticks, plans, k - 1) + [] == Seen(ticks, plans, k - 1);
    }
    if k < |ticks| {
      var lo := Previous(ticks, k, start);
      TickCallsInOrder(ticks[k], lo);
      HistoryInOrder(History(ticks, plans, k), lo, ticks[k].Calls(), ticks[k].now, []);
    }
  }

  /**
   Plan `k` is the plan for the state that every earlier call leads to, it holds no image that any
   of those calls touched within the last `minAge`, and no listed image that a desired pod names.
   */
  ghost predicate SafePlan(config: Config, ticks: seq<Tick>, plans: seq<seq<string>>, k: nat, order: seq<string>)
    requires AllValid(ticks) && k < |ticks| && k < |plans|
  {
    && PlannedAt(Run(EMPTY, Seen(ticks, plans, k)), config, ticks[k], order, plans[k])
    && OldEnough(Seen(ticks, plans, k), plans[k], ticks[k].now, config.minAge)
    && SparesReferenced(plans[k], ticks[k])
  }

  ghost predicate SafePlans(config: Config, ticks: seq<Tick>, plans: seq<seq<string>>, orders: seq<seq<string>>) {
    && AllValid(ticks)
    && |orders| == |plans| <= |ticks|
    && forall k :: 0 <= k < |plans| ==> SafePlan(config, ticks, plans, k, orders[k])
  }

  /** The loop over any number of ticks, with the order each sort chose. */
  method GcLoop(config: Config, ticks: seq<Tick>, ghost start: int)
    returns (plans: seq<seq<string>>, ghost orders: seq<seq<string>>)
    requires AllValid(ticks) && ReadInOrder(ticks, start)
    ensures |plans| == |ticks|
    ensures SafePlans(config, ticks, plans, orders)
  {
    var gc := new ImageGcManager(config);
    plans, orders := [], [];
    for k := 0 to |ticks|
      invariant fresh(gc) && gc.config == config
      invariant |plans| == k && SafePlans(config, ticks, plans, orders)
      invariant WellKeyed(gc.Value()) && gc.Value() == Run(EMPTY, History(ticks, plans, k))
    {
      var plan;
      ghost var order;
      plan, order := Iteration(gc, ticks[k]);
      NewPlanIsSafe(config, ticks, plans, plan, order, start);
      PlansStaySafe(config, ticks, plans, orders, plan, order);
      plans, orders := plans + [plan], orders + [order];
    }
  }

  /** A plan made in the state the history leads to is safe. */
  lemma NewPlanIsSafe(config: Config, ticks: seq<Tick>, plans: seq<seq<string>>, plan: seq<string>, order: seq<string>,
                      start: int)
    requires AllValid(ticks) && ReadInOrder(ticks, start) && |plans| < |ticks| && SparesReferenced(plan, ticks[|plans|])
    requires var t := ticks[|plans|];
             PlannedAt(Run(Run(EMPTY, History(ticks, plans, |plans|)), t.Calls()), config, t, order, plan)
    ensures var k, more := |plans|, plans + [plan];
            && SafePlan(config, ticks, more, k, order)
            && Run(EMPTY, History(ticks, more, k + 1))
               == Run(Run(Run(EMPTY, History(ticks, plans, k)), ticks[k].Calls()), Removals(plan, ticks[k].undeletable))
  {
    var k, more := |plans|, plans + [plan];
    HistoryGrows(ticks, plans, plan);
    HistoryMonotone(ticks, more, k, start);
    PlanIsOld(Seen(ticks, more, k), config, ticks[k], order, plan);
  }

  lemma HistoryGrows(ticks: seq<Tick>, plans: seq<seq<string>>, plan: seq<string>)
    requires AllValid(ticks) && |plans| < |ticks|
    ensures var k, more := |plans|, plans + [plan];
            var seen := Run(Run(EMPTY, History(ticks, plans, k)), ticks[k].Calls());
            && Run(EMPTY, Seen(ticks, more, k)) == seen
            && Run(EMPTY, History(ticks, more, k + 1)) == Run(seen, Removals(plan, ticks[k].undeletable))
  {
    var k, more := |plans|, plans + [plan];
    HistoryIsPast(ticks, plans, more, k);
    RunConcat(EMPTY, History(ticks, plans, k), ticks[k].Calls());
    RunConcat(EMPTY, Seen(ticks, more, k), Removals(plan, ticks[k].undeletable));
  }

  /** The earlier plans stay safe. */
  lemma PlansStaySafe(config: Config, ticks: seq<Tick>, plans: seq<seq<string>>, orders: seq<seq<string>>,
                      plan: seq<string>, order: seq<string>)
    requires SafePlans(config, ticks, plans, orders) && |plans| < |ticks|
    requires SafePlan(config, ticks, plans + [plan], |plans|, order)
    ensures SafePlans(config, ticks, plans + [plan], orders + [order])
  {
    forall j | 0 <= j < |plans|
      ensures SafePlan(config, ticks, plans + [plan], j, orders[j])
    {
      SafePlanIsPast(config, ticks, plans, plans + [plan], j, orders[j]);
    }
  }

  lemma SafePlanIsPast(config: Config, ticks: seq<Tick>, plans: seq<seq<string>>, more: seq<seq<string>>, k: nat,
                       order: seq<string>)
    requires AllValid(ticks) && k < |ticks| && k < |plans| && plans <= more
    requires SafePlan(config, ticks, plans, k, order)
    ensures SafePlan(config, ticks, more, k, order)
  {
    HistoryIsPast(ticks, plans, more, k);
  }

  /** With unique ids in the second listing, no image it shows as referenced is planned. */
  predicate SparesReferenced(plan: seq<string>, t: Tick) {
    t.second.Some? && UniqueIds(t.second.value) ==>
      forall i :: 0 <= i < |t.second.value| && t.second.value[i].id in plan
        ==> !Referenced(t.second.value[i], t.desired)
  }

  /** No call seen so far touched a planned image within the last `minAge`. */
  predicate OldEnough(seen: seq<Call>, plan: seq<string>, now: int, minAge: int) {
    forall id, i :: id in plan && 0 <= i < |seen| && Touches(seen, i, id) ==> now - seen[i].now > minAge
  }

  lemma PlanIsOld(seen: seq<Call>, config: Config, t: Tick, order: seq<string>, plan: seq<string>)
    requires Monotone(seen) && Until(seen, t.now)
    requires PlannedAt(Run(EMPTY, seen), config, t, order, plan)
    ensures OldEnough(seen, plan, t.now, config.minAge)
  {
    forall id, i | id in plan && 0 <= i < |seen| && Touches(seen, i, id)
      ensures t.now - seen[i].now > config.minAge
    {
      PlannedImageIsOld(seen, config, t.used, t.total, t.now, order, plan, id, i);
    }
  }

  lemma {:induction false} RunKeepsKeys(m: Manager, calls: seq<Call>)
    requires WellKeyed(m)
    ensures WellKeyed(Run(m, calls))
    decreases |calls|
  {
    if calls != [] {
      RunKeepsKeys(m, calls[..|calls| - 1]);
    }
  }

  /** No image that the second listing shows and a desired pod references is planned. */
  lemma PlanSparesReferenced(m: Manager, listed: seq<Image>, desired: set<string>, readings: seq<int>, cfg: Config,
                             used: nat, total: nat, now: int, order: seq<string>, plan: seq<string>)
    requires WellKeyed(m) && |readings| == |listed| && UniqueIds(listed)
    requires IsPlan(Run(m, MarkCalls(listed, desired, readings)), cfg, used, total, now, order, plan)
    ensures forall i :: 0 <= i < |listed| && listed[i].id in plan ==> !Referenced(listed[i], desired)
  {
    var marked := Run(m, MarkCalls(listed, desired, readings));
    RunKeepsKeys(m, MarkCalls(listed, desired, readings));
    forall i | 0 <= i < |listed| && listed[i].id in plan
      ensures !Referenced(listed[i], desired)
    {
      MarkAllPins(m, listed, desired, readings, i);
      assert listed[i].id in order;
      assert Eligible(marked, cfg.minAge, now, listed[i].id);
    }
  }

  /** Some image of the listing has this id. */
  predicate Lists(listed: seq<Image>, id: string) {
    exists i :: 0 <= i < |listed| && listed[i].id == id
  }

  /** Marking leaves the record and the pin of an image that the listing omits as they were. */
  lemma {:induction false} OmittedKeepsPin(m: Manager, listed: seq<Image>, desired: set<string>, readings: seq<int>,
                                           id: string)
    requires |readings| == |listed| && !Lists(listed, id)
    ensures var marked := Run(m, MarkCalls(listed, desired, readings));
            && (id in marked.pinned <==> id in m.pinned)
            && (id in marked.images <==> id in m.images)
            && (id in m.images ==> marked.images[id] == m.images[id])
    decreases |listed|
  {
    if listed != [] {
      var n := |listed| - 1;
      var calls := MarkCalls(listed, desired, readings);
      assert calls[..n] == MarkCalls(listed[..n], desired, readings[..n]);
      assert listed[n].id != id;
      OmittedKeepsPin(m, listed[..n], desired, readings[..n], id);
    }
  }

  /** An image whose every listing is referenced ends up pinned. */
  lemma {:induction false} ReferencedIsPinned(m: Manager, listed: seq<Image>, desired: set<string>, readings: seq<int>,
                                              id: string)
    requires |readings| == |listed| && Lists(listed, id)
    requires forall i :: 0 <= i < |listed| && listed[i].id == id ==> Referenced(listed[i], desired)
    ensures id in Run(m, MarkCalls(listed, desired, readings)).pinned
    decreases |listed|
  {
    var n := |listed| - 1;
    var calls := MarkCalls(listed, desired, readings);
    assert calls[..n] == MarkCalls(listed[..n], desired, readings[..n]);
    if listed[n].id != id {
      assert Lists(listed[..n], id);
      ReferencedIsPinned(m, listed[..n], desired, readings[..n], id);
    }
  }

  /**
   A tracked old image that is referenced wherever the second listing shows it is eligible for
   collection if and only if that listing omits it and it was not pinned before.
   */
  lemma ReferencedEligibleIff(m: Manager, listed: seq<Image>, desired: set<string>, readings: seq<int>,
                              minAge: int, now: int, id: string)
    requires WellKeyed(m) && |readings| == |listed|
    requires id in m.images && now - m.images[id].lastUsed > minAge
    requires forall i :: 0 <= i < |listed| && listed[i].id == id ==> Referenced(listed[i], desired)
    ensures Eligible(Run(m, MarkCalls(listed, desired, readings)), minAge, now, id)
            <==> !Lists(listed, id) && id !in m.pinned
  {
    RunKeepsKeys(m, MarkCalls(listed, desired, readings));
    if Lists(listed, id) {
      ReferencedIsPinned(m, listed, desired, readings, id);
    } else {
      OmittedKeepsPin(m, listed, desired, readings, id);
    }
  }

  const WEB := Image("a", ["web"], [], 5)

  /** Two ticks: the image is tracked while no pod names it, then a pod does but the second listing omits it. */
  const OMITTING := [
    Tick(Some([WEB]), [0], {}, Some([WEB]), [0], 0, 10, 0, {}),
    Tick(Some([WEB]), [100], {"web"}, Some([]), [], 10, 10, 100, {})
  ]

  /** The loop on those ticks plans, from its empty start, the image that a desired pod names. */
  lemma OmittedImageIsNotSpared()
    ensures AllValid(OMITTING) && ReadInOrder(OMITTING, 0) && Referenced(WEB, OMITTING[1].desired)
    ensures var cfg, plans := Config(0.5, 0.0, 10), [[], ["a"]];
            SafePlans(cfg, OMITTING, plans, [[], ["a"]])
  {
    var cfg, plans := Config(0.5, 0.0, 10), [[], ["a"]];
    assert WEB.repoTags[0] in {"web"};
    OmittingSeen(plans);
    OmittingRun();
    var m := Run(EMPTY, Seen(OMITTING, plans, 1));
    assert BytesToFree(cfg, 10, 10) == 10;
    assert ["a"][..1] == ["a"] && ["a"][..0] == [];
    assert Eligible(m, 10, 100, "a");
    assert IsPlan(m, cfg, 10, 10, 100, ["a"], ["a"]);
    HistoryMonotone(OMITTING, plans, 1, 0);
    PlanIsOld(Seen(OMITTING, plans, 1), cfg, OMITTING[1], ["a"], ["a"]);
  }

  function OmittingCalls(): seq<Call> {
    [Retain({"a"}), Track(WEB, 0), Call.MarkNotInUse("a"), Retain({"a"}), Track(WEB, 100)]
  }

  lemma OmittingSeen(plans: seq<seq<string>>)
    requires |plans| == 2 && plans[0] == []
    ensures AllValid(OMITTING) && ReadInOrder(OMITTING, 0)
    ensures Seen(OMITTING, plans, 1) == OmittingCalls()
  {
    assert (set i | 0 <= i < |[WEB]| :: [WEB][i].id) == {"a"} by {
      assert [WEB][0].id == "a";
    }
    assert SyncCalls([WEB], [0]) == [Retain({"a"}), Track(WEB, 0)];
    assert SyncCalls([WEB], [100]) == [Retain({"a"}), Track(WEB, 100)];
    assert MarkCalls([WEB], {}, [0]) == [Call.MarkNotInUse("a")];
  }

  lemma OmittingRun()
    ensures Run(EMPTY, OmittingCalls()) == Manager(map["a" := Tracked(WEB, 0, false)], {})
  {
    var calls := OmittingCalls();
    var tracked := Manager(map["a" := Tracked(WEB, 0, false)], {});
    assert calls[..4][..3] == calls[..3] && calls[..3][..2] == calls[..2] && calls[..2][..1] == calls[..1];
    assert Run(EMPTY, calls[..1]) == EMPTY;
    assert Run(EMPTY, calls[..2]) == tracked;
    assert Run(EMPTY, calls[..3]) == tracked;
    assert Run(EMPTY, calls[..4]) == tracked;
  }

  lemma {:induction false} PinnedIfReferenced(m: Manager, listed: seq<Image>, desired: set<string>,
                                              readings: seq<int>, i: nat)
    requires |readings| == |listed| && UniqueIds(listed) && i < |listed|
    ensures listed[i].id in Run(m, MarkCalls(listed, desired, readings)).pinned <==> Referenced(listed[i], desired)
    decreases |listed|
  {
    var n := |listed| - 1;
    var calls := MarkCalls(listed, desired, readings);
    assert calls[..n] == MarkCalls(listed[..n], desired, readings[..n]);
    if i < n {
      PinnedIfReferenced(m, listed[..n], desired, readings[..n], i);
    }
  }

  /** After the marking loop a listed image is pinned exactly when a desired pod names one of its tags or digests. */
  lemma MarkAllPins(m: Manager, listed: seq<Image>, desired: set<string>, readings: seq<int>, i: nat)
    requires |readings| == |listed| && UniqueIds(listed) && i < |listed|
    ensures listed[i].id in Run(m, MarkCalls(listed, desired, readings)).pinned <==>
              exists name :: name in desired && (name in listed[i].repoTags || name in listed[i].repoDigests)
    ensures Referenced(listed[i], desired) <==>
              exists name :: name in desired && (name in listed[i].repoTags || name in listed[i].repoDigests)
  {
    PinnedIfReferenced(m, listed, desired, readings, i);
    if name :| name in desired && (name in listed[i].repoTags || name in listed[i].repoDigests) {
      if name in listed[i].repoTags {
        var k :| 0 <= k < |listed[i].repoTags| && listed[i].repoTags[k] == name;
      } else {
        var k :| 0 <= k < |listed[i].repoDigests| && listed[i].repoDigests[k] == name;
      }
    }
  }
}
