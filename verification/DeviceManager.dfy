/**
 The device plugin manager: `allocate` reserves device ids in the endpoint's table under
 one lock, calls the plugin with no lock held, and then either records the ids in the pod
 table (commit) or removes the reservation (rollback).  `deallocate_pod` takes the pod's
 record out of the pod table and then, under a second lock, releases its ids.

 This file models the tables, with one function per locked section, and a class whose methods
 are those sections; the protocol, every interleaving of the sections, is in DeviceProtocol.dfy.
 */
module DeviceManager {
  import opened Wrappers

  datatype Health = Healthy | Unhealthy

  datatype Device = Device(id: string, health: Health)

  /** Allocation key -> reserved device ids. */
  type Table = map<string, seq<string>>

  /** Container -> resource -> device ids. */
  type Containers = map<string, map<string, seq<string>>>

  /** Pod -> container -> resource -> device ids. */
  type PodTable = map<string, Containers>

  datatype Endpoint = Endpoint(socketPath: string, devices: seq<Device>, allocations: Table)

  type Plugins = map<string, Endpoint>

  // -- Allocation keys ---------------------------------------------------------

  function AllocationKey(pod: string, container: string): string {
    pod + ":" + container
  }

  predicate ColonFree(s: string) {
    ':' !in s
  }

  /** Two different owners share a key exactly when a colon moves from one name to the other. */
  lemma AllocationKeyCollision(p1: string, c1: string, p2: string, c2: string)
    requires |c1| <= |c2|
    ensures AllocationKey(p1, c1) == AllocationKey(p2, c2) && (p1, c1) != (p2, c2)
       <==> exists x :: c2 == x + ":" + c1 && p1 == p2 + ":" + x
  {
    var k1, k2 := AllocationKey(p1, c1), AllocationKey(p2, c2);
    if k1 == k2 && (p1, c1) != (p2, c2) {
      assert c1 == k1[|k1| - |c1|..] && c2 == k2[|k2| - |c2|..];
      assert p1 == k1[..|p1|] && p2 == k2[..|p2|];
      var n := |c2| - |c1|;
      assert n > 0 by {
        assert n == 0 ==> c1 == c2 && p1 == p2;
      }
      var x := c2[..n - 1];
      assert p1 == p2 + ":" + x by {
        assert |p1| == |p2| + 1 + |x|;
        assert p1 == k2[..|p1|];
      }
      assert c2[n - 1] == k2[|p2| + n] == k1[|p1|] == ':';
      assert c2[n..] == k2[|p2| + 1 + n..] == c1;
      assert c2 == x + ":" + c1;
    }
    forall x | c2 == x + ":" + c1 && p1 == p2 + ":" + x
      ensures k1 == k2 && (p1, c1) != (p2, c2)
    {
      assert |c2| == |x| + 1 + |c1|;
      assert k1 == p2 + ":" + x + ":" + c1 == k2;
    }
  }

  /** Colon-free container names make the key injective. */
  lemma AllocationKeyInjective(p1: string, c1: string, p2: string, c2: string)
    requires ColonFree(c1) && ColonFree(c2)
    requires AllocationKey(p1, c1) == AllocationKey(p2, c2)
    ensures p1 == p2 && c1 == c2
  {
    var (p, c, q, d) := if |c1| <= |c2| then (p1, c1, p2, c2) else (p2, c2, p1, c1);
    AllocationKeyCollision(p, c, q, d);
    forall x
      ensures d != x + ":" + c
    {
      assert (x + ":" + c)[|x|] == ':';
    }
  }

  // -- Plugin endpoint ---------------------------------------------------------

  function Allocated(al: Table): set<string> {
    set k, d | k in al && d in al[k] :: d
  }

  /** Ids of the healthy devices nobody has reserved, in list order. */
  function FreeIds(devices: seq<Device>, taken: set<string>): (ids: seq<string>)
    ensures |ids| <= |devices|
    ensures forall d :: d in ids <==> Device(d, Healthy) in devices && d !in taken
  {
    if devices == [] then []
    else
      var rest := FreeIds(devices[1..], taken);
      if devices[0].health == Healthy && devices[0].id !in taken then [devices[0].id] + rest else rest
  }

  function AvailableCount(ep: Endpoint): nat {
    |FreeIds(ep.devices, Allocated(ep.allocations))|
  }

  function AllocateDevices(ep: Endpoint, count: nat): Option<seq<string>> {
    var free := FreeIds(ep.devices, Allocated(ep.allocations));
    if |free| < count then None else Some(free[..count])
  }

  predicate DistinctIds(devices: seq<Device>) {
    forall i, j :: 0 <= i < j < |devices| ==> devices[i].id != devices[j].id
  }

  lemma {:induction false} FreeIdsDistinct(devices: seq<Device>, taken: set<string>)
    requires DistinctIds(devices)
    ensures Distinct(FreeIds(devices, taken))
  {
    if devices != [] {
      var rest := devices[1..];
      FreeIdsDistinct(rest, taken);
      assert forall d :: Device(d, Healthy) in rest ==> d != devices[0].id;
      assert devices[0].id !in FreeIds(rest, taken);
    }
  }

  // -- The locked sections -----------------------------------------------------

  function Registered(plugins: Plugins, resource: string, socketPath: string): Plugins {
    plugins[resource := Endpoint(socketPath, [], map[])]
  }

  function Updated(plugins: Plugins, resource: string, devices: seq<Device>): Plugins {
    if resource in plugins then plugins[resource := plugins[resource].(devices := devices)] else plugins
  }

  /** The ids `allocate` would reserve now: None for an unknown resource or too few free devices. */
  function Reservable(plugins: Plugins, resource: string, count: nat): Option<seq<string>> {
    if resource in plugins then AllocateDevices(plugins[resource], count) else None
  }

  function WithEntry(plugins: Plugins, resource: string, key: string, ids: seq<string>): Plugins
    requires resource in plugins
  {
    var ep := plugins[resource];
    plugins[resource := ep.(allocations := ep.allocations[key := ids])]
  }

  function WithoutEntry(plugins: Plugins, resource: string, key: string): Plugins {
    if resource in plugins then
      var ep := plugins[resource];
      plugins[resource := ep.(allocations := ep.allocations - {key})]
    else plugins
  }

  /** The ids are appended to what the pod's container has of the resource; missing levels are created empty. */
  function Recorded(pods: PodTable, pod: string, container: string, resource: string, ids: seq<string>): PodTable {
    var containers := if pod in pods then pods[pod] else map[];
    pods[pod := ExtendContainers(containers, container, resource, ids)]
  }

  function ExtendContainers(containers: Containers, container: string, resource: string, ids: seq<string>): Containers {
    var resources := if container in containers then containers[container] else map[];
    var before := if resource in resources then resources[resource] else [];
    containers[container := resources[resource := before + ids]]
  }

  /** The ids that are not released, in their order. */
  function Retain(ids: seq<string>, released: seq<string>): (kept: seq<string>)
    ensures forall d :: d in kept <==> d in ids && d !in released
  {
    if ids == [] then []
    else if ids[0] in released then Retain(ids[1..], released)
    else [ids[0]] + Retain(ids[1..], released)
  }

  /** Reserving ids only takes them off the free list. */
  lemma {:induction false} FreeIdsRetain(devices: seq<Device>, taken: set<string>, ids: seq<string>)
    ensures FreeIds(devices, taken + set d | d in ids) == Retain(FreeIds(devices, taken), ids)
  {
    if devices != [] {
      FreeIdsRetain(devices[1..], taken, ids);
      var rest := FreeIds(devices[1..], taken);
      assert ([devices[0].id] + rest)[1..] == rest;
    }
  }

  lemma {:induction false} RetainDisjoint(ids: seq<string>, released: seq<string>)
    requires forall d :: d in ids ==> d !in released
    ensures Retain(ids, released) == ids
  {
    if ids != [] {
      RetainDisjoint(ids[1..], released);
    }
  }

  lemma {:induction false} RetainPrefix(ids: seq<string>, n: nat, released: seq<string>)
    requires n <= |ids|
    requires forall i :: 0 <= i < n ==> ids[i] in released
    requires forall i :: n <= i < |ids| ==> ids[i] !in released
    ensures Retain(ids, released) == ids[n..]
  {
    if n == 0 {
      RetainDisjoint(ids, released);
    } else {
      RetainPrefix(ids[1..], n - 1, released);
    }
  }

  /** One iteration of the release loop: retain, and drop the entry once it is empty. */
  function ReleaseEntry(al: Table, key: string, released: seq<string>): Table {
    if key !in al then al
    else if Retain(al[key], released) == [] then al - {key}
    else al[key := Retain(al[key], released)]
  }

  function ReleaseStep(plugins: Plugins, resource: string, key: string, released: seq<string>): Plugins {
    if resource in plugins then
      var ep := plugins[resource];
      plugins[resource := ep.(allocations := ReleaseEntry(ep.allocations, key, released))]
    else plugins
  }

  /** What the pod's record releases under `key`, read off without any iteration order. */
  function ReleasedUnder(pod: string, containers: Containers, resource: string, key: string): Option<seq<string>> {
    if |pod| < |key| && key[..|pod| + 1] == pod + ":" then
      var container := key[|pod| + 1..];
      if container in containers && resource in containers[container]
      then Some(containers[container][resource])
      else None
    else None
  }

  function AfterRelease(ids: seq<string>, released: Option<seq<string>>): Option<seq<string>> {
    if released.None? then Some(ids)
    else if Retain(ids, released.value) == [] then None
    else Some(Retain(ids, released.value))
  }

  function ReleasedTable(al: Table, pod: string, containers: Containers, resource: string): Table {
    map key | key in al && AfterRelease(al[key], ReleasedUnder(pod, containers, resource, key)).Some? ::
      AfterRelease(al[key], ReleasedUnder(pod, containers, resource, key)).value
  }

  function Released(plugins: Plugins, pod: string, containers: Containers): Plugins {
    map r | r in plugins ::
      plugins[r].(allocations := ReleasedTable(plugins[r].allocations, pod, containers, r))
  }

  lemma ReleasedUnderOwnKey(pod: string, containers: Containers, container: string, resource: string)
    ensures ReleasedUnder(pod, containers, resource, AllocationKey(pod, container))
         == if container in containers && resource in containers[container]
            then Some(containers[container][resource]) else None
  {
  }

  lemma ReleasedUnderInverse(pod: string, containers: Containers, resource: string, key: string)
    requires ReleasedUnder(pod, containers, resource, key).Some?
    ensures var container := key[|pod| + 1..];
            key == AllocationKey(pod, container) && container in containers && resource in containers[container]
  {
  }

  lemma ReleasedUnderExtended(pod: string, done: Containers, container: string, resource: string, ids: seq<string>,
                              r: string, key: string)
    requires !(container in done && resource in done[container])
    ensures ReleasedUnder(pod, ExtendContainers(done, container, resource, ids), r, key)
         == if r == resource && key == AllocationKey(pod, container)
            then Some(ids) else ReleasedUnder(pod, done, r, key)
  {
    assert [] + ids == ids;
    if |pod| < |key| && key[..|pod| + 1] == pod + ":" {
      assert key == AllocationKey(pod, key[|pod| + 1..]);
    }
    var own := AllocationKey(pod, container);
    assert own[..|pod| + 1] == pod + ":" && own[|pod| + 1..] == container;
  }

  /** A table whose released ids differ only at `key` differs only there. */
  lemma ReleasedTableAt(al: Table, pod: string, done: Containers, more: Containers,
                        r: string, key: string, ids: seq<string>)
    requires forall k :: k in al && k != key ==> ReleasedUnder(pod, more, r, k) == ReleasedUnder(pod, done, r, k)
    requires ReleasedUnder(pod, done, r, key) == None && ReleasedUnder(pod, more, r, key) == Some(ids)
    ensures ReleasedTable(al, pod, more, r) == ReleaseEntry(ReleasedTable(al, pod, done, r), key, ids)
  {
  }

  lemma ReleasedTableExtended(al: Table, pod: string, done: Containers, container: string, resource: string,
                              ids: seq<string>, r: string)
    requires !(container in done && resource in done[container])
    ensures ReleasedTable(al, pod, ExtendContainers(done, container, resource, ids), r)
         == if r == resource then ReleaseEntry(ReleasedTable(al, pod, done, r), AllocationKey(pod, container), ids)
            else ReleasedTable(al, pod, done, r)
  {
    var more, own := ExtendContainers(done, container, resource, ids), AllocationKey(pod, container);
    forall key
      ensures ReleasedUnder(pod, more, r, key)
           == if r == resource && key == own then Some(ids) else ReleasedUnder(pod, done, r, key)
    {
      ReleasedUnderExtended(pod, done, container, resource, ids, r, key);
    }
    if r == resource {
      ReleasedUnderOwnKey(pod, done, container, resource);
      ReleasedTableAt(al, pod, done, more, r, own, ids);
    }
  }

  /** One loop iteration of `deallocate_pod` extends the order-free result by one record. */
  lemma ReleaseOne(plugins: Plugins, pod: string, done: Containers, container: string,
                   resource: string, ids: seq<string>,
                   now: Plugins)
    requires !(container in done && resource in done[container])
    requires now == Released(plugins, pod, done)
    ensures Released(plugins, pod, ExtendContainers(done, container, resource, ids))
         == ReleaseStep(now, resource, AllocationKey(pod, container), ids)
  {
    forall r | r in plugins {
      ReleasedTableExtended(plugins[r].allocations, pod, done, container, resource, ids, r);
    }
  }

  lemma ReleasedNothing(plugins: Plugins, pod: string, containers: Containers)
    requires forall c :: c in containers ==> containers[c] == map[]
    ensures Released(plugins, pod, containers) == plugins
  {
    forall r | r in plugins
      ensures ReleasedTable(plugins[r].allocations, pod, containers, r) == plugins[r].allocations
    {
    }
  }

  /** The manager's two locked maps.  Each method is one locked section. */
  class Manager {
    var plugins: Plugins
    var podAllocations: PodTable

    constructor ()
      ensures plugins == map[] && podAllocations == map[]
    {
      plugins, podAllocations := map[], map[];
    }

    method RegisterPlugin(resource: string, socketPath: string)
      modifies this`plugins
      ensures plugins == Registered(old(plugins), resource, socketPath)
    {
      plugins := plugins[resource := Endpoint(socketPath, [], map[])];
    }

    method UpdateDevices(resource: string, devices: seq<Device>)
      modifies this`plugins
      ensures plugins == Updated(old(plugins), resource, devices)
      ensures plugins.Keys == old(plugins).Keys
      ensures resource in plugins ==>
                && plugins[resource].devices == devices
                && plugins[resource].allocations == old(plugins)[resource].allocations
    {
      if resource in plugins {
        plugins := plugins[resource := plugins[resource].(devices := devices)];
      }
    }

    /** The reserving section of `allocate`. */
    method AllocateBegin(pod: string, container: string, resource: string, count: nat) returns (r: Result<seq<string>>)
      modifies this`plugins
      ensures r.Ok? <==> Reservable(old(plugins), resource, count).Some?
      ensures r.Ok? ==> r.value == Reservable(old(plugins), resource, count).value
      ensures r.Ok? ==> resource in old(plugins) &&
                        plugins == WithEntry(old(plugins), resource, AllocationKey(pod, container), r.value)
      ensures r.Err? ==> plugins == old(plugins)
    {
      if resource !in plugins {
        return Err("no device plugin for resource");
      }
      var ids := AllocateDevices(plugins[resource], count);
      if ids.None? {
        return Err("not enough devices");
      }
      plugins := WithEntry(plugins, resource, AllocationKey(pod, container), ids.value);
      return Ok(ids.value);
    }

    /** The section of `allocate` that runs when the RPC failed. */
    method AllocateFail(pod: string, container: string, resource: string)
      modifies this`plugins
      ensures plugins == WithoutEntry(old(plugins), resource, AllocationKey(pod, container))
    {
      if resource in plugins {
        var ep := plugins[resource];
        plugins := plugins[resource := ep.(allocations := ep.allocations - {AllocationKey(pod, container)})];
      }
    }

    /** The section of `allocate` that runs when the RPC succeeded. */
    method AllocateCommit(pod: string, container: string, resource: string, ids: seq<string>)
      modifies this`podAllocations
      ensures podAllocations == Recorded(old(podAllocations), pod, container, resource, ids)
    {
      var containers := if pod in podAllocations then podAllocations[pod] else map[];
      var resources := if container in containers then containers[container] else map[];
      var before := if resource in resources then resources[resource] else [];
      podAllocations := podAllocations[pod := containers[container := resources[resource := before + ids]]];
    }

    /** First half of `deallocate_pod`: take the record out of the pod table. */
    method TakePodRecord(pod: string) returns (containers: Option<Containers>)
      modifies this`podAllocations
      ensures containers.Some? <==> pod in old(podAllocations)
      ensures containers.Some? ==> containers.value == old(podAllocations)[pod]
      ensures podAllocations == old(podAllocations) - {pod}
    {
      if pod in podAllocations {
        containers := Some(podAllocations[pod]);
        podAllocations := podAllocations - {pod};
      } else {
        containers := None;
      }
    }

    /** Second half of `deallocate_pod`: both hash maps are walked in an arbitrary order. */
    method ReleaseRecord(pod: string, containers: Containers)
      modifies this`plugins
      ensures plugins == Released(old(plugins), pod, containers)
    {
      var todo := containers.Keys;
      ghost var done: Containers := map[];
      ReleasedNothing(plugins, pod, done);
      while todo != {}
        invariant todo <= containers.Keys
        invariant done == map c | c in containers && c !in todo :: containers[c]
        invariant plugins == Released(old(plugins), pod, done)
      {
        var container :| container in todo;
        ReleaseContainer(pod, container, containers[container], old(plugins), done);
        done := done[container := containers[container]];
        todo := todo - {container};
      }
      assert done == containers;
    }

    /** The inner loop of `deallocate_pod`; `before` and `done` say what ran so far. */
    method ReleaseContainer(pod: string, container: string, resources: map<string, seq<string>>,
                            ghost before: Plugins, ghost done: Containers)
      requires container !in done
      requires plugins == Released(before, pod, done)
      modifies this`plugins
      ensures plugins == Released(before, pod, done[container := resources])
    {
      var key := AllocationKey(pod, container);
      var pending := resources.Keys;
      ghost var part: map<string, seq<string>> := map[];
      SameRelease(before, pod, done, done[container := part]);
      while pending != {}
        invariant pending <= resources.Keys
        invariant part == map r | r in resources && r !in pending :: resources[r]
        invariant plugins == Released(before, pod, done[container := part])
      {
        var resource :| resource in pending;
        var releasedIds := resources[resource];
        ReleaseNext(before, pod, done, container, part, resource, releasedIds, plugins);
        plugins := ReleaseStep(plugins, resource, key, releasedIds);
        part := part[resource := releasedIds];
        pending := pending - {resource};
      }
      assert part == resources;
    }
  }

  lemma ReleaseNext(before: Plugins, pod: string, done: Containers, container: string, part: map<string, seq<string>>,
                    resource: string, ids: seq<string>, now: Plugins)
    requires resource !in part
    requires now == Released(before, pod, done[container := part])
    ensures Released(before, pod, done[container := part[resource := ids]])
         == ReleaseStep(now, resource, AllocationKey(pod, container), ids)
  {
    ReleaseOne(before, pod, done[container := part], container, resource, ids, now);
    assert [] + ids == ids;
    assert ExtendContainers(done[container := part], container, resource, ids)
        == done[container := part[resource := ids]];
  }

  /** Containers recorded with no resource at all release nothing. */
  lemma SameRelease(plugins: Plugins, pod: string, done: Containers, containers: Containers)
    requires done.Keys <= containers.Keys
    requires forall c :: c in containers ==>
               if c in done then done[c] == containers[c] else containers[c] == map[]
    ensures Released(plugins, pod, done) == Released(plugins, pod, containers)
  {
    forall r, key
      ensures ReleasedUnder(pod, done, r, key) == ReleasedUnder(pod, containers, r, key)
    {
    }
    forall r | r in plugins
      ensures ReleasedTable(plugins[r].allocations, pod, done, r)
           == ReleasedTable(plugins[r].allocations, pod, containers, r)
    {
    }
  }
}
