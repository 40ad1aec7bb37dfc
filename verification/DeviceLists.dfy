/**
 What the device lists, the tables and the pod records hold, said of the events of a run: the list
 of a resource is the one its plugin announced last, and only healthy devices of it are handed out.
 */
module DeviceLists {
  import opened Wrappers
  import opened DeviceManager
  import opened DeviceProtocol

  /** The event registers the resource or announces its devices. */
  predicate Concerns(e: Event, resource: string) {
    (e.Register? || e.Update?) && e.resource == resource
  }

  /** Event `i` is the last one of the run that concerns the resource. */
  predicate IsLast(run: seq<Event>, i: int, resource: string) {
    && 0 <= i < |run|
    && Concerns(run[i], resource)
    && forall j :: i < j < |run| ==> !Concerns(run[j], resource)
  }

  predicate EverRegistered(run: seq<Event>, resource: string) {
    exists i :: 0 <= i < |run| && run[i].Register? && run[i].resource == resource
  }

  /** One step changes the list of a resource only if it concerns the resource. */
  lemma StepDevices(s: State, e: Event, resource: string)
    requires Enabled(s, e)
    ensures var t := Next(s, e);
            && (resource in t.plugins <==> resource in s.plugins || (e.Register? && e.resource == resource))
            && (resource in t.plugins && !Concerns(e, resource) ==>
                  t.plugins[resource].devices == s.plugins[resource].devices)
            && (resource in t.plugins && Concerns(e, resource) ==>
                  t.plugins[resource].devices == if e.Update? then e.devices else [])
  {
  }

  lemma {:induction false} RunDevices(s: State, run: seq<Event>, resource: string)
    requires Guarded(s, run)
    ensures resource in Run(s, run).plugins <==> resource in s.plugins || EverRegistered(run, resource)
    ensures forall i :: IsLast(run, i, resource) && resource in Run(s, run).plugins ==>
              Run(s, run).plugins[resource].devices == if run[i].Update? then run[i].devices else []
    ensures (forall i :: 0 <= i < |run| ==> !Concerns(run[i], resource)) && resource in Run(s, run).plugins ==>
              resource in s.plugins && Run(s, run).plugins[resource].devices == s.plugins[resource].devices
    decreases |run|
  {
    if run != [] {
      var e, rest := run[0], run[1..];
      var t := Next(s, e);
      StepDevices(s, e, resource);
      RunDevices(t, rest, resource);
      RegisteredCons(run, resource);
      forall i | IsLast(run, i, resource) && resource in Run(s, run).plugins
        ensures Run(s, run).plugins[resource].devices == if run[i].Update? then run[i].devices else []
      {
        LastCons(run, i, resource);
      }
    }
  }

  lemma RegisteredCons(run: seq<Event>, resource: string)
    requires run != []
    ensures EverRegistered(run, resource) <==>
              (run[0].Register? && run[0].resource == resource) || EverRegistered(run[1..], resource)
  {
    if i :| 0 <= i < |run[1..]| && run[1..][i].Register? && run[1..][i].resource == resource {
      assert run[i + 1] == run[1..][i];
    }
    if i :| 0 < i < |run| && run[i].Register? && run[i].resource == resource {
      assert run[1..][i - 1] == run[i];
    }
  }

  lemma LastCons(run: seq<Event>, i: int, resource: string)
    requires IsLast(run, i, resource)
    ensures i > 0 ==> IsLast(run[1..], i - 1, resource)
    ensures i == 0 ==> forall j :: 0 <= j < |run[1..]| ==> !Concerns(run[1..][j], resource)
  {
    assert forall j :: 0 <= j < |run| - 1 ==> run[1..][j] == run[j + 1];
  }

  lemma {:induction false} LastExists(run: seq<Event>, resource: string) returns (i: nat)
    requires EverRegistered(run, resource)
    ensures IsLast(run, i, resource)
    decreases |run|
  {
    var n := |run| - 1;
    if Concerns(run[n], resource) {
      i := n;
    } else {
      var k :| 0 <= k < |run| && run[k].Register? && run[k].resource == resource;
      assert run[..n][k] == run[k];
      i := LastExists(run[..n], resource);
    }
  }

  /** In every run the list of a registered resource is the one announced last, empty after a registration. */
  lemma DeviceListIsLatest(run: seq<Event>, resource: string)
    requires Guarded(INIT, run)
    ensures var s := Run(INIT, run);
            && (resource in s.plugins <==> EverRegistered(run, resource))
            && (resource in s.plugins ==>
                  exists i :: IsLast(run, i, resource) &&
                    s.plugins[resource].devices == if run[i].Update? then run[i].devices else [])
  {
    RunDevices(INIT, run, resource);
    if EverRegistered(run, resource) {
      var i := LastExists(run, resource);
    }
  }

  /** Whatever is reserved is a healthy device of the last announcement, and none before the first one. */
  lemma ReservedIsAnnounced(run: seq<Event>, resource: string, count: nat, i: int)
    requires Guarded(INIT, run) && IsLast(run, i, resource)
    ensures match Reservable(Run(INIT, run).plugins, resource, count)
            case None => true
            case Some(ids) =>
              && |ids| == count
              && (run[i].Register? ==> ids == [])
              && (run[i].Update? ==> forall d :: d in ids ==> Device(d, Healthy) in run[i].devices)
  {
    RunDevices(INIT, run, resource);
  }

  // -- How many can be reserved --------------------------------------------------

  /** A live claim on the resource holds the device. */
  ghost predicate HeldUnder(s: State, resource: string, d: string) {
    exists c :: Live(s, c) && c.resource == resource && d in c.ids
  }

  lemma AllocatedIsHeld(s: State, resource: string, d: string)
    requires Inv(s) && resource in s.plugins
    ensures d in Allocated(s.plugins[resource].allocations) <==> HeldUnder(s, resource, d)
  {
    var al := s.plugins[resource].allocations;
    if d in Allocated(al) {
      var k :| k in al && d in al[k];
      assert Owned(s, resource, k);
      var c :| Live(s, c) && c.resource == resource && c.Key() == k;
      assert Backed(s.plugins, c);
    }
    if HeldUnder(s, resource, d) {
      var c :| Live(s, c) && c.resource == resource && d in c.ids;
      assert Backed(s.plugins, c);
    }
  }

  /** The free ids are as many as the positions of healthy devices that are not taken. */
  lemma {:induction false} FreeIdsCount(devices: seq<Device>, taken: set<string>, m: nat)
    requires m <= |devices|
    ensures |FreeIds(devices[m..], taken)|
         == |set k: int | m <= k < |devices| && devices[k].health == Healthy && devices[k].id !in taken|
    decreases |devices| - m
  {
    var here := set k: int | m <= k < |devices| && devices[k].health == Healthy && devices[k].id !in taken;
    if m == |devices| {
      assert here == {};
    } else {
      FreeIdsCount(devices, taken, m + 1);
      var there := set k: int | m + 1 <= k < |devices| && devices[k].health == Healthy && devices[k].id !in taken;
      assert devices[m..][1..] == devices[m + 1..];
      if devices[m].health == Healthy && devices[m].id !in taken {
        assert here == there + {m};
      } else {
        assert here == there;
      }
    }
  }

  /** Positions in the list of the healthy devices that no live claim holds. */
  ghost function Unheld(s: State, resource: string, devices: seq<Device>): set<int> {
    set k: int | 0 <= k < |devices| && devices[k].health == Healthy && !HeldUnder(s, resource, devices[k].id)
  }

  /**
   A reservation succeeds if and only if the resource is registered and the last announcement lists
   at least as many healthy devices that no live claim holds; right after a registration it lists none.
   */
  lemma ReservableIff(run: seq<Event>, resource: string, count: nat, i: int)
    requires Guarded(INIT, run) && IsLast(run, i, resource)
    ensures var s := Run(INIT, run);
            var announced := if run[i].Update? then run[i].devices else [];
            Reservable(s.plugins, resource, count).Some? <==>
              EverRegistered(run, resource) && count <= |Unheld(s, resource, announced)|
  {
    var s := Run(INIT, run);
    RunDevices(INIT, run, resource);
    InvInit();
    RunKeepsInv(INIT, run);
    if resource in s.plugins {
      CountIsUnheld(s, resource);
    }
  }

  lemma CountIsUnheld(s: State, resource: string)
    requires Inv(s) && resource in s.plugins
    ensures AvailableCount(s.plugins[resource]) == |Unheld(s, resource, s.plugins[resource].devices)|
  {
    var devices, taken := s.plugins[resource].devices, Allocated(s.plugins[resource].allocations);
    assert devices[0..] == devices;
    FreeIdsCount(devices, taken, 0);
    forall d
      ensures d in taken <==> HeldUnder(s, resource, d)
    {
      AllocatedIsHeld(s, resource, d);
    }
    assert Unheld(s, resource, devices)
        == set k: int | 0 <= k < |devices| && devices[k].health == Healthy && devices[k].id !in taken;
  }

  /** The free ids keep the order of the list: those of a first part come before those of the rest. */
  lemma {:induction false} FreeIdsConcat(first: seq<Device>, rest: seq<Device>, taken: set<string>)
    ensures FreeIds(first + rest, taken) == FreeIds(first, taken) + FreeIds(rest, taken)
  {
    if first == [] {
      assert first + rest == rest;
    } else {
      assert (first + rest)[1..] == first[1..] + rest;
      FreeIdsConcat(first[1..], rest, taken);
    }
  }

  // -- What the record and the tables hold ----------------------------------------

  /** The pod's record holds the device for the container under the resource. */
  predicate RecordHas(pods: PodTable, pod: string, container: string, resource: string, d: string) {
    && pod in pods
    && container in pods[pod]
    && resource in pods[pod][container]
    && d in pods[pod][container][resource]
  }

  /** A commit adds its devices to the record of its slot and takes nothing away, whatever was recorded before. */
  lemma CommitAddsToRecord(pods: PodTable, pod: string, container: string, resource: string, ids: seq<string>)
    ensures forall p, c, r, d :: RecordHas(Recorded(pods, pod, container, resource, ids), p, c, r, d) <==>
              RecordHas(pods, p, c, r, d) || (p == pod && c == container && r == resource && d in ids)
  {
  }

  /** The record being released holds the device for the container with this key. */
  predicate ReleasesUnder(pod: string, containers: Containers, resource: string, key: string, d: string) {
    exists c :: c in containers && key == pod + ":" + c && resource in containers[c] && d in containers[c][resource]
  }

  predicate Holds(plugins: Plugins, resource: string, key: string, d: string) {
    resource in plugins && key in plugins[resource].allocations && d in plugins[resource].allocations[key]
  }

  /** For any tables and any record: releasing takes exactly the recorded devices out of the entries of their keys. */
  lemma ReleaseTakesRecorded(plugins: Plugins, pod: string, containers: Containers, resource: string, key: string,
                             d: string)
    ensures Holds(Released(plugins, pod, containers), resource, key, d) <==>
              Holds(plugins, resource, key, d) && !ReleasesUnder(pod, containers, resource, key, d)
  {
    var released := ReleasedUnder(pod, containers, resource, key);
    if ReleasesUnder(pod, containers, resource, key, d) {
      var c :| c in containers && key == pod + ":" + c && resource in containers[c] && d in containers[c][resource];
      ReleasedUnderOwnKey(pod, containers, c, resource);
    }
    if released.Some? {
      ReleasedUnderInverse(pod, containers, resource, key);
      assert key == pod + ":" + key[|pod| + 1..];
    }
  }

  /** Releasing keeps the endpoints, their sockets and their device lists. */
  lemma ReleaseKeepsLists(plugins: Plugins, pod: string, containers: Containers, resource: string)
    ensures resource in Released(plugins, pod, containers) <==> resource in plugins
    ensures resource in plugins ==>
              && Released(plugins, pod, containers)[resource].devices == plugins[resource].devices
              && Released(plugins, pod, containers)[resource].socketPath == plugins[resource].socketPath
  {
  }
}
