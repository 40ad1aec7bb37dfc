/** The CPU manager: exclusive CPUs for Guaranteed containers with whole-CPU requests. */
module CpuManager {
  import opened Wrappers
  import opened CpuSet
  import opened PodTypes

  datatype Policy = NonePolicy | Static

  type Key = (string, string)

  /** `exclusive` is true for every recorded assignment, so an assignment is its CPU set. */
  datatype State = State(policy: Policy, total: CpuSet, reserved: CpuSet, available: CpuSet,
                         assignments: map<Key, CpuSet>)

  function Initial(policy: Policy, total: CpuSet, reserved: CpuSet): State {
    State(policy, total, reserved, total - reserved, map[])
  }

  function Assigned(assignments: map<Key, CpuSet>): CpuSet {
    set k, c | k in assignments && c in assignments[k] :: c
  }

  function SharedPool(s: State): CpuSet {
    s.total - Assigned(s.assignments)
  }

  /** The `count` lowest CPUs. */
  function Lowest(s: CpuSet, count: nat): CpuSet
    requires count <= |s|
  {
    Elements(Ascending(s)[..count])
  }

  function Grant(s: State, key: Key, cpus: CpuSet): State {
    s.(available := s.available - cpus, assignments := s.assignments[key := cpus])
  }

  predicate WantsExclusive(qos: Qos, millis: nat) {
    qos == Guaranteed && millis % 1000 == 0
  }

  /** The state after `assign` and what it returns. */
  function Assign(s: State, key: Key, qos: Qos, millis: nat): (State, Result<CpuSet>) {
    if s.policy == NonePolicy then (s, Ok(s.total))
    else if key in s.assignments then (s, Ok(s.assignments[key]))
    else if WantsExclusive(qos, millis) then
      var count := millis / 1000;
      if |s.available| < count then (s, Err("not enough CPUs"))
      else
        var cpus := Lowest(s.available, count);
        (Grant(s, key, cpus), Ok(cpus))
    else (s, Ok(SharedPool(s)))
  }

  function Release(s: State, key: Key): State {
    if key in s.assignments
    then s.(available := s.available + s.assignments[key], assignments := s.assignments - {key})
    else s
  }

  class Manager {
    const policy: Policy
    const total: CpuSet
    const reserved: CpuSet
    var available: CpuSet
    var assignments: map<Key, CpuSet>

    function Value(): State
      reads this
    {
      State(policy, total, reserved, available, assignments)
    }

    constructor (policy: Policy, total: CpuSet, reserved: CpuSet)
      ensures Value() == Initial(policy, total, reserved)
    {
      this.policy, this.total, this.reserved := policy, total, reserved;
      available, assignments := total - reserved, map[];
    }

    /** `CpuSet::take`: remove the `count` lowest CPUs one by one. */
    method Take(count: nat) returns (taken: Option<CpuSet>)
      modifies this`available
      ensures taken.Some? <==> count <= |old(available)|
      ensures taken.Some? ==> taken.value == Lowest(old(available), count) && available == old(available) - taken.value
      ensures taken.None? ==> available == old(available)
    {
      if |available| < count {
        return None;
      }
      var order := Ascending(available);
      for i := 0 to count
        invariant available == old(available) - Elements(order[..i])
      {
        ElementsSnoc(order, i);
        available := available - {order[i]};
      }
      return Some(Elements(order[..count]));
    }

    method AssignCpus(key: Key, qos: Qos, millis: nat) returns (r: Result<CpuSet>)
      modifies this
      ensures (Value(), r) == Assign(old(Value()), key, qos, millis)
    {
      if policy == NonePolicy {
        return Ok(total);
      }
      if key in assignments {
        return Ok(assignments[key]);
      }
      if qos == Guaranteed && millis % 1000 == 0 {
        var exclusive := Take(millis / 1000);
        if exclusive.None? {
          return Err("not enough CPUs");
        }
        assignments := assignments[key := exclusive.value];
        return Ok(exclusive.value);
      }
      return Ok(SharedPool(Value()));
    }

    method ReleaseCpus(key: Key)
      modifies this
      ensures Value() == Release(old(Value()), key)
    {
      if key in assignments {
        var cpus := assignments[key];
        assignments := assignments - {key};
        available := available + cpus;
      }
    }
  }

  // -- The partition -----------------------------------------------------------

  /** Available and assigned CPUs partition `total - reserved`. */
  predicate Partition(s: State) {
    && (forall k :: k in s.assignments ==> s.assignments[k] !! s.available)
    && (forall j, k :: j in s.assignments && k in s.assignments && j != k ==> s.assignments[j] !! s.assignments[k])
    && s.available + Assigned(s.assignments) == s.total - s.reserved
  }

  lemma LowestSize(s: CpuSet, count: nat)
    requires count <= |s|
    ensures Lowest(s, count) <= s && |Lowest(s, count)| == count
    ensures forall c, d :: c in Lowest(s, count) && d in s - Lowest(s, count) ==> c < d
  {
    var order := Ascending(s);
    PrefixSize(order, count);
    forall c, d | c in Lowest(s, count) && d in s - Lowest(s, count)
      ensures c < d
    {
      var i :| 0 <= i < count && order[..count][i] == c;
      var j :| 0 <= j < |order| && order[j] == d;
    }
  }

  lemma ElementsSnoc(order: seq<u32>, i: nat)
    requires i < |order|
    ensures Elements(order[..i + 1]) == Elements(order[..i]) + {order[i]}
  {
    assert order[..i + 1] == order[..i] + [order[i]];
    MembersSnoc(order[..i + 1], order[..i], order[i]);
  }

  lemma {:induction false} PrefixSize(order: seq<u32>, n: nat)
    requires StrictlyAscending(order) && n <= |order|
    ensures |Elements(order[..n])| == n
  {
    if n == 0 {
      assert Elements(order[..0]) == {};
    } else {
      PrefixSize(order, n - 1);
      ElementsSnoc(order, n - 1);
      LaterIsNew(order, n - 1);
    }
  }

  lemma LaterIsNew(order: seq<u32>, i: nat)
    requires StrictlyAscending(order) && i < |order|
    ensures order[i] !in Elements(order[..i])
  {
  }

  lemma AssignedWith(a: map<Key, CpuSet>, key: Key, cpus: CpuSet)
    requires key !in a
    ensures Assigned(a[key := cpus]) == Assigned(a) + cpus
  {
    var b := a[key := cpus];
    forall c | c in Assigned(a) + cpus
      ensures c in Assigned(b)
    {
      if c in cpus {
        assert key in b && c in b[key];
      } else {
        var k :| k in a && c in a[k];
        assert k in b && c in b[k];
      }
    }
  }

  lemma GrantKeepsPartition(s: State, key: Key, cpus: CpuSet)
    requires Partition(s) && cpus <= s.available && key !in s.assignments
    ensures Partition(Grant(s, key, cpus))
  {
    var t := Grant(s, key, cpus);
    AssignedWith(s.assignments, key, cpus);
    assert t.available + Assigned(t.assignments) == s.available + Assigned(s.assignments);
  }

  lemma AssignKeepsPartition(s: State, key: Key, qos: Qos, millis: nat)
    requires Partition(s)
    ensures Partition(Assign(s, key, qos, millis).0)
  {
    if s.policy == Static && key !in s.assignments && WantsExclusive(qos, millis) && millis / 1000 <= |s.available| {
      LowestSize(s.available, millis / 1000);
      GrantKeepsPartition(s, key, Lowest(s.available, millis / 1000));
    }
  }

  lemma ReleaseKeepsPartition(s: State, key: Key)
    requires Partition(s)
    ensures Partition(Release(s, key))
  {
    if key in s.assignments {
      var rest := s.assignments - {key};
      assert rest[key := s.assignments[key]] == s.assignments;
      AssignedWith(rest, key, s.assignments[key]);
    }
  }

  // -- Runs --------------------------------------------------------------------

  datatype Event = DoAssign(key: Key, qos: Qos, millis: nat) | DoRelease(key: Key)

  function Next(s: State, e: Event): State {
    match e
    case DoAssign(key, qos, millis) => Assign(s, key, qos, millis).0
    case DoRelease(key) => Release(s, key)
  }

  function Run(s: State, run: seq<Event>): State
    decreases |run|
  {
    if run == [] then s else Run(Next(s, run[0]), run[1..])
  }

  lemma {:induction false} RunKeepsPartition(s: State, run: seq<Event>)
    requires Partition(s)
    ensures var t := Run(s, run);
            Partition(t) && t.total == s.total && t.reserved == s.reserved && t.policy == s.policy
    decreases |run|
  {
    if run != [] {
      match run[0] {
        case DoAssign(key, qos, millis) => AssignKeepsPartition(s, key, qos, millis);
        case DoRelease(key) => ReleaseKeepsPartition(s, key);
      }
      RunKeepsPartition(Next(s, run[0]), run[1..]);
    }
  }

  /**
   In every run the available pool and the exclusive sets partition `total - reserved`, the
   shared pool is what is available plus the reserved CPUs, and with no assignment left the
   pool is the initial one.
   */
  lemma CpusAreConserved(policy: Policy, total: CpuSet, reserved: CpuSet, run: seq<Event>)
    ensures var s := Run(Initial(policy, total, reserved), run);
            && Partition(s)
            && s.total == total && s.reserved == reserved
            && SharedPool(s) == s.available + (reserved * total)
            && (s.assignments == map[] ==> s == Initial(policy, total, reserved))
  {
    var init := Initial(policy, total, reserved);
    assert Assigned(init.assignments) == {};
    RunKeepsPartition(init, run);
    var s := Run(init, run);
    forall c | c in total - reserved
      ensures c in s.available <==> c !in Assigned(s.assignments)
    {
      if c in Assigned(s.assignments) {
        var k :| k in s.assignments && c in s.assignments[k];
        assert s.assignments[k] !! s.available;
      }
    }
    assert SharedPool(s) == s.available + (reserved * total);
  }

  /** A successful exclusive assign grants exactly the requested number of CPUs, from the pool only. */
  lemma AssignGrantsWhatWasAsked(s: State, key: Key, qos: Qos, millis: nat)
    requires Partition(s) && s.policy == Static && key !in s.assignments
    requires qos == Guaranteed && millis % 1000 == 0
    ensures var (t, r) := Assign(s, key, qos, millis);
            && (r.Ok? <==> millis / 1000 <= |s.available|)
            && (r.Err? ==> t == s)
            && (r.Ok? ==> |r.value| * 1000 == millis && r.value <= s.available
                          && (forall c, d :: c in r.value && d in s.available - r.value ==> c < d)
                          && (key in t.assignments && t.assignments[key] == r.value)
                          && Assign(t, key, qos, millis) == (t, r)
                          && Release(t, key) == s)
  {
    if millis / 1000 <= |s.available| {
      LowestSize(s.available, millis / 1000);
      GrantThenRelease(s, key, Lowest(s.available, millis / 1000));
    }
  }

  /**
   Every other answer leaves the state alone: the none policy gives all CPUs, a repeat gives what the
   container has, and a pod that is not Guaranteed or asks for part of a CPU gets the CPUs of nobody.
   */
  lemma OtherAnswers(s: State, key: Key, qos: Qos, millis: nat)
    requires s.policy == NonePolicy || key in s.assignments || qos != Guaranteed || millis % 1000 != 0
    ensures var (t, r) := Assign(s, key, qos, millis);
            && t == s
            && r.Ok?
            && (s.policy == NonePolicy ==> r.value == s.total)
            && (s.policy == Static && key in s.assignments ==> r.value == s.assignments[key])
            && (s.policy == Static && key !in s.assignments ==>
                  forall c :: c in r.value <==>
                    c in s.total && forall k :: k in s.assignments ==> c !in s.assignments[k])
  {
    forall c
      ensures c in SharedPool(s) <==> c in s.total && forall k :: k in s.assignments ==> c !in s.assignments[k]
    {
    }
  }

  /** Event `i` gave the container its CPUs, and nothing released them since. */
  predicate GrantedAt(run: seq<Event>, i: int, key: Key, cpus: CpuSet) {
    && 0 <= i < |run|
    && run[i].DoAssign? && run[i].key == key && run[i].qos == Guaranteed
    && |cpus| * 1000 == run[i].millis
    && forall j :: i < j < |run| ==> run[j] != DoRelease(key)
  }

  lemma {:induction false} RunSnoc(s: State, run: seq<Event>, e: Event)
    ensures Run(s, run + [e]) == Next(Run(s, run), e)
    decreases |run|
  {
    if run == [] {
      assert [e][1..] == [];
    } else {
      assert (run + [e])[1..] == run[1..] + [e];
      RunSnoc(Next(s, run[0]), run[1..], e);
    }
  }

  /** In every run only Guaranteed containers hold CPUs, as many as they asked for and until released. */
  lemma {:induction false} AssignmentsWereGranted(policy: Policy, total: CpuSet, reserved: CpuSet, run: seq<Event>,
                                                  key: Key) returns (i: nat)
    requires key in Run(Initial(policy, total, reserved), run).assignments
    ensures GrantedAt(run, i, key, Run(Initial(policy, total, reserved), run).assignments[key])
    decreases |run|
  {
    var init, n := Initial(policy, total, reserved), |run| - 1;
    assert run != [];
    var front, e := run[..n], run[n];
    assert run == front + [e];
    RunSnoc(init, front, e);
    var s := Run(init, front);
    CpusAreConserved(policy, total, reserved, front);
    if key in s.assignments {
      NextKeepsOthers(s, e, key);
      i := AssignmentsWereGranted(policy, total, reserved, front, key);
    } else {
      i := n;
      AssignGrantsWhatWasAsked(s, key, e.qos, e.millis);
    }
  }

  lemma NextKeepsOthers(s: State, e: Event, key: Key)
    requires key in s.assignments && key in Next(s, e).assignments
    ensures Next(s, e).assignments[key] == s.assignments[key] && e != DoRelease(key)
  {
  }

  lemma GrantThenRelease(s: State, key: Key, cpus: CpuSet)
    requires cpus <= s.available && key !in s.assignments
    ensures Release(Grant(s, key, cpus), key) == s
  {
  }

  /** Release every key of the set, in any order the caller lists them. */
  function ReleaseAll(s: State, keys: seq<Key>): State
    decreases |keys|
  {
    if keys == [] then s else ReleaseAll(Release(s, keys[0]), keys[1..])
  }

  lemma {:induction false} ReleaseAllRestores(s: State, keys: seq<Key>)
    requires Partition(s) && forall k :: k in s.assignments ==> k in keys
    ensures ReleaseAll(s, keys) == Initial(s.policy, s.total, s.reserved)
    decreases |keys|
  {
    if keys == [] {
      assert s.assignments == map[];
      assert Assigned(s.assignments) == {};
    } else {
      ReleaseKeepsPartition(s, keys[0]);
      ReleaseAllRestores(Release(s, keys[0]), keys[1..]);
    }
  }
}
