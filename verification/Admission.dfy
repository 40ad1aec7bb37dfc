/**
 Node-local pod admission.  Usage is kept incrementally: u64 and u32 counters whose additions
 wrap and whose subtractions saturate, and a map from host port to the pod that owns it.
 */
module Admission {
  import opened Wrappers
  import opened Text
  import opened PodTypes
  import Quantity

  const U32: nat := 0x1_0000_0000

  type PortKey = (nat, Protocol)

  datatype TolerationOperator = Equal | Exists

  datatype Toleration = Toleration(key: Option<string>, operator: TolerationOperator, value: Option<string>)

  datatype ResourceClaim = ResourceClaim(isAllocated: bool, isPrepared: bool)

  datatype Pod = Pod(uid: string, containers: seq<Container>, initContainers: seq<Container>,
                     runtimeClass: Option<string>, nodeSelector: map<string, string>,
                     tolerations: seq<Toleration>, claims: seq<ResourceClaim>)
  {
    /** `containers.iter().chain(init_containers.iter())` */
    function All(): seq<Container> {
      containers + initContainers
    }
  }

  /** Runtime class -> resource -> quantity text. */
  type Overheads = map<string, map<string, string>>

  datatype Usage = Usage(cpu: nat, memory: nat, overheadCpu: nat, overheadMemory: nat, podCount: nat,
                         hostPorts: map<PortKey, string>)

  const EMPTY := Usage(0, 0, 0, 0, 0, map[])

  // -- Arithmetic --------------------------------------------------------------

  function WrapAdd(a: nat, b: nat): nat {
    (a + b) % U64
  }

  function SatSub(a: nat, b: nat): nat {
    if a < b then 0 else a - b
  }

  function SatMulU64(a: nat, b: nat): nat {
    if a * b < U64 then a * b else U64 - 1
  }

  // -- What a pod asks for -----------------------------------------------------

  function PortKeys(ports: seq<Port>): set<PortKey> {
    set p | p in ports && p.hostPort.Some? :: (p.hostPort.value, p.protocol)
  }

  function HostPorts(cs: seq<Container>): set<PortKey> {
    if cs == [] then {} else HostPorts(cs[..|cs| - 1]) + PortKeys(cs[|cs| - 1].ports)
  }

  /** Some port of some container or init container has this host port and protocol. */
  ghost predicate AsksFor(pod: Pod, k: PortKey) {
    exists c, p :: (c in pod.containers || c in pod.initContainers) && p in c.ports && p.hostPort == Some(k.0)
                   && p.protocol == k.1
  }

  lemma {:induction false} HostPortsMember(cs: seq<Container>, k: PortKey)
    ensures k in HostPorts(cs) <==>
              exists c, p :: c in cs && p in c.ports && p.hostPort == Some(k.0) && p.protocol == k.1
    decreases |cs|
  {
    if cs != [] {
      var front, last := cs[..|cs| - 1], cs[|cs| - 1];
      HostPortsMember(front, k);
      assert forall c :: c in cs <==> c in front || c == last;
      assert k in PortKeys(last.ports) <==> exists p :: p in last.ports && p.hostPort == Some(k.0) && p.protocol == k.1;
    }
  }

  /** The ports of a pod are those of its containers and its init containers. */
  lemma PodPorts(pod: Pod)
    ensures forall k :: k in HostPorts(pod.All()) <==>
              exists c, p :: (c in pod.containers || c in pod.initContainers) && p in c.ports
                             && p.hostPort == Some(k.0) && p.protocol == k.1
    ensures forall k :: k in HostPorts(pod.All()) <==> AsksFor(pod, k)
  {
    forall k
      ensures k in HostPorts(pod.All()) <==> AsksFor(pod, k)
    {
      HostPortsMember(pod.All(), k);
    }
  }

  /** The totals of a pod are those of its containers and its init containers together. */
  lemma PodTotals(pod: Pod)
    ensures Total(pod.All(), "cpu") == Total(pod.containers, "cpu") + Total(pod.initContainers, "cpu")
    ensures Total(pod.All(), "memory") == Total(pod.containers, "memory") + Total(pod.initContainers, "memory")
  {
    TotalConcat(pod.containers, pod.initContainers, "cpu");
    TotalConcat(pod.containers, pod.initContainers, "memory");
  }

  function OverheadText(pod: Pod, overheads: Overheads, name: string): Option<string> {
    if pod.runtimeClass.Some? && pod.runtimeClass.value in overheads
       && name in overheads[pod.runtimeClass.value]
    then Some(overheads[pod.runtimeClass.value][name]) else None
  }

  function ParseOrZero(s: string): nat {
    ParseUnsigned(s, U64 - 1).GetOr(0)
  }

  function CpuText(text: string): nat {
    var s := Trim(text);
    match StripSuffix(s, "m")
    case Some(m) => ParseOrZero(m)
    case None => SatMulU64(ParseOrZero(s), 1000)
  }

  function CpuOverhead(pod: Pod, overheads: Overheads): nat {
    match OverheadText(pod, overheads, "cpu")
    case None => 0
    case Some(text) => CpuText(text)
  }

  function MemoryOverhead(pod: Pod, overheads: Overheads): nat {
    match OverheadText(pod, overheads, "memory")
    case None => 0
    case Some(v) =>
      var s := Trim(v);
      var ki, mi, gi := StripSuffix(s, "Ki"), StripSuffix(s, "Mi"), StripSuffix(s, "Gi");
      if ki.Some? then SatMulU64(ParseOrZero(ki.value), 1024)
      else if mi.Some? then SatMulU64(SatMulU64(ParseOrZero(mi.value), 1024), 1024)
      else if gi.Some? then SatMulU64(SatMulU64(SatMulU64(ParseOrZero(gi.value), 1024), 1024), 1024)
      else ParseOrZero(s)
  }

  // -- Updating usage ----------------------------------------------------------

  function OwnedBy(keys: set<PortKey>, uid: string): map<PortKey, string> {
    map k | k in keys :: uid
  }

  function Added(u: Usage, pod: Pod, overheads: Overheads): Usage {
    Usage(WrapAdd(u.cpu, Total(pod.All(), "cpu")),
          WrapAdd(u.memory, Total(pod.All(), "memory")),
          WrapAdd(u.overheadCpu, CpuOverhead(pod, overheads)),
          WrapAdd(u.overheadMemory, MemoryOverhead(pod, overheads)),
          (u.podCount + 1) % U32,
          u.hostPorts + OwnedBy(HostPorts(pod.All()), pod.uid))
  }

  function Removed(u: Usage, pod: Pod, overheads: Overheads): Usage {
    Usage(SatSub(u.cpu, Total(pod.All(), "cpu")),
          SatSub(u.memory, Total(pod.All(), "memory")),
          SatSub(u.overheadCpu, CpuOverhead(pod, overheads)),
          SatSub(u.overheadMemory, MemoryOverhead(pod, overheads)),
          SatSub(u.podCount, 1),
          u.hostPorts - HostPorts(pod.All()))
  }

  /** Adding counts containers and init containers, and makes the pod owner of every port one of them asks for. */
  lemma AddedMeans(u: Usage, pod: Pod, overheads: Overheads)
    ensures var v := Added(u, pod, overheads);
            && v.cpu == (u.cpu + Total(pod.containers, "cpu") + Total(pod.initContainers, "cpu")) % U64
            && v.memory == (u.memory + Total(pod.containers, "memory") + Total(pod.initContainers, "memory")) % U64
            && (forall k :: k in v.hostPorts <==> k in u.hostPorts || AsksFor(pod, k))
            && (forall k :: k in v.hostPorts ==>
                  v.hostPorts[k] == if AsksFor(pod, k) then pod.uid else u.hostPorts[k])
  {
    PodTotals(pod);
    PodPorts(pod);
  }

  class ResourceUsage {
    var cpu: nat
    var memory: nat
    var overheadCpu: nat
    var overheadMemory: nat
    var podCount: nat
    var hostPorts: map<PortKey, string>

    function Value(): Usage
      reads this
    {
      Usage(cpu, memory, overheadCpu, overheadMemory, podCount, hostPorts)
    }

    constructor ()
      ensures Value() == EMPTY
    {
      cpu, memory, overheadCpu, overheadMemory, podCount, hostPorts := 0, 0, 0, 0, 0, map[];
    }

    method AddPodWithOverhead(pod: Pod, overheads: Overheads)
      requires cpu < U64 && memory < U64
      modifies this
      ensures Value() == Added(old(Value()), pod, overheads)
      ensures cpu == (old(cpu) + Total(pod.containers, "cpu") + Total(pod.initContainers, "cpu")) % U64
      ensures memory == (old(memory) + Total(pod.containers, "memory") + Total(pod.initContainers, "memory")) % U64
      ensures forall k :: k in hostPorts <==> k in old(hostPorts) || AsksFor(pod, k)
      ensures forall k :: k in hostPorts ==> hostPorts[k] == if AsksFor(pod, k) then pod.uid else old(hostPorts)[k]
    {
      AddedMeans(Value(), pod, overheads);
      podCount := (podCount + 1) % U32;
      cpu, memory, hostPorts := AddContainers(cpu, memory, hostPorts, pod.All(), pod.uid);
      overheadCpu := WrapAdd(overheadCpu, CpuOverhead(pod, overheads));
      overheadMemory := WrapAdd(overheadMemory, MemoryOverhead(pod, overheads));
    }

    /** The loop of `add_pod_with_overhead` over the counters it updates. */
    static method AddContainers(cpu0: nat, memory0: nat, ports0: map<PortKey, string>, all: seq<Container>, uid: string)
      returns (cpu: nat, memory: nat, ports: map<PortKey, string>)
      requires cpu0 < U64 && memory0 < U64
      ensures cpu == WrapAdd(cpu0, Total(all, "cpu")) && memory == WrapAdd(memory0, Total(all, "memory"))
      ensures ports == ports0 + OwnedBy(HostPorts(all), uid)
    {
      cpu, memory, ports := cpu0, memory0, ports0;
      assert ports == ports + OwnedBy({}, uid);
      for i := 0 to |all|
        invariant cpu == WrapAdd(cpu0, Total(all[..i], "cpu"))
        invariant memory == WrapAdd(memory0, Total(all[..i], "memory"))
        invariant ports == ports0 + OwnedBy(HostPorts(all[..i]), uid)
      {
        AddStep(all, i, cpu0, "cpu");
        AddStep(all, i, memory0, "memory");
        OwnedStep(all, i, ports0, uid);
        cpu := WrapAdd(cpu, RequestOf(all[i], "cpu"));
        memory := WrapAdd(memory, RequestOf(all[i], "memory"));
        ports := InsertPorts(ports, all[i].ports, uid);
      }
      assert all[..|all|] == all;
    }

    static method InsertPorts(before: map<PortKey, string>, ports: seq<Port>, uid: string)
      returns (after: map<PortKey, string>)
      ensures after == before + OwnedBy(PortKeys(ports), uid)
    {
      after := before;
      for j := 0 to |ports|
        invariant after == before + OwnedBy(PortKeys(ports[..j]), uid)
      {
        OwnedSnoc(before, ports, j, uid);
        if ports[j].hostPort.Some? {
          after := after[(ports[j].hostPort.value, ports[j].protocol) := uid];
        }
      }
      assert ports[..|ports|] == ports;
    }

    method RemovePodWithOverhead(pod: Pod, overheads: Overheads)
      modifies this
      ensures Value() == Removed(old(Value()), pod, overheads)
      ensures var total := Total(pod.containers, "cpu") + Total(pod.initContainers, "cpu");
              cpu == if old(cpu) < total then 0 else old(cpu) - total
      ensures var total := Total(pod.containers, "memory") + Total(pod.initContainers, "memory");
              memory == if old(memory) < total then 0 else old(memory) - total
      ensures forall k :: k in hostPorts <==> k in old(hostPorts) && !AsksFor(pod, k)
    {
      PodTotals(pod);
      PodPorts(pod);
      podCount := SatSub(podCount, 1);
      cpu, memory, hostPorts := RemoveContainers(cpu, memory, hostPorts, pod.All());
      overheadCpu := SatSub(overheadCpu, CpuOverhead(pod, overheads));
      overheadMemory := SatSub(overheadMemory, MemoryOverhead(pod, overheads));
    }

    /** The loop of `remove_pod_with_overhead` over the counters it updates. */
    static method RemoveContainers(cpu0: nat, memory0: nat, ports0: map<PortKey, string>, all: seq<Container>)
      returns (cpu: nat, memory: nat, ports: map<PortKey, string>)
      ensures cpu == SatSub(cpu0, Total(all, "cpu")) && memory == SatSub(memory0, Total(all, "memory"))
      ensures ports == ports0 - HostPorts(all)
    {
      cpu, memory, ports := cpu0, memory0, ports0;
      for i := 0 to |all|
        invariant cpu == SatSub(cpu0, Total(all[..i], "cpu"))
        invariant memory == SatSub(memory0, Total(all[..i], "memory"))
        invariant ports == ports0 - HostPorts(all[..i])
      {
        assert all[..i + 1][..i] == all[..i];
        cpu := SatSub(cpu, RequestOf(all[i], "cpu"));
        memory := SatSub(memory, RequestOf(all[i], "memory"));
        ports := RemovePorts(ports, all[i].ports);
      }
      assert all[..|all|] == all;
    }

    /** The removal does not look at who owns the port. */
    static method RemovePorts(before: map<PortKey, string>, ports: seq<Port>) returns (after: map<PortKey, string>)
      ensures after == before - PortKeys(ports)
    {
      after := before;
      for j := 0 to |ports|
        invariant after == before - PortKeys(ports[..j])
      {
        PortKeysSnoc(ports, j);
        if ports[j].hostPort.Some? {
          after := after - {(ports[j].hostPort.value, ports[j].protocol)};
        }
      }
      assert ports[..|ports|] == ports;
    }
  }

  lemma PortKeysSnoc(ports: seq<Port>, j: nat)
    requires j < |ports|
    ensures PortKeys(ports[..j + 1])
         == PortKeys(ports[..j]) +
             if ports[j].hostPort.Some? then {(ports[j].hostPort.value, ports[j].protocol)} else {}
  {
  }

  lemma OwnedSnoc(before: map<PortKey, string>, ports: seq<Port>, j: nat, uid: string)
    requires j < |ports|
    ensures var now := before + OwnedBy(PortKeys(ports[..j]), uid);
            before + OwnedBy(PortKeys(ports[..j + 1]), uid)
            == if ports[j].hostPort.Some? then now[(ports[j].hostPort.value, ports[j].protocol) := uid] else now
  {
    PortKeysSnoc(ports, j);
  }

  lemma AddStep(cs: seq<Container>, i: nat, start: nat, name: string)
    requires i < |cs|
    ensures WrapAdd(WrapAdd(start, Total(cs[..i], name)), RequestOf(cs[i], name))
            == WrapAdd(start, Total(cs[..i + 1], name))
  {
    assert cs[..i + 1][..i] == cs[..i];
    assert Total(cs[..i + 1], name) == Total(cs[..i], name) + RequestOf(cs[i], name);
    WrapAddAssociates(start, Total(cs[..i], name), RequestOf(cs[i], name));
  }

  lemma WrapAddAssociates(a: nat, b: nat, c: nat)
    ensures WrapAdd(WrapAdd(a, b), c) == WrapAdd(a, b + c)
  {
  }

  lemma OwnedStep(cs: seq<Container>, i: nat, start: map<PortKey, string>, uid: string)
    requires i < |cs|
    ensures start + OwnedBy(HostPorts(cs[..i]), uid) + OwnedBy(PortKeys(cs[i].ports), uid)
         == start + OwnedBy(HostPorts(cs[..i + 1]), uid)
  {
    assert cs[..i + 1][..i] == cs[..i];
  }

  // -- Admission ---------------------------------------------------------------

  datatype Allocatable = Allocatable(cpu: nat, memory: nat, maxPods: nat)

  datatype TaintEffect = NoSchedule | PreferNoSchedule | NoExecute

  datatype Taint = Taint(key: string, value: Option<string>, effect: TaintEffect)

  datatype Node = Node(allocatable: Allocatable, labels: map<string, string>, taints: seq<Taint>,
                       runtimeClasses: set<string>, overheads: Overheads)

  datatype Verdict = Admit | Reject(reason: string)

  predicate Tolerates(pod: Pod, taint: Taint) {
    exists i :: 0 <= i < |pod.tolerations| &&
      var t := pod.tolerations[i];
      && (t.key.Some? ==> t.key.value == taint.key)
      && (t.operator == Exists || t.value == taint.value)
  }

  predicate SelectorMatches(node: Node, pod: Pod) {
    forall k :: k in pod.nodeSelector ==> k in node.labels && node.labels[k] == pod.nodeSelector[k]
  }

  predicate TaintsTolerated(node: Node, pod: Pod) {
    forall i :: 0 <= i < |node.taints| && !node.taints[i].effect.PreferNoSchedule? ==> Tolerates(pod, node.taints[i])
  }

  predicate ClaimsReady(pod: Pod) {
    forall i :: 0 <= i < |pod.claims| ==> pod.claims[i].isAllocated && pod.claims[i].isPrepared
  }

  function AdmitPod(node: Node, u: Usage, pod: Pod): Verdict {
    var requestedCpu := WrapAdd(Total(pod.All(), "cpu") % U64, CpuOverhead(pod, node.overheads));
    var availableCpu := SatSub(node.allocatable.cpu, WrapAdd(u.cpu, u.overheadCpu));
    var requestedMemory := WrapAdd(Total(pod.All(), "memory") % U64, MemoryOverhead(pod, node.overheads));
    var availableMemory := SatSub(node.allocatable.memory, WrapAdd(u.memory, u.overheadMemory));
    if u.podCount >= node.allocatable.maxPods then Reject("max pods exceeded")
    else if requestedCpu > availableCpu then Reject("insufficient CPU")
    else if requestedMemory > availableMemory then Reject("insufficient memory")
    else if !(HostPorts(pod.All()) !! u.hostPorts.Keys) then Reject("port conflict")
    else if pod.runtimeClass.Some? && pod.runtimeClass.value !in node.runtimeClasses then
      Reject("RuntimeClass not available")
    else if !SelectorMatches(node, pod) then Reject("node selector mismatch")
    else if !TaintsTolerated(node, pod) then Reject("pod does not tolerate taint")
    else if !ClaimsReady(pod) then Reject("resource claim is not ready")
    else Admit
  }

  // -- Runs of admit-then-add and remove ---------------------------------------

  /** The counters, and the live pods in admission order. */
  datatype State = State(usage: Usage, live: seq<Pod>)

  datatype Event = TryAdmit(pod: Pod) | Remove(index: nat)

  predicate LiveUid(live: seq<Pod>, uid: string) {
    exists i :: 0 <= i < |live| && live[i].uid == uid
  }

  /** A pod is offered only while its uid is not live; only live pods are removed. */
  predicate Enabled(s: State, e: Event) {
    match e
    case TryAdmit(pod) => !LiveUid(s.live, pod.uid)
    case Remove(i) => i < |s.live|
  }

  function Next(node: Node, s: State, e: Event): State
    requires Enabled(s, e)
  {
    match e
    case TryAdmit(pod) =>
      if AdmitPod(node, s.usage, pod) == Admit
      then State(Added(s.usage, pod, node.overheads), s.live + [pod]) else s
    case Remove(i) => State(Removed(s.usage, s.live[i], node.overheads), s.live[..i] + s.live[i + 1..])
  }

  /** The pod's own totals fit in a u64, so its request is not wrapped before the comparison. */
  predicate Fits(node: Node, pod: Pod) {
    && Total(pod.All(), "cpu") + CpuOverhead(pod, node.overheads) < U64
    && Total(pod.All(), "memory") + MemoryOverhead(pod, node.overheads) < U64
  }

  predicate Allowed(node: Node, s: State, e: Event) {
    e.TryAdmit? ==> Fits(node, e.pod)
  }

  /** Sum of a per-pod quantity, without wrapping. */
  function Sum(live: seq<Pod>, f: Pod -> nat): nat {
    if live == [] then 0 else Sum(live[..|live| - 1], f) + f(live[|live| - 1])
  }

  function CpuOf(): Pod -> nat {
    (p: Pod) => Total(p.All(), "cpu")
  }

  function MemoryOf(): Pod -> nat {
    (p: Pod) => Total(p.All(), "memory")
  }

  function CpuOverheadOf(node: Node): Pod -> nat {
    (p: Pod) => CpuOverhead(p, node.overheads)
  }

  function MemoryOverheadOf(node: Node): Pod -> nat {
    (p: Pod) => MemoryOverhead(p, node.overheads)
  }

  predicate Exact(node: Node, s: State) {
    && s.usage.cpu == Sum(s.live, CpuOf())
    && s.usage.memory == Sum(s.live, MemoryOf())
    && s.usage.overheadCpu == Sum(s.live, CpuOverheadOf(node))
    && s.usage.overheadMemory == Sum(s.live, MemoryOverheadOf(node))
    && s.usage.podCount == |s.live|
  }

  predicate WithinNode(node: Node, u: Usage) {
    && u.cpu + u.overheadCpu <= node.allocatable.cpu
    && u.memory + u.overheadMemory <= node.allocatable.memory
    && u.podCount <= node.allocatable.maxPods
  }

  predicate DistinctUids(live: seq<Pod>) {
    forall i, j :: 0 <= i < j < |live| ==> live[i].uid != live[j].uid
  }

  /** Each live pod owns each of its host ports ... */
  predicate PortsHeld(hostPorts: map<PortKey, string>, live: seq<Pod>) {
    forall i, k :: 0 <= i < |live| && k in HostPorts(live[i].All()) ==> k in hostPorts && hostPorts[k] == live[i].uid
  }

  predicate HasOwner(live: seq<Pod>, k: PortKey, uid: string) {
    exists i :: 0 <= i < |live| && k in HostPorts(live[i].All()) && live[i].uid == uid
  }

  /** ... and the map holds nothing else. */
  predicate NoStalePorts(hostPorts: map<PortKey, string>, live: seq<Pod>) {
    forall k :: k in hostPorts ==> HasOwner(live, k, hostPorts[k])
  }

  predicate PortsExact(hostPorts: map<PortKey, string>, live: seq<Pod>) {
    DistinctUids(live) && PortsHeld(hostPorts, live) && NoStalePorts(hostPorts, live)
  }

  predicate Inv(node: Node, s: State) {
    Exact(node, s) && WithinNode(node, s.usage) && PortsExact(s.usage.hostPorts, s.live)
  }

  /** The node's own limits are u64 and u32 values. */
  predicate ValidNode(node: Node) {
    node.allocatable.cpu < U64 && node.allocatable.memory < U64 && node.allocatable.maxPods < U32
  }

  lemma SumSnoc(live: seq<Pod>, pod: Pod, f: Pod -> nat)
    ensures Sum(live + [pod], f) == Sum(live, f) + f(pod)
  {
  }

  lemma {:induction false} SumWithout(live: seq<Pod>, i: nat, f: Pod -> nat)
    requires i < |live|
    ensures Sum(live, f) == Sum(live[..i] + live[i + 1..], f) + f(live[i])
    decreases |live|
  {
    var front, last := live[..|live| - 1], live[|live| - 1];
    if i == |live| - 1 {
      assert live[..i] + live[i + 1..] == front;
    } else {
      SumWithout(front, i, f);
      assert live[..i] + live[i + 1..] == (front[..i] + front[i + 1..]) + [last];
      SumSnoc(front[..i] + front[i + 1..], last, f);
    }
  }

  lemma ComparisonIsExact(total: nat, overhead: nat, used: nat, usedOverhead: nat, limit: nat)
    requires total + overhead < U64 && used + usedOverhead <= limit < U64
    ensures WrapAdd(total % U64, overhead) <= SatSub(limit, WrapAdd(used, usedOverhead))
       <==> (used + total) + (usedOverhead + overhead) <= limit
    ensures (used + total) + (usedOverhead + overhead) <= limit ==>
              WrapAdd(used, total) == used + total && WrapAdd(usedOverhead, overhead) == usedOverhead + overhead
  {
  }

  /** The checks on the two counters are exact. */
  lemma CountersCompare(node: Node, u: Usage, pod: Pod)
    requires ValidNode(node) && WithinNode(node, u) && Fits(node, pod)
    ensures AdmitPod(node, u, pod) == Admit <==>
              && u.podCount < node.allocatable.maxPods
              && u.cpu + Total(pod.All(), "cpu") + (u.overheadCpu + CpuOverhead(pod, node.overheads))
                   <= node.allocatable.cpu
              && u.memory + Total(pod.All(), "memory") + (u.overheadMemory + MemoryOverhead(pod, node.overheads))
                   <= node.allocatable.memory
              && HostPorts(pod.All()) !! u.hostPorts.Keys
              && (pod.runtimeClass.None? || pod.runtimeClass.value in node.runtimeClasses)
              && SelectorMatches(node, pod)
              && TaintsTolerated(node, pod)
              && ClaimsReady(pod)
  {
    ComparisonIsExact(Total(pod.All(), "cpu"), CpuOverhead(pod, node.overheads),
                      u.cpu, u.overheadCpu, node.allocatable.cpu);
    ComparisonIsExact(Total(pod.All(), "memory"), MemoryOverhead(pod, node.overheads), u.memory, u.overheadMemory,
                      node.allocatable.memory);
  }

  /** What the last three checks ask of labels, taints and claims. */
  lemma PlacementChecks(node: Node, pod: Pod)
    ensures SelectorMatches(node, pod) <==>
              forall k :: k in pod.nodeSelector ==> k in node.labels && node.labels[k] == pod.nodeSelector[k]
    ensures TaintsTolerated(node, pod) <==>
              forall t :: t in node.taints && (t.effect == NoSchedule || t.effect == NoExecute) ==>
                exists l :: l in pod.tolerations && (l.key.None? || l.key == Some(t.key))
                            && (l.operator == Exists || l.value == t.value)
    ensures ClaimsReady(pod) <==> forall c :: c in pod.claims ==> c.isAllocated && c.isPrepared
  {
    forall t: Taint
      ensures Tolerates(pod, t) <==>
                exists l :: l in pod.tolerations && (l.key.None? || l.key == Some(t.key))
                            && (l.operator == Exists || l.value == t.value)
    {
      if l :| l in pod.tolerations && (l.key.None? || l.key == Some(t.key))
              && (l.operator == Exists || l.value == t.value) {
        var i :| 0 <= i < |pod.tolerations| && pod.tolerations[i] == l;
      }
    }
  }

  /** The port check asks every container and init container. */
  lemma PortsCheck(u: Usage, pod: Pod)
    ensures HostPorts(pod.All()) !! u.hostPorts.Keys <==> forall k :: k in u.hostPorts ==> !AsksFor(pod, k)
  {
    PodPorts(pod);
  }

  /** A pod is admitted exactly when it passes every check, with the sums taken without wrapping. */
  lemma AdmitIff(node: Node, u: Usage, pod: Pod)
    requires ValidNode(node) && WithinNode(node, u) && Fits(node, pod)
    ensures AdmitPod(node, u, pod) == Admit <==>
              && u.podCount < node.allocatable.maxPods
              && u.cpu + u.overheadCpu + Total(pod.containers, "cpu") + Total(pod.initContainers, "cpu")
                   + CpuOverhead(pod, node.overheads) <= node.allocatable.cpu
              && u.memory + u.overheadMemory + Total(pod.containers, "memory") + Total(pod.initContainers, "memory")
                   + MemoryOverhead(pod, node.overheads) <= node.allocatable.memory
              && (forall k :: k in u.hostPorts ==> !AsksFor(pod, k))
              && (pod.runtimeClass.Some? ==> pod.runtimeClass.value in node.runtimeClasses)
              && (forall k :: k in pod.nodeSelector ==> k in node.labels && node.labels[k] == pod.nodeSelector[k])
              && (forall t :: t in node.taints && (t.effect == NoSchedule || t.effect == NoExecute) ==>
                    exists l :: l in pod.tolerations && (l.key.None? || l.key == Some(t.key))
                                && (l.operator == Exists || l.value == t.value))
              && (forall c :: c in pod.claims ==> c.isAllocated && c.isPrepared)
  {
    CountersCompare(node, u, pod);
    PodTotals(pod);
    PortsCheck(u, pod);
    PlacementChecks(node, pod);
  }

  /** The verdict names the first check that fails: pods, CPU, memory, ports, class, selector, taints, claims. */
  lemma VerdictNamesFirstFailure(node: Node, u: Usage, pod: Pod)
    requires ValidNode(node) && WithinNode(node, u) && Fits(node, pod)
    ensures var cpu := u.cpu + u.overheadCpu + Total(pod.containers, "cpu") + Total(pod.initContainers, "cpu")
                       + CpuOverhead(pod, node.overheads);
            var memory := u.memory + u.overheadMemory + Total(pod.containers, "memory")
                          + Total(pod.initContainers, "memory") + MemoryOverhead(pod, node.overheads);
            AdmitPod(node, u, pod) ==
              if u.podCount >= node.allocatable.maxPods then Reject("max pods exceeded")
              else if cpu > node.allocatable.cpu then Reject("insufficient CPU")
              else if memory > node.allocatable.memory then Reject("insufficient memory")
              else if exists k :: k in u.hostPorts && AsksFor(pod, k) then Reject("port conflict")
              else if pod.runtimeClass.Some? && pod.runtimeClass.value !in node.runtimeClasses then
                Reject("RuntimeClass not available")
              else if !SelectorMatches(node, pod) then Reject("node selector mismatch")
              else if !TaintsTolerated(node, pod) then Reject("pod does not tolerate taint")
              else if !ClaimsReady(pod) then Reject("resource claim is not ready")
              else Admit
  {
    PodTotals(pod);
    PortsCheck(u, pod);
    ComparisonIsExact(Total(pod.All(), "cpu"), CpuOverhead(pod, node.overheads),
                      u.cpu, u.overheadCpu, node.allocatable.cpu);
    ComparisonIsExact(Total(pod.All(), "memory"), MemoryOverhead(pod, node.overheads), u.memory, u.overheadMemory,
                      node.allocatable.memory);
  }

  /** Admission compares exact numbers, and the additions that follow do not wrap. */
  lemma AdmitAddsExactly(node: Node, u: Usage, pod: Pod)
    requires ValidNode(node) && WithinNode(node, u) && Fits(node, pod) && AdmitPod(node, u, pod) == Admit
    ensures var v := Added(u, pod, node.overheads);
            && v.cpu == u.cpu + Total(pod.containers, "cpu") + Total(pod.initContainers, "cpu")
            && v.memory == u.memory + Total(pod.containers, "memory") + Total(pod.initContainers, "memory")
            && v.overheadCpu == u.overheadCpu + CpuOverhead(pod, node.overheads)
            && v.overheadMemory == u.overheadMemory + MemoryOverhead(pod, node.overheads)
            && v.podCount == u.podCount + 1
            && WithinNode(node, v)
    ensures forall k :: k in u.hostPorts ==> !AsksFor(pod, k)
    ensures HostPorts(pod.All()) !! u.hostPorts.Keys
  {
    PodTotals(pod);
    PortsCheck(u, pod);
    ComparisonIsExact(Total(pod.All(), "cpu"), CpuOverhead(pod, node.overheads),
                      u.cpu, u.overheadCpu, node.allocatable.cpu);
    ComparisonIsExact(Total(pod.All(), "memory"), MemoryOverhead(pod, node.overheads), u.memory, u.overheadMemory,
                      node.allocatable.memory);
  }

  lemma AddKeepsPorts(hostPorts: map<PortKey, string>, live: seq<Pod>, pod: Pod)
    requires PortsExact(hostPorts, live) && !LiveUid(live, pod.uid) && HostPorts(pod.All()) !! hostPorts.Keys
    ensures PortsExact(hostPorts + OwnedBy(HostPorts(pod.All()), pod.uid), live + [pod])
  {
    var keys := HostPorts(pod.All());
    var after, more := hostPorts + OwnedBy(keys, pod.uid), live + [pod];
    forall i | 0 <= i < |live|
      ensures live[i].uid != pod.uid
    {
    }
    forall k | k in after
      ensures HasOwner(more, k, after[k])
    {
      if k in keys {
        assert more[|live|] == pod;
      } else {
        assert HasOwner(live, k, hostPorts[k]);
        var i :| 0 <= i < |live| && k in HostPorts(live[i].All()) && live[i].uid == hostPorts[k];
        assert more[i] == live[i];
      }
    }
  }

  lemma AdmitKeepsInv(node: Node, s: State, pod: Pod)
    requires ValidNode(node) && Inv(node, s) && !LiveUid(s.live, pod.uid) && Fits(node, pod)
    requires AdmitPod(node, s.usage, pod) == Admit
    ensures Inv(node, State(Added(s.usage, pod, node.overheads), s.live + [pod]))
  {
    AdmitAddsExactly(node, s.usage, pod);
    PodTotals(pod);
    AddKeepsPorts(s.usage.hostPorts, s.live, pod);
    SumSnoc(s.live, pod, CpuOf());
    SumSnoc(s.live, pod, MemoryOf());
    SumSnoc(s.live, pod, CpuOverheadOf(node));
    SumSnoc(s.live, pod, MemoryOverheadOf(node));
  }

  /** No saturating subtraction saturates, and the pod's ports and no others leave the map. */
  lemma RemoveSubtractsExactly(node: Node, s: State, i: nat)
    requires Inv(node, s) && i < |s.live|
    ensures var pod, u, v := s.live[i], s.usage, Removed(s.usage, s.live[i], node.overheads);
            && u.cpu == v.cpu + Total(pod.containers, "cpu") + Total(pod.initContainers, "cpu")
            && u.memory == v.memory + Total(pod.containers, "memory") + Total(pod.initContainers, "memory")
            && u.overheadCpu == v.overheadCpu + CpuOverhead(pod, node.overheads)
            && u.overheadMemory == v.overheadMemory + MemoryOverhead(pod, node.overheads)
            && u.podCount == v.podCount + 1
            && (forall k :: k in v.hostPorts <==> k in u.hostPorts && u.hostPorts[k] != pod.uid)
            && (forall k :: k in v.hostPorts ==> v.hostPorts[k] == u.hostPorts[k])
  {
    PodTotals(s.live[i]);
    SumWithout(s.live, i, CpuOf());
    SumWithout(s.live, i, MemoryOf());
    SumWithout(s.live, i, CpuOverheadOf(node));
    SumWithout(s.live, i, MemoryOverheadOf(node));
    forall k | k in s.usage.hostPorts
      ensures k in HostPorts(s.live[i].All()) <==> s.usage.hostPorts[k] == s.live[i].uid
    {
      if s.usage.hostPorts[k] == s.live[i].uid {
        var j :| 0 <= j < |s.live| && k in HostPorts(s.live[j].All()) && s.live[j].uid == s.usage.hostPorts[k];
        assert j == i;
      }
    }
  }

  lemma RestOf(live: seq<Pod>, i: nat, j: nat)
    requires i < |live| && j < |live| - 1
    ensures (live[..i] + live[i + 1..])[j] == live[if j < i then j else j + 1]
  {
  }

  lemma RestHeld(hostPorts: map<PortKey, string>, live: seq<Pod>, i: nat)
    requires PortsExact(hostPorts, live) && i < |live|
    ensures DistinctUids(live[..i] + live[i + 1..])
    ensures PortsHeld(hostPorts - HostPorts(live[i].All()), live[..i] + live[i + 1..])
  {
    var after, rest := hostPorts - HostPorts(live[i].All()), live[..i] + live[i + 1..];
    forall j, k | 0 <= j < |rest| && k in HostPorts(rest[j].All())
      ensures k in after && after[k] == rest[j].uid
    {
      RestOf(live, i, j);
      var m := if j < i then j else j + 1;
      assert k in HostPorts(live[m].All()) && hostPorts[k] == live[m].uid != live[i].uid;
    }
  }

  /** The owner of a port that pod `i` does not own is among the others. */
  lemma OwnerRemains(live: seq<Pod>, i: nat, k: PortKey, uid: string)
    requires HasOwner(live, k, uid) && i < |live| && k !in HostPorts(live[i].All())
    ensures HasOwner(live[..i] + live[i + 1..], k, uid)
  {
    var j :| 0 <= j < |live| && k in HostPorts(live[j].All()) && live[j].uid == uid;
    var m := if j < i then j else j - 1;
    RestOf(live, i, m);
    assert (live[..i] + live[i + 1..])[m] == live[j];
  }

  lemma RestNotStale(hostPorts: map<PortKey, string>, live: seq<Pod>, i: nat)
    requires PortsExact(hostPorts, live) && i < |live|
    ensures NoStalePorts(hostPorts - HostPorts(live[i].All()), live[..i] + live[i + 1..])
  {
    var after, rest := hostPorts - HostPorts(live[i].All()), live[..i] + live[i + 1..];
    forall k | k in after
      ensures HasOwner(rest, k, after[k])
    {
      assert HasOwner(live, k, hostPorts[k]);
      OwnerRemains(live, i, k, hostPorts[k]);
    }
  }

  lemma RemoveKeepsPorts(hostPorts: map<PortKey, string>, live: seq<Pod>, i: nat)
    requires PortsExact(hostPorts, live) && i < |live|
    ensures PortsExact(hostPorts - HostPorts(live[i].All()), live[..i] + live[i + 1..])
  {
    RestHeld(hostPorts, live, i);
    RestNotStale(hostPorts, live, i);
  }

  lemma RemoveKeepsInv(node: Node, s: State, i: nat)
    requires Inv(node, s) && i < |s.live|
    ensures Inv(node, State(Removed(s.usage, s.live[i], node.overheads), s.live[..i] + s.live[i + 1..]))
  {
    RemoveSubtractsExactly(node, s, i);
    PodTotals(s.live[i]);
    RemoveKeepsPorts(s.usage.hostPorts, s.live, i);
    SumWithout(s.live, i, CpuOf());
    SumWithout(s.live, i, MemoryOf());
    SumWithout(s.live, i, CpuOverheadOf(node));
    SumWithout(s.live, i, MemoryOverheadOf(node));
  }

  predicate Guarded(node: Node, s: State, run: seq<Event>)
    decreases |run|
  {
    run != [] ==> Enabled(s, run[0]) && Allowed(node, s, run[0]) && Guarded(node, Next(node, s, run[0]), run[1..])
  }

  function Run(node: Node, s: State, run: seq<Event>): State
    requires Guarded(node, s, run)
    decreases |run|
  {
    if run == [] then s else Run(node, Next(node, s, run[0]), run[1..])
  }

  lemma {:induction false} RunKeepsInv(node: Node, s: State, run: seq<Event>)
    requires ValidNode(node) && Inv(node, s) && Guarded(node, s, run)
    ensures Inv(node, Run(node, s, run))
    decreases |run|
  {
    if run != [] {
      match run[0] {
        case TryAdmit(pod) =>
          if AdmitPod(node, s.usage, pod) == Admit {
            AdmitKeepsInv(node, s, pod);
          }
        case Remove(i) => RemoveKeepsInv(node, s, i);
      }
      RunKeepsInv(node, Next(node, s, run[0]), run[1..]);
    }
  }

  /** Sum of one quantity over the containers of the pods, init containers included. */
  function Requested(live: seq<Pod>, name: string): nat {
    if live == [] then 0
    else
      var front, last := live[..|live| - 1], live[|live| - 1];
      Requested(front, name) + Total(last.containers, name) + Total(last.initContainers, name)
  }

  lemma {:induction false} SumsAreRequested(live: seq<Pod>)
    ensures Sum(live, CpuOf()) == Requested(live, "cpu") && Sum(live, MemoryOf()) == Requested(live, "memory")
  {
    if live != [] {
      SumsAreRequested(live[..|live| - 1]);
      PodTotals(live[|live| - 1]);
    }
  }

  /**
   In every run the counters are the exact sums over the containers and init containers of the live
   pods and stay within the node, and each host port asked for belongs to the one pod that asks.
   */
  lemma UsageIsExact(node: Node, run: seq<Event>)
    requires ValidNode(node) && Guarded(node, State(EMPTY, []), run)
    ensures var s := Run(node, State(EMPTY, []), run);
            && s.usage.cpu == Requested(s.live, "cpu")
            && s.usage.memory == Requested(s.live, "memory")
            && s.usage.podCount == |s.live|
            && Exact(node, s)
            && WithinNode(node, s.usage)
            && DistinctUids(s.live)
    ensures var s := Run(node, State(EMPTY, []), run);
            forall k :: k in s.usage.hostPorts <==> exists i :: 0 <= i < |s.live| && AsksFor(s.live[i], k)
    ensures var s := Run(node, State(EMPTY, []), run);
            forall i, k :: 0 <= i < |s.live| && AsksFor(s.live[i], k) ==>
              k in s.usage.hostPorts && s.usage.hostPorts[k] == s.live[i].uid
  {
    RunKeepsInv(node, State(EMPTY, []), run);
    var s := Run(node, State(EMPTY, []), run);
    SumsAreRequested(s.live);
    PortsOfLive(s.usage.hostPorts, s.live);
  }

  lemma PortsOfLive(hostPorts: map<PortKey, string>, live: seq<Pod>)
    requires PortsExact(hostPorts, live)
    ensures forall i, k :: 0 <= i < |live| && AsksFor(live[i], k) ==> k in hostPorts && hostPorts[k] == live[i].uid
    ensures forall k :: k in hostPorts ==> exists i :: 0 <= i < |live| && AsksFor(live[i], k)
  {
    forall i | 0 <= i < |live|
      ensures forall k :: k in HostPorts(live[i].All()) <==> AsksFor(live[i], k)
    {
      PodPorts(live[i]);
    }
    forall k | k in hostPorts
      ensures exists i :: 0 <= i < |live| && AsksFor(live[i], k)
    {
      assert HasOwner(live, k, hostPorts[k]);
      var i :| 0 <= i < |live| && k in HostPorts(live[i].All()) && live[i].uid == hostPorts[k];
      assert AsksFor(live[i], k);
    }
  }

  // -- Recomputation -----------------------------------------------------------

  /** Usage computed from scratch: every pod added to the empty usage. */
  function Recomputed(node: Node, pods: seq<Pod>): Usage {
    if pods == [] then EMPTY
    else Added(Recomputed(node, pods[..|pods| - 1]), pods[|pods| - 1], node.overheads)
  }

  lemma Without(b: seq<Pod>, i: nat)
    requires i < |b|
    ensures multiset(b[..i] + b[i + 1..]) == multiset(b) - multiset{b[i]}
  {
    assert b == b[..i] + [b[i]] + b[i + 1..];
  }

  lemma {:induction false} SumPermuted(a: seq<Pod>, b: seq<Pod>, f: Pod -> nat)
    requires multiset(a) == multiset(b)
    ensures Sum(a, f) == Sum(b, f)
    decreases |a|
  {
    if a == [] {
      assert |multiset(b)| == 0;
    } else {
      var n := |a| - 1;
      assert a[n] in multiset(b);
      var i :| 0 <= i < |b| && b[i] == a[n];
      Without(a, n);
      Without(b, i);
      assert a[..n] + a[n + 1..] == a[..n];
      SumPermuted(a[..n], b[..i] + b[i + 1..], f);
      SumWithout(b, i, f);
    }
  }

  predicate SumsFit(node: Node, pods: seq<Pod>) {
    && Sum(pods, CpuOf()) < U64 && Sum(pods, MemoryOf()) < U64
    && Sum(pods, CpuOverheadOf(node)) < U64 && Sum(pods, MemoryOverheadOf(node)) < U64 && |pods| < U32
  }

  lemma AddKeepsExact(node: Node, u: Usage, pods: seq<Pod>, pod: Pod)
    requires SumsFit(node, pods + [pod]) && Exact(node, State(u, pods))
    ensures Exact(node, State(Added(u, pod, node.overheads), pods + [pod]))
  {
  }

  lemma {:induction false} RecomputedCounters(node: Node, pods: seq<Pod>)
    requires SumsFit(node, pods)
    ensures Exact(node, State(Recomputed(node, pods), pods))
    decreases |pods|
  {
    if pods != [] {
      var front, last := pods[..|pods| - 1], pods[|pods| - 1];
      assert SumsFit(node, front);
      RecomputedCounters(node, front);
      assert pods == front + [last];
      AddKeepsExact(node, Recomputed(node, front), front, last);
    }
  }

  predicate Asks(pods: seq<Pod>, k: PortKey) {
    exists i :: 0 <= i < |pods| && k in HostPorts(pods[i].All())
  }

  /** A port is in the map exactly when some pod asks for it, and belongs to one that does. */
  predicate PortRight(pods: seq<Pod>, hostPorts: map<PortKey, string>, k: PortKey) {
    (k in hostPorts <==> Asks(pods, k)) && (k in hostPorts ==> HasOwner(pods, k, hostPorts[k]))
  }

  lemma {:induction false} RecomputedPorts(node: Node, pods: seq<Pod>, k: PortKey)
    ensures PortRight(pods, Recomputed(node, pods).hostPorts, k)
    decreases |pods|
  {
    if pods != [] {
      var front, last := pods[..|pods| - 1], pods[|pods| - 1];
      RecomputedPorts(node, front, k);
      PortsAfter(front, last, Recomputed(node, front).hostPorts, k);
      assert pods == front + [last];
    }
  }

  lemma PortsAfter(pods: seq<Pod>, pod: Pod, hostPorts: map<PortKey, string>, k: PortKey)
    requires PortRight(pods, hostPorts, k)
    ensures PortRight(pods + [pod], hostPorts + OwnedBy(HostPorts(pod.All()), pod.uid), k)
  {
    var more := pods + [pod];
    assert more[|pods|] == pod && forall i :: 0 <= i < |pods| ==> more[i] == pods[i];
    if k in hostPorts && k !in HostPorts(pod.All()) {
      var i :| 0 <= i < |pods| && k in HostPorts(pods[i].All()) && pods[i].uid == hostPorts[k];
      assert more[i] == pods[i];
    }
  }

  lemma PermutedSums(node: Node, s: State, pods: seq<Pod>)
    requires ValidNode(node) && Exact(node, s) && WithinNode(node, s.usage) && multiset(pods) == multiset(s.live)
    ensures Exact(node, State(s.usage, pods)) && Exact(node, State(Recomputed(node, pods), pods))
  {
    SumPermuted(pods, s.live, CpuOf());
    SumPermuted(pods, s.live, MemoryOf());
    SumPermuted(pods, s.live, CpuOverheadOf(node));
    SumPermuted(pods, s.live, MemoryOverheadOf(node));
    assert |pods| == |multiset(pods)| == |s.live|;
    RecomputedCounters(node, pods);
  }

  /** The incremental usage is what a recomputation over the live pods gives, in any order. */
  lemma UsageIsRecomputation(node: Node, run: seq<Event>, pods: seq<Pod>)
    requires ValidNode(node) && Guarded(node, State(EMPTY, []), run)
    requires multiset(pods) == multiset(Run(node, State(EMPTY, []), run).live)
    ensures Run(node, State(EMPTY, []), run).usage == Recomputed(node, pods)
  {
    UsageIsExact(node, run);
    var s := Run(node, State(EMPTY, []), run);
    PermutedSums(node, s, pods);
    RunKeepsInv(node, State(EMPTY, []), run);
    RecomputedHostPorts(node, s.usage.hostPorts, s.live, pods);
  }

  lemma OwnerIs(hostPorts: map<PortKey, string>, live: seq<Pod>, k: PortKey, uid: string)
    requires PortsHeld(hostPorts, live) && HasOwner(live, k, uid)
    ensures k in hostPorts && hostPorts[k] == uid
  {
  }

  lemma RecomputedPort(node: Node, hostPorts: map<PortKey, string>, live: seq<Pod>, pods: seq<Pod>, k: PortKey)
    requires PortsExact(hostPorts, live) && multiset(pods) == multiset(live)
    ensures var again := Recomputed(node, pods).hostPorts;
            (k in again <==> k in hostPorts) && (k in again ==> again[k] == hostPorts[k])
  {
    var again := Recomputed(node, pods).hostPorts;
    RecomputedPorts(node, pods, k);
    SamePods(pods, live, k);
    if k in again {
      OwnerIs(hostPorts, live, k, again[k]);
    }
  }

  lemma RecomputedHostPorts(node: Node, hostPorts: map<PortKey, string>, live: seq<Pod>, pods: seq<Pod>)
    requires PortsExact(hostPorts, live) && multiset(pods) == multiset(live)
    ensures Recomputed(node, pods).hostPorts == hostPorts
  {
    forall k {
      RecomputedPort(node, hostPorts, live, pods, k);
    }
  }

  lemma SamePods(a: seq<Pod>, b: seq<Pod>, k: PortKey)
    requires multiset(a) == multiset(b)
    ensures forall uid :: HasOwner(a, k, uid) <==> HasOwner(b, k, uid)
  {
    assert forall i :: 0 <= i < |a| ==> a[i] in multiset(a);
    assert forall i :: 0 <= i < |b| ==> b[i] in multiset(b);
    assert forall p :: p in a <==> p in b by {
      assert forall p :: p in a <==> p in multiset(a);
      assert forall p :: p in b <==> p in multiset(b);
    }
  }

  // -- Overhead texts ----------------------------------------------------------

  lemma PlainNumber(n: nat)
    requires n < U64
    ensures ParseOrZero(Dec(n)) == n && |Dec(n)| > 0 && NoSpace(Dec(n)) && IsDigit(Dec(n)[|Dec(n)| - 1])
  {
    DecDigits(n);
    ParseDec(n, U64 - 1);
  }

  /** The pod's runtime class has this overhead text for the resource. */
  ghost predicate HasOverhead(pod: Pod, overheads: Overheads, name: string, text: string) {
    exists rc :: pod.runtimeClass == Some(rc) && rc in overheads && name in overheads[rc] && overheads[rc][name] == text
  }

  lemma CpuOverheadIsText(pod: Pod, overheads: Overheads)
    ensures forall text :: HasOverhead(pod, overheads, "cpu", text) ==> CpuOverhead(pod, overheads) == CpuText(text)
    ensures (forall text :: !HasOverhead(pod, overheads, "cpu", text)) ==> CpuOverhead(pod, overheads) == 0
  {
    var text := OverheadText(pod, overheads, "cpu");
    assert text.Some? ==> HasOverhead(pod, overheads, "cpu", text.value);
  }

  lemma CpuTextReads(n: nat)
    requires n < U64
    ensures CpuText(Dec(n) + "m") == n
    ensures CpuText(Dec(n)) == if n * 1000 < U64 then n * 1000 else U64 - 1
  {
    PlainNumber(n);
    TrimNoSpace(Dec(n) + "m");
    StripAppended(Dec(n), "m");
    TrimNoSpace(Dec(n));
    StripsNothing(Dec(n), "m");
  }

  /** CPU overheads are whole cores, or millicores with the suffix m; without a text there is none. */
  lemma CpuOverheadReads(pod: Pod, overheads: Overheads, n: nat)
    requires n < U64
    ensures HasOverhead(pod, overheads, "cpu", Dec(n) + "m") ==> CpuOverhead(pod, overheads) == n
    ensures HasOverhead(pod, overheads, "cpu", Dec(n)) ==>
              CpuOverhead(pod, overheads) == if n * 1000 < U64 then n * 1000 else U64 - 1
    ensures (forall text :: !HasOverhead(pod, overheads, "cpu", text)) ==> CpuOverhead(pod, overheads) == 0
  {
    CpuOverheadIsText(pod, overheads);
    CpuTextReads(n);
  }

  lemma SatMulTwice(n: nat)
    ensures SatMulU64(SatMulU64(n, 1024), 1024) == SatMulU64(n, 1048576)
    ensures SatMulU64(SatMulU64(SatMulU64(n, 1024), 1024), 1024) == SatMulU64(n, 1073741824)
  {
  }

  /** Memory overheads are bytes, or Ki, Mi or Gi, saturating at the largest u64. */
  lemma MemoryOverheadReads(pod: Pod, overheads: Overheads, n: nat, suffix: string, factor: nat)
    requires n < U64 && (suffix, factor) in {("Ki", 1024), ("Mi", 1048576), ("Gi", 1073741824)}
    requires HasOverhead(pod, overheads, "memory", Dec(n) + suffix)
    ensures MemoryOverhead(pod, overheads) == if n * factor < U64 then n * factor else U64 - 1
  {
    var s := Dec(n) + suffix;
    PlainNumber(n);
    TrimNoSpace(s);
    StripAppended(Dec(n), suffix);
    assert s[|s| - 2] == suffix[0] && s[|s| - 1] == suffix[1];
    SatMulTwice(n);
    if suffix != "Ki" {
      StripsNoPair(s, "Ki");
    }
    if suffix == "Gi" {
      StripsNoPair(s, "Mi");
    }
  }

  /** A plain number of bytes is taken as it is; without a text there is no overhead. */
  lemma PlainMemoryOverhead(pod: Pod, overheads: Overheads, n: nat)
    requires n < U64
    ensures HasOverhead(pod, overheads, "memory", Dec(n)) ==> MemoryOverhead(pod, overheads) == n
    ensures (forall text :: !HasOverhead(pod, overheads, "memory", text)) ==> MemoryOverhead(pod, overheads) == 0
  {
    PlainNumber(n);
    TrimNoSpace(Dec(n));
    StripsNothing(Dec(n), "Ki");
    StripsNothing(Dec(n), "Mi");
    StripsNothing(Dec(n), "Gi");
    var text := OverheadText(pod, overheads, "memory");
    assert text.Some? ==> HasOverhead(pod, overheads, "memory", text.value);
  }

  /** White space around an overhead text does not matter. */
  lemma OverheadPadding(p: Pod, q: Pod, overheads: Overheads, before: string, text: string, after: string)
    requires AllSpace(before) && AllSpace(after) && Trimmed(text) && text != []
    ensures HasOverhead(p, overheads, "cpu", before + text + after) && HasOverhead(q, overheads, "cpu", text) ==>
              CpuOverhead(p, overheads) == CpuOverhead(q, overheads)
    ensures HasOverhead(p, overheads, "memory", before + text + after) && HasOverhead(q, overheads, "memory", text) ==>
              MemoryOverhead(p, overheads) == MemoryOverhead(q, overheads)
  {
    TrimPadded(before, text, after);
    assert "" + text + "" == text;
    TrimPadded("", text, "");
  }

  /** A CPU text that is no number and does not end in m counts for nothing. */
  lemma BadCpuOverhead(pod: Pod, overheads: Overheads, text: string)
    requires NoSpace(text) && text != [] && text[|text| - 1] != 'm' && ParseUnsigned(text, U64 - 1).None?
    requires HasOverhead(pod, overheads, "cpu", text)
    ensures CpuOverhead(pod, overheads) == 0
  {
    TrimNoSpace(text);
    StripsNothing(text, "m");
    assert ParseOrZero(text) == 0;
  }

  /** A memory text that is no number and does not end in i counts for nothing. */
  lemma BadMemoryOverhead(pod: Pod, overheads: Overheads, text: string)
    requires NoSpace(text) && text != [] && text[|text| - 1] != 'i' && ParseUnsigned(text, U64 - 1).None?
    requires HasOverhead(pod, overheads, "memory", text)
    ensures MemoryOverhead(pod, overheads) == 0
  {
    TrimNoSpace(text);
    StripsNothing(text, "Ki");
    StripsNothing(text, "Mi");
    StripsNothing(text, "Gi");
    assert ParseOrZero(text) == 0;
  }

  // -- Why a pod's own totals must fit -----------------------------------------

  /** With the pod's own totals added without wrapping, use stays within what the node can allocate. */
  predicate StaysWithin(node: Node, u: Usage, pod: Pod) {
    && u.cpu + u.overheadCpu + Total(pod.containers, "cpu") + Total(pod.initContainers, "cpu")
         + CpuOverhead(pod, node.overheads) <= node.allocatable.cpu
    && u.memory + u.overheadMemory + Total(pod.containers, "memory") + Total(pod.initContainers, "memory")
         + MemoryOverhead(pod, node.overheads) <= node.allocatable.memory
  }

  /** An admitted pod's real needs stay within the node if and only if its own totals fit the counters. */
  lemma AdmittedStaysWithinIff(node: Node, u: Usage, pod: Pod)
    requires ValidNode(node) && WithinNode(node, u) && AdmitPod(node, u, pod) == Admit
    ensures StaysWithin(node, u, pod) <==> Fits(node, pod)
  {
    PodTotals(pod);
    if Fits(node, pod) {
      AdmitAddsExactly(node, u, pod);
    }
  }

  /** A container that asks for this much CPU and nothing else. */
  function Millicores(n: int): Container {
    Container(map["cpu" := Quantity.Quantity(n, Quantity.Millicores)], map[], [])
  }

  /**
   A pod whose requests add up to 2^64 millicores wraps to a request of nothing and is admitted
   on a node with no CPU at all.
   */
  lemma UnfitPodSlipsThrough(node: Node)
    requires node.allocatable == Allocatable(0, 0, 1) && node.taints == []
    ensures var big := Millicores(0x7FFF_FFFF_FFFF_FFFF);
            var rest := Millicores(2);
            var pod := Pod("u", [big, big, rest], [], None, map[], [], []);
            !Fits(node, pod) && AdmitPod(node, EMPTY, pod) == Admit
  {
    var big := Millicores(0x7FFF_FFFF_FFFF_FFFF);
    var rest := Millicores(2);
    var pod := Pod("u", [big, big, rest], [], None, map[], [], []);
    assert pod.All() == [big, big] + [rest] && [big, big] == [big] + [big];
    OneMore([], big);
    OneMore([big], big);
    OneMore([big, big], rest);
  }

  lemma OneMore(cs: seq<Container>, c: Container)
    ensures Total(cs + [c], "cpu") == Total(cs, "cpu") + RequestOf(c, "cpu")
    ensures Total(cs + [c], "memory") == Total(cs, "memory") + RequestOf(c, "memory")
    ensures HostPorts(cs + [c]) == HostPorts(cs) + PortKeys(c.ports)
  {
    assert (cs + [c])[..|cs|] == cs;
  }
}
