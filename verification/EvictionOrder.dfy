/**
 The order the eviction manager documents, against the one it has: usage above the memory request
 instead of plain usage, only Burstable pods over their requests, and no Guaranteed pod for disk.
 */
module EvictionOrder {
  import opened Wrappers
  import opened Pressure
  import opened PodTypes
  import opened Eviction
  import Quantity

  type UsageMap = map<string, PodUsage>

  function MemoryRequest(p: Pod): nat {
    Total(p.containers + p.initContainers, "memory")
  }

  function AboveRequest(p: Pod, usage: UsageMap): int {
    CandidateOf(p, usage, MemoryPressure).usage - MemoryRequest(p)
  }

  /** `a` may come before `b` as documented: a lower class, or in one class at least as far above its request. */
  predicate Documented(a: Pod, b: Pod, usage: UsageMap) {
    || Priority(QosOf(a)) < Priority(QosOf(b))
    || (QosOf(a) == QosOf(b) && AboveRequest(a, usage) >= AboveRequest(b, usage))
  }

  predicate OrdersAgree(a: Pod, b: Pod, usage: UsageMap) {
    NotAfter(CandidateOf(a, usage, MemoryPressure), CandidateOf(b, usage, MemoryPressure)) <==> Documented(a, b, usage)
  }

  /** For two pods the orders agree on every usage if and only if their classes differ or their requests are equal. */
  lemma OrdersAgreeIff(a: Pod, b: Pod)
    requires a.uid != b.uid
    ensures (forall usage :: OrdersAgree(a, b, usage)) <==> QosOf(a) != QosOf(b) || MemoryRequest(a) == MemoryRequest(b)
  {
    if QosOf(a) == QosOf(b) && MemoryRequest(a) > MemoryRequest(b) {
      assert !OrdersAgree(a, b, map[]);
    } else if QosOf(a) == QosOf(b) && MemoryRequest(a) < MemoryRequest(b) {
      assert !OrdersAgree(a, b, map[b.uid := PodUsage(1, 0)]);
    }
  }

  // -- Rankings exist ----------------------------------------------------------

  /** Insertion in front of everything the candidate may precede. */
  function InsertedEarly(cs: seq<Candidate>, c: Candidate): (more: seq<Candidate>)
    ensures multiset(more) == multiset(cs) + multiset{c}
  {
    if cs == [] then [c]
    else if NotAfter(c, cs[0]) then assert [c] + cs == [c] + cs; [c] + cs
    else
      assert cs == [cs[0]] + cs[1..];
      [cs[0]] + InsertedEarly(cs[1..], c)
  }

  lemma {:induction false} InsertedEarlyRanked(cs: seq<Candidate>, c: Candidate)
    requires Ranked(cs)
    ensures Ranked(InsertedEarly(cs, c))
  {
    if cs != [] && !NotAfter(c, cs[0]) {
      InsertedEarlyRanked(cs[1..], c);
      var rest := InsertedEarly(cs[1..], c);
      forall x | x in rest
        ensures NotAfter(cs[0], x)
      {
        assert x in multiset(rest);
        assert x == c || x in cs[1..];
      }
    }
  }

  /** Whatever the candidate may precede comes behind it. */
  lemma {:induction false} InsertedEarlyPrecedes(cs: seq<Candidate>, c: Candidate, x: Candidate)
    returns (i: nat, j: nat)
    requires Ranked(cs) && x in cs && NotAfter(c, x)
    ensures var more := InsertedEarly(cs, c); i < j < |more| && more[i] == c && more[j] == x
  {
    if NotAfter(c, cs[0]) {
      var k :| 0 <= k < |cs| && cs[k] == x;
      i, j := 0, k + 1;
    } else {
      assert x in cs[1..];
      var a, b := InsertedEarlyPrecedes(cs[1..], c, x);
      i, j := a + 1, b + 1;
    }
  }

  lemma {:induction false} SortedExists(m: multiset<Candidate>) returns (sorted: seq<Candidate>)
    ensures Ranked(sorted) && multiset(sorted) == m
    decreases |m|
  {
    if m == multiset{} {
      sorted := [];
    } else {
      var c :| c in m;
      var rest := SortedExists(m - multiset{c});
      InsertedEarlyRanked(rest, c);
      sorted := InsertedEarly(rest, c);
    }
  }

  /** Pods are told apart by their uids. */
  predicate UidsIdentify(pods: seq<Pod>) {
    forall p, q :: p in pods && q in pods && p.uid == q.uid ==> p == q
  }

  // -- The ranking -------------------------------------------------------------

  /** Pods come in the documented order. */
  ghost predicate DocumentedRanking(ranked: seq<Candidate>, pods: seq<Pod>, usage: UsageMap) {
    forall i, j, p, q :: 0 <= i < j < |ranked| && p in pods && q in pods && Considered(p, MemoryPressure)
                         && Considered(q, MemoryPressure) && ranked[i] == CandidateOf(p, usage, MemoryPressure)
                         && ranked[j] == CandidateOf(q, usage, MemoryPressure) ==>
      Documented(p, q, usage)
  }

  ghost predicate AlwaysDocumented(pods: seq<Pod>) {
    forall usage, ranked :: IsRanking(ranked, pods, usage, MemoryPressure) ==> DocumentedRanking(ranked, pods, usage)
  }

  /** Pods of one class that may be evicted for memory all request the same. */
  predicate SameRequests(pods: seq<Pod>) {
    forall p, q :: p in pods && q in pods && Considered(p, MemoryPressure) && Considered(q, MemoryPressure) ==>
      QosOf(p) != QosOf(q) || MemoryRequest(p) == MemoryRequest(q)
  }

  /** The memory ranking is the documented one, for every usage, if and only if pods of one class request the same. */
  lemma RankingIsDocumentedIff(pods: seq<Pod>)
    requires UidsIdentify(pods)
    ensures AlwaysDocumented(pods) <==> SameRequests(pods)
  {
    if SameRequests(pods) {
      forall usage, ranked | IsRanking(ranked, pods, usage, MemoryPressure)
        ensures DocumentedRanking(ranked, pods, usage)
      {
      }
    } else {
      var p, q :| p in pods && q in pods && Considered(p, MemoryPressure) && Considered(q, MemoryPressure)
                  && QosOf(p) == QosOf(q) && MemoryRequest(p) > MemoryRequest(q);
      UndocumentedRanking(pods, p, q);
    }
  }

  /** With no usage at all, some ranking puts the pod that is further below its request first. */
  lemma UndocumentedRanking(pods: seq<Pod>, p: Pod, q: Pod)
    requires UidsIdentify(pods) && p in pods && q in pods && QosOf(p) == QosOf(q)
    requires Considered(p, MemoryPressure) && Considered(q, MemoryPressure) && MemoryRequest(p) > MemoryRequest(q)
    ensures !AlwaysDocumented(pods)
  {
    var usage: UsageMap := map[];
    var ranked, i, j := RankingWithFirst(pods, usage, p, q);
    assert !Documented(p, q, usage);
    assert !DocumentedRanking(ranked, pods, usage);
  }

  /** Some ranking puts a pod before another that it may precede. */
  lemma RankingWithFirst(pods: seq<Pod>, usage: UsageMap, p: Pod, q: Pod)
    returns (ranked: seq<Candidate>, i: nat, j: nat)
    requires p in pods && q in pods && p.uid != q.uid
    requires Considered(p, MemoryPressure) && Considered(q, MemoryPressure)
    requires NotAfter(CandidateOf(p, usage, MemoryPressure), CandidateOf(q, usage, MemoryPressure))
    ensures IsRanking(ranked, pods, usage, MemoryPressure) && i < j < |ranked|
    ensures ranked[i] == CandidateOf(p, usage, MemoryPressure) && ranked[j] == CandidateOf(q, usage, MemoryPressure)
  {
    var c, d := CandidateOf(p, usage, MemoryPressure), CandidateOf(q, usage, MemoryPressure);
    CandidateIn(pods, usage, MemoryPressure, p);
    CandidateIn(pods, usage, MemoryPressure, q);
    var rest := SortedExists(multiset(Candidates(pods, usage, MemoryPressure)) - multiset{c});
    assert d in multiset(rest) && d in rest;
    InsertedEarlyRanked(rest, c);
    ranked := InsertedEarly(rest, c);
    i, j := InsertedEarlyPrecedes(rest, c, d);
  }

  lemma CandidateIn(pods: seq<Pod>, usage: UsageMap, reason: Reason, p: Pod)
    requires p in pods && Considered(p, reason)
    ensures CandidateOf(p, usage, reason) in multiset(Candidates(pods, usage, reason))
  {
    CandidatesMember(pods, usage, reason, CandidateOf(p, usage, reason));
    var i :| 0 <= i < |pods| && pods[i] == p;
  }

  // -- Who can be picked -------------------------------------------------------

  /** The pick takes this pod's candidate. */
  predicate Takes(last: LastEvictions, e: PickEvent, c: Candidate)
    requires e.Valid()
  {
    var k := Pick(last, e.ranked, e.readings, 0);
    k < |e.ranked| && e.ranked[k] == c
  }

  /** While every other pod is in its cool-down, any pod that may be evicted for the reason is picked. */
  lemma AnyoneCanBePicked(pods: seq<Pod>, usage: UsageMap, reason: Reason, p: Pod)
    returns (last: LastEvictions, e: PickEvent)
    requires UidsIdentify(pods) && p in pods && Considered(p, reason)
    ensures e.Valid() && IsRanking(e.ranked, pods, usage, reason) && Takes(last, e, CandidateOf(p, usage, reason))
  {
    var c := CandidateOf(p, usage, reason);
    var ranked := SortedExists(multiset(Candidates(pods, usage, reason)));
    e := PickEvent(ranked, seq(|ranked| + 1, _ => 0.0));
    last := OthersCooling(pods, p.uid);
    RankedMember(ranked, pods, usage, reason, c);
    forall x | x in ranked
      ensures x == c || Cooling(last, x.uid, 0.0)
    {
      OthersAreCooling(pods, usage, reason, p, ranked, x);
    }
    OnlyOneLeft(last, e, c);
  }

  /** Every other pod was evicted just now. */
  function OthersCooling(pods: seq<Pod>, uid: string): LastEvictions {
    map q | q in pods && q.uid != uid :: q.uid := 0.0
  }

  lemma OthersAreCooling(pods: seq<Pod>, usage: UsageMap, reason: Reason, p: Pod, ranked: seq<Candidate>, x: Candidate)
    requires UidsIdentify(pods) && p in pods && IsRanking(ranked, pods, usage, reason) && x in ranked
    ensures x == CandidateOf(p, usage, reason) || Cooling(OthersCooling(pods, p.uid), x.uid, 0.0)
  {
    RankedMember(ranked, pods, usage, reason, x);
    var q :| q in pods && Considered(q, reason) && x == CandidateOf(q, usage, reason);
    assert q.uid == p.uid ==> q == p;
  }

  lemma OnlyOneLeft(last: LastEvictions, e: PickEvent, c: Candidate)
    requires e.Valid() && c in e.ranked && c.uid !in last
    requires forall i :: 0 <= i < |e.readings| ==> e.readings[i] == 0.0
    requires forall x :: x in e.ranked ==> x == c || Cooling(last, x.uid, 0.0)
    ensures Takes(last, e, c)
  {
    var j :| 0 <= j < |e.ranked| && e.ranked[j] == c;
    var k := Pick(last, e.ranked, e.readings, 0);
    assert k <= j;
    assert e.ranked[k] in e.ranked;
  }

  /** A disk pick can take a Guaranteed pod. */
  ghost predicate GuaranteedForDisk(pods: seq<Pod>, usage: UsageMap) {
    exists last, e: PickEvent :: e.Valid() && IsRanking(e.ranked, pods, usage, DiskPressure)
                                 && PicksClass(last, e, Guaranteed)
  }

  /** Guaranteed pods are spared for disk, whatever happened before, if and only if there are none. */
  lemma GuaranteedForDiskIff(pods: seq<Pod>, usage: UsageMap)
    requires UidsIdentify(pods)
    ensures GuaranteedForDisk(pods, usage) <==> exists p :: p in pods && QosOf(p) == Guaranteed
  {
    if p :| p in pods && QosOf(p) == Guaranteed {
      var last, e := AnyoneCanBePicked(pods, usage, DiskPressure, p);
      assert PicksClass(last, e, Guaranteed);
    }
    if GuaranteedForDisk(pods, usage) {
      var last, e: PickEvent :| e.Valid() && IsRanking(e.ranked, pods, usage, DiskPressure)
                                && PicksClass(last, e, Guaranteed);
      RankedMember(e.ranked, pods, usage, DiskPressure, e.ranked[Pick(last, e.ranked, e.readings, 0)]);
    }
  }

  /** A Burstable pod that may be evicted for memory and uses no more than it requests. */
  predicate WithinRequest(p: Pod, usage: UsageMap) {
    Considered(p, MemoryPressure) && QosOf(p) == Burstable && AboveRequest(p, usage) <= 0
  }

  /** A memory pick can take a Burstable pod that is within its request. */
  ghost predicate WithinRequestPicked(pods: seq<Pod>, usage: UsageMap) {
    exists last, e: PickEvent, p :: e.Valid() && IsRanking(e.ranked, pods, usage, MemoryPressure) && p in pods
      && WithinRequest(p, usage) && Takes(last, e, CandidateOf(p, usage, MemoryPressure))
  }

  /** Only Burstable pods over their requests are picked, whatever happened before, iff all of them are over. */
  lemma WithinRequestPickedIff(pods: seq<Pod>, usage: UsageMap)
    requires UidsIdentify(pods)
    ensures WithinRequestPicked(pods, usage) <==> exists p :: p in pods && WithinRequest(p, usage)
  {
    if p :| p in pods && WithinRequest(p, usage) {
      var last, e := AnyoneCanBePicked(pods, usage, MemoryPressure, p);
      assert Takes(last, e, CandidateOf(p, usage, MemoryPressure));
    }
  }

  // -- Two cases ---------------------------------------------------------------

  function Asking(memory: int, limits: map<string, Quantity.Quantity>): Container {
    Container(limits["memory" := Quantity.Quantity(memory, Quantity.Bytes)], limits, [])
  }

  const WHOLE: map<string, Quantity.Quantity> :=
    map["cpu" := Quantity.Quantity(1, Quantity.Count), "memory" := Quantity.Quantity(5, Quantity.Bytes)]

  const GUARANTEED := Pod("g", [Asking(5, WHOLE)], [], Always)

  const FULL_DISK := Round(Resources(0, 0, 0, 0, 0, 0), [GUARANTEED], map[], [0.0, 0.0], [0.0, 0.0])

  lemma OneCandidate(p: Pod, usage: UsageMap, reason: Reason)
    requires Considered(p, reason)
    ensures Candidates([p], usage, reason) == [CandidateOf(p, usage, reason)]
  {
    assert [p][..0] == [];
    assert Candidates([p], usage, reason) == [] + [CandidateOf(p, usage, reason)];
  }

  lemma GuaranteedClass()
    ensures QosOf(GUARANTEED) == Guaranteed
  {
    QosIff(GUARANTEED);
    assert GUARANTEED.containers + GUARANTEED.initContainers == [Asking(5, WHOLE)];
  }

  lemma FullDiskPicks(hard: seq<Threshold>, e1: PickEvent, e2: PickEvent)
    requires hard == [Threshold("nodefs.available", Absolute(1))]
    requires e1 == PickEvent([], [0.0]) && e2 == PickEvent([Candidate("g", Guaranteed, 0)], [0.0, 0.0])
    ensures QosOf(GUARANTEED) == Guaranteed
    ensures IsPickOf(hard, FULL_DISK, MemoryPressure, e1) && IsPickOf(hard, FULL_DISK, DiskPressure, e2)
  {
    GuaranteedClass();
    OneCandidate(GUARANTEED, map[], DiskPressure);
    assert hard[0] in hard && Pressed(hard, FULL_DISK.resources, DiskPressure);
  }

  /** One round in which the disk has no room left and the only pod is Guaranteed: it is evicted. */
  lemma GuaranteedEvictedForDisk()
    ensures var hard := [Threshold("nodefs.available", Absolute(1))];
            var run := [PickEvent([], [0.0]), PickEvent([Candidate("g", Guaranteed, 0)], [0.0, 0.0])];
            && QosOf(GUARANTEED) == Guaranteed
            && RunOf(hard, [FULL_DISK], run) && AllValid(run)
            && PicksClass(Table(run[..1]), run[1], Guaranteed)
            && UidsOf(Log(run)) == ["g"]
  {
    var e1, e2 := PickEvent([], [0.0]), PickEvent([Candidate("g", Guaranteed, 0)], [0.0, 0.0]);
    FullDiskPicks([Threshold("nodefs.available", Absolute(1))], e1, e2);
    FullDiskLog(e1, e2);
  }

  lemma FullDiskLog(e1: PickEvent, e2: PickEvent)
    requires e1 == PickEvent([], [0.0]) && e2 == PickEvent([Candidate("g", Guaranteed, 0)], [0.0, 0.0])
    ensures AllValid([e1, e2]) && Table([e1, e2][..1]) == map[] && Log([e1, e2]) == [Entry("g", 0.0)]
  {
    assert [e1, e2][..1] == [e1] && [e1][..0] == [];
    assert Table([e1]) == map[] && Log([e1]) == [];
  }

  /** 10 bytes above its request, and 40 above. */
  const HEAVY := Pod("a", [Asking(90, map[])], [], Always)
  const EXCESSIVE := Pod("b", [Asking(10, map[])], [], Always)
  const USAGE: UsageMap := map["a" := PodUsage(100, 0), "b" := PodUsage(50, 0)]

  /** Of two Burstable pods the one nearer to its request is evicted, because it uses more. */
  lemma PlainUsageDecides()
    ensures QosOf(HEAVY) == Burstable && AboveRequest(HEAVY, USAGE) == 10
    ensures QosOf(EXCESSIVE) == Burstable && AboveRequest(EXCESSIVE, USAGE) == 40
    ensures var ranked := [Candidate("a", Burstable, 100), Candidate("b", Burstable, 50)];
            && IsRanking(ranked, [HEAVY, EXCESSIVE], USAGE, MemoryPressure)
            && CandidateOf(HEAVY, USAGE, MemoryPressure) == ranked[0]
            && Takes(map[], PickEvent(ranked, [0.0, 0.0, 0.0]), ranked[0])
  {
    OneContainer(HEAVY, 90);
    OneContainer(EXCESSIVE, 10);
    OneCandidate(HEAVY, USAGE, MemoryPressure);
    assert [HEAVY, EXCESSIVE][..1] == [HEAVY];
  }

  lemma OneContainer(p: Pod, memory: nat)
    requires p.containers == [Asking(memory, map[])] && p.initContainers == [] && memory > 0
    ensures QosOf(p) == Burstable && MemoryRequest(p) == memory
  {
    var c := Asking(memory, map[]);
    QosIff(p);
    assert p.containers + p.initContainers == [c];
    assert c in [c] && "memory" in c.requests;
    assert RequestOf(c, "memory") == memory;
    assert [c][..0] == [] && Total([], "memory") == 0;
  }
}
