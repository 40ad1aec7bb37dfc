/** The eviction manager: ranking pods under pressure, and the cool-down between evictions of a pod. */
module Eviction {
  import opened Wrappers
  import opened Pressure
  import opened PodTypes

  datatype RestartPolicy = Always | OnFailure | Never

  datatype Pod = Pod(uid: string, containers: seq<Container>, initContainers: seq<Container>,
                     restartPolicy: RestartPolicy)

  datatype PodUsage = PodUsage(memory: nat, disk: nat)

  /** What a ranked entry holds: the uid, the class and the usage that ordered it. */
  datatype Candidate = Candidate(uid: string, qos: Qos, usage: nat)

  datatype Reason = MemoryPressure | DiskPressure

  datatype Decision = Decision(uid: string, reason: Reason, gracePeriod: real)

  const RECLAIM := 30.0

  // -- QoS classes -------------------------------------------------------------

  predicate HasResources(c: Container) {
    c.requests != map[] || c.limits != map[]
  }

  predicate Matched(c: Container, name: string) {
    name in c.requests && name in c.limits && c.requests[name] == c.limits[name]
  }

  function QosOf(p: Pod): Qos {
    var all := p.containers + p.initContainers;
    if !exists i :: 0 <= i < |all| && HasResources(all[i]) then BestEffort
    else if forall i :: 0 <= i < |all| ==> Matched(all[i], "cpu") && Matched(all[i], "memory") then Guaranteed
    else Burstable
  }

  /** Guaranteed exactly when there is a container and every one has matching CPU and memory. */
  lemma QosIff(p: Pod)
    ensures var all := p.containers + p.initContainers;
            && (QosOf(p) == Guaranteed <==>
                 |all| > 0 && forall c, name :: c in all && name in {"cpu", "memory"} ==>
                   name in c.requests && name in c.limits && c.requests[name] == c.limits[name])
            && (QosOf(p) == BestEffort <==> forall c :: c in all ==> c.requests == map[] && c.limits == map[])
  {
    var all := p.containers + p.initContainers;
    assert forall c :: Matched(c, "cpu") && Matched(c, "memory") <==>
      forall name :: name in {"cpu", "memory"} ==>
        name in c.requests && name in c.limits && c.requests[name] == c.limits[name];
    if |all| > 0 {
      assert all[0] in all;
      assert Matched(all[0], "cpu") ==> HasResources(all[0]);
    }
  }

  // -- Ranking -----------------------------------------------------------------

  function Priority(q: Qos): nat {
    match q
    case BestEffort => 0
    case Burstable => 1
    case Guaranteed => 2
  }

  /** `a` may come before `b`: a lower class, or the same class with at least as much usage. */
  predicate NotAfter(a: Candidate, b: Candidate) {
    Priority(a.qos) < Priority(b.qos) || (Priority(a.qos) == Priority(b.qos) && a.usage >= b.usage)
  }

  predicate Ranked(cs: seq<Candidate>) {
    forall i, j :: 0 <= i < j < |cs| ==> NotAfter(cs[i], cs[j])
  }

  predicate Considered(p: Pod, reason: Reason) {
    reason == MemoryPressure ==> p.restartPolicy != Never
  }

  function CandidateOf(p: Pod, usage: map<string, PodUsage>, reason: Reason): Candidate {
    var u := if p.uid in usage then usage[p.uid] else PodUsage(0, 0);
    Candidate(p.uid, QosOf(p), if reason == MemoryPressure then u.memory else u.disk)
  }

  function Candidates(pods: seq<Pod>, usage: map<string, PodUsage>, reason: Reason): seq<Candidate> {
    if pods == [] then []
    else
      var front, last := Candidates(pods[..|pods| - 1], usage, reason), pods[|pods| - 1];
      if Considered(last, reason) then front + [CandidateOf(last, usage, reason)] else front
  }

  method Rank(pods: seq<Pod>, usage: map<string, PodUsage>, reason: Reason) returns (ranked: seq<Candidate>)
    ensures Ranked(ranked)
    ensures multiset(ranked) == multiset(Candidates(pods, usage, reason))
  {
    var candidates: seq<Candidate> := [];
    for i := 0 to |pods|
      invariant candidates == Candidates(pods[..i], usage, reason)
    {
      assert pods[..i + 1][..i] == pods[..i];
      if Considered(pods[i], reason) {
        candidates := candidates + [CandidateOf(pods[i], usage, reason)];
      }
    }
    assert pods[..|pods|] == pods;
    ranked := Sort(candidates);
  }

  /** A stable sort by insertion: behind everything that may come before. */
  method Sort(cs: seq<Candidate>) returns (sorted: seq<Candidate>)
    ensures Ranked(sorted)
    ensures multiset(sorted) == multiset(cs)
  {
    sorted := [];
    for i := 0 to |cs|
      invariant Ranked(sorted)
      invariant multiset(sorted) == multiset(cs[..i])
    {
      assert cs[..i + 1] == cs[..i] + [cs[i]];
      sorted := Insert(sorted, cs[i]);
    }
    assert cs[..|cs|] == cs;
  }

  method Insert(cs: seq<Candidate>, c: Candidate) returns (more: seq<Candidate>)
    requires Ranked(cs)
    ensures Ranked(more)
    ensures multiset(more) == multiset(cs) + multiset{c}
  {
    var p := |cs|;
    while p > 0 && !NotAfter(cs[p - 1], c)
      invariant 0 <= p <= |cs|
      invariant forall j :: p <= j < |cs| ==> NotAfter(c, cs[j])
    {
      p := p - 1;
    }
    more := cs[..p] + [c] + cs[p..];
    InsertedRanked(cs, p, c);
    assert cs == cs[..p] + cs[p..];
  }

  lemma InsertedRanked(cs: seq<Candidate>, p: nat, c: Candidate)
    requires Ranked(cs) && p <= |cs|
    requires p > 0 ==> NotAfter(cs[p - 1], c)
    requires forall j :: p <= j < |cs| ==> NotAfter(c, cs[j])
    ensures Ranked(cs[..p] + [c] + cs[p..])
  {
  }

  // -- Picking -----------------------------------------------------------------

  type LastEvictions = map<string, real>

  /** `last.elapsed() < min_eviction_reclaim_period` at time `now`. */
  predicate Cooling(last: LastEvictions, uid: string, now: real) {
    uid in last && now - last[uid] < RECLAIM
  }

  /** The clock is read once per candidate looked at, and once more to stamp the decision. */
  predicate Readings(readings: seq<real>, n: nat) {
    |readings| == n + 1 && forall i, j :: 0 <= i < j < |readings| ==> readings[i] <= readings[j]
  }

  /** Index of the first candidate outside its cool-down, or the length when there is none. */
  function Pick(last: LastEvictions, ranked: seq<Candidate>, readings: seq<real>, from: nat): (k: nat)
    requires |readings| == |ranked| + 1 && from <= |ranked|
    ensures from <= k <= |ranked|
    ensures forall i :: from <= i < k ==> Cooling(last, ranked[i].uid, readings[i])
    ensures k < |ranked| ==> !Cooling(last, ranked[k].uid, readings[k])
    decreases |ranked| - from
  {
    if from == |ranked| then from
    else if Cooling(last, ranked[from].uid, readings[from]) then Pick(last, ranked, readings, from + 1)
    else from
  }

  function GraceFor(override: Option<real>, qos: Qos): real {
    match override
    case Some(g) => g
    case None => (match qos case Guaranteed => 30.0 case Burstable => 10.0 case BestEffort => 0.0)
  }

  /** The table after a pick. */
  function AfterPick(last: LastEvictions, ranked: seq<Candidate>, readings: seq<real>): LastEvictions
    requires |readings| == |ranked| + 1
  {
    var k := Pick(last, ranked, readings, 0);
    if k < |ranked| then last[ranked[k].uid := readings[k + 1]] else last
  }

  class EvictionManager {
    const evaluator: EvictionEvaluator
    const graceOverride: Option<real>
    var lastEvictions: LastEvictions

    constructor (evaluator: EvictionEvaluator, graceOverride: Option<real>)
      ensures lastEvictions == map[] && this.evaluator == evaluator && this.graceOverride == graceOverride
    {
      this.evaluator, this.graceOverride := evaluator, graceOverride;
      lastEvictions := map[];
    }

    method PickCandidate(ranked: seq<Candidate>, reason: Reason, readings: seq<real>) returns (d: Option<Decision>)
      requires Readings(readings, |ranked|)
      modifies this
      ensures lastEvictions == AfterPick(old(lastEvictions), ranked, readings)
      ensures var k := Pick(old(lastEvictions), ranked, readings, 0);
              d == if k < |ranked| then Some(Decision(ranked[k].uid, reason, GraceFor(graceOverride, ranked[k].qos)))
                   else None
    {
      for i := 0 to |ranked|
        invariant lastEvictions == old(lastEvictions)
        invariant Pick(lastEvictions, ranked, readings, 0) == Pick(lastEvictions, ranked, readings, i)
      {
        var uid := ranked[i].uid;
        if !(uid in lastEvictions && readings[i] - lastEvictions[uid] < RECLAIM) {
          var grace := GraceFor(graceOverride, ranked[i].qos);
          lastEvictions := lastEvictions[uid := readings[i + 1]];
          return Some(Decision(uid, reason, grace));
        }
      }
      return None;
    }

    /**
     One evaluation: at most one pod for memory, then at most one for disk.  The rankings used
     are returned as ghosts, empty when the resource is not under pressure.
     */
    method Evaluate(r: Resources, pods: seq<Pod>, usage: map<string, PodUsage>, t1: seq<real>, t2: seq<real>)
      returns (decisions: seq<Decision>, ghost first: seq<Candidate>, ghost second: seq<Candidate>)
      requires Readings(t1, |pods|) && Readings(t2, |pods|)
      modifies this
      ensures if AnyExceeded(evaluator.hard, "memory.available", r.availableMemory, r.totalMemory)
              then IsRanking(first, pods, usage, MemoryPressure) else first == []
      ensures if AnyExceeded(evaluator.hard, "nodefs.available", r.availableDisk, r.totalDisk)
              then IsRanking(second, pods, usage, DiskPressure) else second == []
      ensures |first| <= |pods| && |second| <= |pods|
      ensures TwoPicks(old(lastEvictions), lastEvictions, decisions, graceOverride,
                       PickEvent(first, t1[..|first| + 1]), PickEvent(second, t2[..|second| + 1]))
    {
      ghost var last := lastEvictions;
      var pressure := evaluator.Evaluate(r);
      var chosen, more := [], [];
      first, second := [], [];
      if pressure.memory {
        chosen, first := RankAndPick(pods, usage, MemoryPressure, t1);
      } else {
        NothingPicked(lastEvictions, t1, MemoryPressure, graceOverride);
      }
      ghost var middle := lastEvictions;
      ghost var e1 := PickEvent(first, t1[..|first| + 1]);
      assert PickedBy(last, middle, chosen, MemoryPressure, graceOverride, e1);
      if pressure.disk {
        more, second := RankAndPick(pods, usage, DiskPressure, t2);
      } else {
        NothingPicked(lastEvictions, t2, DiskPressure, graceOverride);
      }
      decisions := chosen + more;
      ghost var e2 := PickEvent(second, t2[..|second| + 1]);
      PickThenPick(last, middle, lastEvictions, chosen, more, graceOverride, e1, e2);
    }

    /** `pick_eviction_candidate_memory` and `pick_eviction_candidate_disk` */
    method RankAndPick(pods: seq<Pod>, usage: map<string, PodUsage>, reason: Reason, times: seq<real>)
      returns (chosen: seq<Decision>, ghost ranking: seq<Candidate>)
      requires Readings(times, |pods|)
      modifies this
      ensures IsRanking(ranking, pods, usage, reason) && |ranking| <= |pods|
      ensures PickedBy(old(lastEvictions), lastEvictions, chosen, reason, graceOverride,
                       PickEvent(ranking, times[..|ranking| + 1]))
    {
      var ranked := Rank(pods, usage, reason);
      RankingSize(ranked, pods, usage, reason);
      var d := PickCandidate(ranked, reason, times[..|ranked| + 1]);
      chosen := if d.Some? then [d.value] else [];
      ranking := ranked;
    }
  }

  lemma NothingPicked(last: LastEvictions, times: seq<real>, reason: Reason, override: Option<real>)
    requires |times| >= 1
    ensures PickedBy(last, last, [], reason, override, PickEvent([], times[..1]))
  {
  }

  /** What one pick does to the table and what it decides. */
  predicate PickedBy(last: LastEvictions, after: LastEvictions, ds: seq<Decision>, reason: Reason,
                     override: Option<real>, e: PickEvent)
  {
    && |e.readings| == |e.ranked| + 1
    && after == AfterPick(last, e.ranked, e.readings)
    && ds == Chosen(last, e.ranked, e.readings, reason, override)
  }

  /** A memory pick and then a disk pick, the second seeing the first's stamp. */
  predicate TwoPicks(last: LastEvictions, after: LastEvictions, ds: seq<Decision>, override: Option<real>,
                     e1: PickEvent, e2: PickEvent)
  {
    && |e1.readings| == |e1.ranked| + 1
    && |e2.readings| == |e2.ranked| + 1
    && var middle := AfterPick(last, e1.ranked, e1.readings);
       && after == AfterPick(middle, e2.ranked, e2.readings)
       && ds == Chosen(last, e1.ranked, e1.readings, MemoryPressure, override)
              + Chosen(middle, e2.ranked, e2.readings, DiskPressure, override)
  }

  lemma PickThenPick(last: LastEvictions, middle: LastEvictions, after: LastEvictions, ds: seq<Decision>,
                     more: seq<Decision>, override: Option<real>, e1: PickEvent, e2: PickEvent)
    requires PickedBy(last, middle, ds, MemoryPressure, override, e1)
    requires PickedBy(middle, after, more, DiskPressure, override, e2)
    ensures TwoPicks(last, after, ds + more, override, e1, e2)
  {
  }

  predicate IsRanking(ranked: seq<Candidate>, pods: seq<Pod>, usage: map<string, PodUsage>, reason: Reason) {
    Ranked(ranked) && multiset(ranked) == multiset(Candidates(pods, usage, reason))
  }

  /** The decision a pick returns, as a sequence of length at most one. */
  function Chosen(last: LastEvictions, ranked: seq<Candidate>, readings: seq<real>, reason: Reason,
                  override: Option<real>): seq<Decision>
    requires |readings| == |ranked| + 1
  {
    var k := Pick(last, ranked, readings, 0);
    if k < |ranked| then [Decision(ranked[k].uid, reason, GraceFor(override, ranked[k].qos))] else []
  }

  lemma {:induction false} CandidatesMember(pods: seq<Pod>, usage: map<string, PodUsage>, reason: Reason, c: Candidate)
    ensures c in Candidates(pods, usage, reason)
       <==> exists i :: 0 <= i < |pods| && Considered(pods[i], reason) && c == CandidateOf(pods[i], usage, reason)
    ensures |Candidates(pods, usage, reason)| <= |pods|
    decreases |pods|
  {
    if pods != [] {
      var front := pods[..|pods| - 1];
      CandidatesMember(front, usage, reason, c);
      assert forall i :: 0 <= i < |front| ==> front[i] == pods[i];
    }
  }

  lemma RankingSize(ranked: seq<Candidate>, pods: seq<Pod>, usage: map<string, PodUsage>, reason: Reason)
    requires IsRanking(ranked, pods, usage, reason)
    ensures |ranked| <= |pods|
  {
    CandidatesMember(pods, usage, reason, Candidate("", BestEffort, 0));
    assert |ranked| == |multiset(ranked)| == |Candidates(pods, usage, reason)|;
  }

  lemma RankedMember(ranked: seq<Candidate>, pods: seq<Pod>, usage: map<string, PodUsage>, reason: Reason, c: Candidate)
    requires IsRanking(ranked, pods, usage, reason)
    ensures c in ranked <==> exists q :: q in pods && Considered(q, reason) && c == CandidateOf(q, usage, reason)
  {
    CandidatesMember(pods, usage, reason, c);
    assert c in ranked <==> c in multiset(ranked);
    assert c in Candidates(pods, usage, reason) <==> c in multiset(Candidates(pods, usage, reason));
    if q :| q in pods && Considered(q, reason) && c == CandidateOf(q, usage, reason) {
      var i :| 0 <= i < |pods| && pods[i] == q;
    }
  }

  // -- What is picked ----------------------------------------------------------

  /**
   A picked pod is outside its cool-down, and no pod that may be evicted for the reason and
   was outside its own when the pick began ranks before it: no class above an available lower
   one, and within a class nobody uses more.
   */
  lemma PickIsRankMinimal(last: LastEvictions, ranked: seq<Candidate>, readings: seq<real>,
                          pods: seq<Pod>, usage: map<string, PodUsage>, reason: Reason, p: Pod)
    requires IsRanking(ranked, pods, usage, reason) && Readings(readings, |ranked|)
    requires p in pods && Considered(p, reason) && !Cooling(last, p.uid, readings[0])
    ensures var k := Pick(last, ranked, readings, 0);
            && k < |ranked|
            && !Cooling(last, ranked[k].uid, readings[k])
            && NotAfter(ranked[k], CandidateOf(p, usage, reason))
            && (ranked[k].qos == Guaranteed ==> QosOf(p) == Guaranteed)
            && (ranked[k].qos == Burstable ==> QosOf(p) != BestEffort)
            && (ranked[k].qos == QosOf(p) ==> ranked[k].usage >= CandidateOf(p, usage, reason).usage)
            && exists q :: q in pods && Considered(q, reason) && ranked[k] == CandidateOf(q, usage, reason)
  {
    var c := CandidateOf(p, usage, reason);
    RankedMember(ranked, pods, usage, reason, c);
    var j :| 0 <= j < |ranked| && ranked[j] == c;
    assert readings[0] <= readings[j];
    var k := Pick(last, ranked, readings, 0);
    assert k <= j;
    RankedMember(ranked, pods, usage, reason, ranked[k]);
  }

  /** Disk a pod uses as far as it is known, and memory. */
  function DiskOf(uid: string, usage: map<string, PodUsage>): nat {
    if uid in usage then usage[uid].disk else 0
  }

  function MemoryOf(uid: string, usage: map<string, PodUsage>): nat {
    if uid in usage then usage[uid].memory else 0
  }

  /** Any pod may be picked for disk, and none of its class outside its cool-down uses more disk. */
  lemma DiskPickUsesMost(last: LastEvictions, ranked: seq<Candidate>, readings: seq<real>, pods: seq<Pod>,
                         usage: map<string, PodUsage>, p: Pod) returns (q: Pod)
    requires IsRanking(ranked, pods, usage, DiskPressure) && Readings(readings, |ranked|)
    requires p in pods && !Cooling(last, p.uid, readings[0])
    ensures var k := Pick(last, ranked, readings, 0);
            && k < |ranked| && q in pods && ranked[k].uid == q.uid && ranked[k].qos == QosOf(q)
            && (QosOf(q) == QosOf(p) ==> DiskOf(q.uid, usage) >= DiskOf(p.uid, usage))
    ensures p.uid in usage && q.uid in usage && QosOf(q) == QosOf(p) ==> usage[q.uid].disk >= usage[p.uid].disk
  {
    PickIsRankMinimal(last, ranked, readings, pods, usage, DiskPressure, p);
    var k := Pick(last, ranked, readings, 0);
    q :| q in pods && Considered(q, DiskPressure) && ranked[k] == CandidateOf(q, usage, DiskPressure);
  }

  /** A pod that never restarts is not picked for memory; of the others none outside its cool-down uses more. */
  lemma MemoryPickUsesMost(last: LastEvictions, ranked: seq<Candidate>, readings: seq<real>, pods: seq<Pod>,
                           usage: map<string, PodUsage>, p: Pod) returns (q: Pod)
    requires IsRanking(ranked, pods, usage, MemoryPressure) && Readings(readings, |ranked|)
    requires p in pods && p.restartPolicy != Never && !Cooling(last, p.uid, readings[0])
    ensures var k := Pick(last, ranked, readings, 0);
            && k < |ranked| && q in pods && ranked[k].uid == q.uid && ranked[k].qos == QosOf(q)
            && q.restartPolicy != Never
            && (QosOf(q) == QosOf(p) ==> MemoryOf(q.uid, usage) >= MemoryOf(p.uid, usage))
    ensures p.uid in usage && q.uid in usage && QosOf(q) == QosOf(p) ==> usage[q.uid].memory >= usage[p.uid].memory
  {
    PickIsRankMinimal(last, ranked, readings, pods, usage, MemoryPressure, p);
    var k := Pick(last, ranked, readings, 0);
    q :| q in pods && Considered(q, MemoryPressure) && ranked[k] == CandidateOf(q, usage, MemoryPressure);
  }

  /** Without an override the grace period is 30 seconds for Guaranteed, 10 for Burstable and none for BestEffort. */
  lemma GracePeriods(last: LastEvictions, ranked: seq<Candidate>, readings: seq<real>, pods: seq<Pod>,
                     usage: map<string, PodUsage>, reason: Reason, override: Option<real>, d: Decision)
    requires IsRanking(ranked, pods, usage, reason) && Readings(readings, |ranked|)
    requires Chosen(last, ranked, readings, reason, override) == [d]
    ensures d.reason == reason
    ensures exists q :: q in pods && q.uid == d.uid && d.gracePeriod ==
              if override.Some? then override.value
              else if QosOf(q) == Guaranteed then 30.0 else if QosOf(q) == Burstable then 10.0 else 0.0
  {
    var k := Pick(last, ranked, readings, 0);
    assert k < |ranked| && d == [d][0];
    RankedMember(ranked, pods, usage, reason, ranked[k]);
    var q :| q in pods && Considered(q, reason) && ranked[k] == CandidateOf(q, usage, reason);
  }

  // -- Runs of picks -----------------------------------------------------------

  /** One pick: a memory or a disk pick of some evaluation, with the ranking and readings it used. */
  datatype PickEvent = PickEvent(ranked: seq<Candidate>, readings: seq<real>) {
    predicate Valid() {
      Readings(readings, |ranked|)
    }
  }

  /** An eviction and its stamp. */
  datatype Entry = Entry(uid: string, at: real)

  predicate AllValid(run: seq<PickEvent>) {
    forall i :: 0 <= i < |run| ==> run[i].Valid()
  }

  function Table(run: seq<PickEvent>): LastEvictions
    requires AllValid(run)
    decreases |run|
  {
    if run == [] then map[]
    else AfterPick(Table(run[..|run| - 1]), run[|run| - 1].ranked, run[|run| - 1].readings)
  }

  /** Every eviction of the run, in order. */
  function Log(run: seq<PickEvent>): seq<Entry>
    requires AllValid(run)
    decreases |run|
  {
    if run == [] then []
    else
      var front, e := run[..|run| - 1], run[|run| - 1];
      var k := Pick(Table(front), e.ranked, e.readings, 0);
      if k < |e.ranked| then Log(front) + [Entry(e.ranked[k].uid, e.readings[k + 1])] else Log(front)
  }

  predicate Spaced(log: seq<Entry>) {
    forall i, j :: 0 <= i < j < |log| && log[i].uid == log[j].uid ==> log[j].at - log[i].at >= 30.0
  }

  predicate TableIsLatest(table: LastEvictions, log: seq<Entry>) {
    forall i :: 0 <= i < |log| ==> log[i].uid in table && log[i].at <= table[log[i].uid]
  }

  /** Two evictions of one pod are at least the reclaim period apart, in one evaluation or in many. */
  lemma {:induction false} EvictionsAreSpaced(run: seq<PickEvent>)
    requires AllValid(run)
    ensures Spaced(Log(run)) && TableIsLatest(Table(run), Log(run))
    decreases |run|
  {
    if run != [] {
      var front, e := run[..|run| - 1], run[|run| - 1];
      EvictionsAreSpaced(front);
      var table := Table(front);
      var k := Pick(table, e.ranked, e.readings, 0);
      if k < |e.ranked| {
        assert e.readings[k] <= e.readings[k + 1];
        LogGrows(table, Log(front), Entry(e.ranked[k].uid, e.readings[k + 1]));
      }
    }
  }

  /** The table holds the stamp of the last eviction of each pod, and of no other. */
  lemma {:induction false} TableWasLogged(run: seq<PickEvent>, uid: string) returns (i: nat)
    requires AllValid(run) && uid in Table(run)
    ensures i < |Log(run)| && Log(run)[i] == Entry(uid, Table(run)[uid])
    decreases |run|
  {
    var front, e := run[..|run| - 1], run[|run| - 1];
    var k := Pick(Table(front), e.ranked, e.readings, 0);
    if k < |e.ranked| && e.ranked[k].uid == uid {
      i := |Log(front)|;
    } else {
      i := TableWasLogged(front, uid);
    }
  }

  /** A candidate that a pick passes over was evicted less than 30 seconds before. */
  lemma SkippedWasEvicted(run: seq<PickEvent>, e: PickEvent, i: nat) returns (j: nat)
    requires AllValid(run) && e.Valid() && i < Pick(Table(run), e.ranked, e.readings, 0)
    ensures j < |Log(run)| && Log(run)[j].uid == e.ranked[i].uid && e.readings[i] - Log(run)[j].at < 30.0
  {
    j := TableWasLogged(run, e.ranked[i].uid);
  }

  lemma LogGrows(table: LastEvictions, log: seq<Entry>, e: Entry)
    requires Spaced(log) && TableIsLatest(table, log)
    requires e.uid in table ==> e.at - table[e.uid] >= RECLAIM
    ensures Spaced(log + [e]) && TableIsLatest(table[e.uid := e.at], log + [e])
  {
  }

  // -- The loop ----------------------------------------------------------------

  /** What one turn of the eviction loop sees. */
  datatype Round = Round(resources: Resources, pods: seq<Pod>, usage: map<string, PodUsage>,
                         t1: seq<real>, t2: seq<real>) {
    predicate Valid() {
      Readings(t1, |pods|) && Readings(t2, |pods|)
    }
  }

  predicate AllRoundsValid(rounds: seq<Round>) {
    forall i :: 0 <= i < |rounds| ==> rounds[i].Valid()
  }

  /** Some hard threshold for the reason's resource is exceeded. */
  predicate Pressed(hard: seq<Threshold>, r: Resources, reason: Reason) {
    match reason
    case MemoryPressure => AnyExceeded(hard, "memory.available", r.availableMemory, r.totalMemory)
    case DiskPressure => AnyExceeded(hard, "nodefs.available", r.availableDisk, r.totalDisk)
  }

  /** The pick of a round for one reason: the round's pods ranked under pressure and nothing otherwise, at its times. */
  predicate IsPickOf(hard: seq<Threshold>, r: Round, reason: Reason, e: PickEvent)
    requires r.Valid()
  {
    var times := if reason.MemoryPressure? then r.t1 else r.t2;
    && (if Pressed(hard, r.resources, reason) then IsRanking(e.ranked, r.pods, r.usage, reason) else e.ranked == [])
    && |e.ranked| <= |r.pods|
    && e.readings == times[..|e.ranked| + 1]
  }

  /** Even picks are for memory, odd ones for disk. */
  function ReasonAt(j: nat): Reason {
    if j % 2 == 0 then MemoryPressure else DiskPressure
  }

  /** The picks are the two of each round, in order. */
  predicate RunOf(hard: seq<Threshold>, rounds: seq<Round>, run: seq<PickEvent>) {
    && AllRoundsValid(rounds)
    && |run| == 2 * |rounds|
    && forall j :: 0 <= j < |run| ==> IsPickOf(hard, rounds[j / 2], ReasonAt(j), run[j])
  }

  lemma RunExtends(hard: seq<Threshold>, rounds: seq<Round>, run: seq<PickEvent>, r: Round,
                   e1: PickEvent, e2: PickEvent)
    requires RunOf(hard, rounds, run) && r.Valid()
    requires IsPickOf(hard, r, MemoryPressure, e1) && IsPickOf(hard, r, DiskPressure, e2)
    ensures RunOf(hard, rounds + [r], run + [e1] + [e2])
  {
    var n := |rounds|;
    assert (2 * n) / 2 == n && (2 * n + 1) / 2 == n;
    forall j | 0 <= j < |run| + 2
      ensures IsPickOf(hard, (rounds + [r])[j / 2], ReasonAt(j), (run + [e1] + [e2])[j])
    {
      if j < |run| {
        assert j / 2 < n;
      }
    }
  }

  /**
   The pick takes a pod outside its cool-down that may be evicted for the reason, and if any such
   pod was outside its own when the pick began it takes one, and nobody of them ranks before it.
   */
  ghost predicate PicksLowestRank(last: LastEvictions, e: PickEvent, r: Round, reason: Reason)
    requires e.Valid()
  {
    var k := Pick(last, e.ranked, e.readings, 0);
    && (k < |e.ranked| ==>
          && !Cooling(last, e.ranked[k].uid, e.readings[k])
          && exists q :: q in r.pods && Considered(q, reason) && e.ranked[k] == CandidateOf(q, r.usage, reason))
    && forall p :: p in r.pods && Considered(p, reason) && !Cooling(last, p.uid, e.readings[0]) ==>
         k < |e.ranked| && NotAfter(e.ranked[k], CandidateOf(p, r.usage, reason))
  }

  lemma RankingPicksLowest(last: LastEvictions, e: PickEvent, r: Round, reason: Reason)
    requires e.Valid() && IsRanking(e.ranked, r.pods, r.usage, reason)
    ensures PicksLowestRank(last, e, r, reason)
  {
    var k := Pick(last, e.ranked, e.readings, 0);
    if k < |e.ranked| {
      RankedMember(e.ranked, r.pods, r.usage, reason, e.ranked[k]);
    }
    forall p | p in r.pods && Considered(p, reason) && !Cooling(last, p.uid, e.readings[0])
      ensures k < |e.ranked| && NotAfter(e.ranked[k], CandidateOf(p, r.usage, reason))
    {
      PickIsRankMinimal(last, e.ranked, e.readings, r.pods, r.usage, reason, p);
    }
  }

  /** Every pick under pressure takes a lowest-ranked pod, given the evictions before it; others take none. */
  ghost predicate EveryPickIsLowest(hard: seq<Threshold>, rounds: seq<Round>, run: seq<PickEvent>)
    requires AllValid(run) && |run| == 2 * |rounds|
  {
    forall j :: 0 <= j < |run| ==>
      if Pressed(hard, rounds[j / 2].resources, ReasonAt(j))
      then PicksLowestRank(Table(run[..j]), run[j], rounds[j / 2], ReasonAt(j))
      else run[j].ranked == []
  }

  lemma RunPicksLowest(hard: seq<Threshold>, rounds: seq<Round>, run: seq<PickEvent>)
    requires RunOf(hard, rounds, run) && AllValid(run)
    ensures EveryPickIsLowest(hard, rounds, run)
  {
    forall j | 0 <= j < |run| && Pressed(hard, rounds[j / 2].resources, ReasonAt(j))
      ensures PicksLowestRank(Table(run[..j]), run[j], rounds[j / 2], ReasonAt(j))
    {
      assert IsPickOf(hard, rounds[j / 2], ReasonAt(j), run[j]);
      RankingPicksLowest(Table(run[..j]), run[j], rounds[j / 2], ReasonAt(j));
    }
  }

  /** The pick takes a pod of the class. */
  predicate PicksClass(last: LastEvictions, e: PickEvent, q: Qos)
    requires e.Valid()
  {
    var k := Pick(last, e.ranked, e.readings, 0);
    k < |e.ranked| && e.ranked[k].qos == q
  }

  /** A candidate of the class is outside its cool-down at its own reading, and all of lower classes are inside. */
  predicate ClassIsNext(last: LastEvictions, e: PickEvent, q: Qos)
    requires e.Valid()
  {
    && (exists i :: 0 <= i < |e.ranked| && e.ranked[i].qos == q && !Cooling(last, e.ranked[i].uid, e.readings[i]))
    && (forall i :: 0 <= i < |e.ranked| && Priority(e.ranked[i].qos) < Priority(q) ==>
          Cooling(last, e.ranked[i].uid, e.readings[i]))
  }

  /** Which class is evicted: for either reason the lowest that has a candidate left, Guaranteed included. */
  lemma PicksClassIff(last: LastEvictions, e: PickEvent, q: Qos)
    requires e.Valid() && Ranked(e.ranked)
    ensures PicksClass(last, e, q) <==> ClassIsNext(last, e, q)
  {
    var k := Pick(last, e.ranked, e.readings, 0);
    if ClassIsNext(last, e, q) {
      var i :| 0 <= i < |e.ranked| && e.ranked[i].qos == q && !Cooling(last, e.ranked[i].uid, e.readings[i]);
      assert k <= i;
    }
  }

  /** Every pick of the run takes a pod of a class exactly when that class is next. */
  ghost predicate EveryPickIsNext(run: seq<PickEvent>)
    requires AllValid(run)
  {
    forall j, q :: 0 <= j < |run| ==>
      (PicksClass(Table(run[..j]), run[j], q) <==> ClassIsNext(Table(run[..j]), run[j], q))
  }

  lemma RunPicksNext(hard: seq<Threshold>, rounds: seq<Round>, run: seq<PickEvent>)
    requires RunOf(hard, rounds, run) && AllValid(run)
    ensures EveryPickIsNext(run)
  {
    forall j, q | 0 <= j < |run|
      ensures PicksClass(Table(run[..j]), run[j], q) <==> ClassIsNext(Table(run[..j]), run[j], q)
    {
      assert IsPickOf(hard, rounds[j / 2], ReasonAt(j), run[j]);
      PicksClassIff(Table(run[..j]), run[j], q);
    }
  }

  /**
   The disk pick of a round evicts a Guaranteed pod exactly when the disk is under pressure and, of
   all the round's pods, a Guaranteed one is outside its cool-down and every other class is inside.
   */
  lemma GuaranteedDiskPickIff(hard: seq<Threshold>, rounds: seq<Round>, run: seq<PickEvent>, i: nat)
    requires RunOf(hard, rounds, run) && AllValid(run) && i < |rounds|
    ensures var last, e := Table(run[..2 * i + 1]), run[2 * i + 1];
            && (PicksClass(last, e, Guaranteed) <==>
                Pressed(hard, rounds[i].resources, DiskPressure) && ClassIsNext(last, e, Guaranteed))
            && (Pressed(hard, rounds[i].resources, DiskPressure) ==>
                IsRanking(e.ranked, rounds[i].pods, rounds[i].usage, DiskPressure))
  {
    var j := 2 * i + 1;
    assert j / 2 == i && ReasonAt(j) == DiskPressure;
    assert IsPickOf(hard, rounds[j / 2], ReasonAt(j), run[j]);
    PicksClassIff(Table(run[..j]), run[j], Guaranteed);
  }

  function UidsOf(log: seq<Entry>): (uids: seq<string>)
    ensures |uids| == |log| && forall i :: 0 <= i < |log| ==> uids[i] == log[i].uid
  {
    seq(|log|, i requires 0 <= i < |log| => log[i].uid)
  }

  lemma PickExtends(run: seq<PickEvent>, e: PickEvent, reason: Reason, override: Option<real>)
    requires AllValid(run) && e.Valid()
    ensures AllValid(run + [e])
    ensures Table(run + [e]) == AfterPick(Table(run), e.ranked, e.readings)
    ensures UidsOf(Log(run + [e]))
         == UidsOf(Log(run)) + DecidedUids(Chosen(Table(run), e.ranked, e.readings, reason, override))
  {
    assert (run + [e])[..|run|] == run;
  }

  lemma TwoPicksExtend(run: seq<PickEvent>, e1: PickEvent, e2: PickEvent, override: Option<real>, ds: seq<Decision>,
                       after: LastEvictions)
    requires AllValid(run) && e1.Valid() && e2.Valid() && TwoPicks(Table(run), after, ds, override, e1, e2)
    ensures AllValid(run + [e1] + [e2])
    ensures Table(run + [e1] + [e2]) == after
    ensures UidsOf(Log(run + [e1] + [e2])) == UidsOf(Log(run)) + DecidedUids(ds)
  {
    var middle := AfterPick(Table(run), e1.ranked, e1.readings);
    PickExtends(run, e1, MemoryPressure, override);
    PickExtends(run + [e1], e2, DiskPressure, override);
    ConcatUids(Chosen(Table(run), e1.ranked, e1.readings, MemoryPressure, override),
               Chosen(middle, e2.ranked, e2.readings, DiskPressure, override), UidsOf(Log(run)));
  }

  lemma ConcatUids(a: seq<Decision>, b: seq<Decision>, before: seq<string>)
    ensures before + DecidedUids(a + b) == before + DecidedUids(a) + DecidedUids(b)
  {
  }

  function DecidedUids(ds: seq<Decision>): (uids: seq<string>)
    ensures |uids| == |ds| && forall i :: 0 <= i < |ds| ==> uids[i] == ds[i].uid
  {
    seq(|ds|, i requires 0 <= i < |ds| => ds[i].uid)
  }

  /** The run of picks that the rounds so far made, with the table and the evictions it leads to. */
  ghost predicate Explains(hard: seq<Threshold>, rounds: seq<Round>, run: seq<PickEvent>, last: LastEvictions,
                           evicted: seq<string>)
  {
    && RunOf(hard, rounds, run)
    && AllValid(run)
    && last == Table(run)
    && evicted == UidsOf(Log(run))
  }

  lemma RoundExtends(hard: seq<Threshold>, rounds: seq<Round>, run: seq<PickEvent>, last: LastEvictions,
                     evicted: seq<string>, r: Round, e1: PickEvent, e2: PickEvent, ds: seq<Decision>,
                     override: Option<real>, after: LastEvictions)
    requires Explains(hard, rounds, run, last, evicted) && r.Valid()
    requires IsPickOf(hard, r, MemoryPressure, e1) && IsPickOf(hard, r, DiskPressure, e2)
    requires e1.Valid() && e2.Valid() && TwoPicks(last, after, ds, override, e1, e2)
    ensures Explains(hard, rounds + [r], run + [e1] + [e2], after, evicted + DecidedUids(ds))
  {
    RunExtends(hard, rounds, run, r, e1, e2);
    TwoPicksExtend(run, e1, e2, override, ds, after);
  }

  lemma PicksOfRound(hard: seq<Threshold>, r: Round, first: seq<Candidate>, second: seq<Candidate>)
    requires r.Valid() && |first| <= |r.pods| && |second| <= |r.pods|
    requires if Pressed(hard, r.resources, MemoryPressure)
             then IsRanking(first, r.pods, r.usage, MemoryPressure) else first == []
    requires if Pressed(hard, r.resources, DiskPressure)
             then IsRanking(second, r.pods, r.usage, DiskPressure) else second == []
    ensures var e1, e2 := PickEvent(first, r.t1[..|first| + 1]), PickEvent(second, r.t2[..|second| + 1]);
            && e1.Valid() && IsPickOf(hard, r, MemoryPressure, e1)
            && e2.Valid() && IsPickOf(hard, r, DiskPressure, e2)
  {
  }

  /** One turn of the loop is two picks, the second seeing the first's stamp. */
  method Turn(m: EvictionManager, r: Round, evicted: seq<string>, ghost rounds: seq<Round>, ghost run: seq<PickEvent>)
    returns (more: seq<string>, ghost longer: seq<PickEvent>)
    requires r.Valid() && Explains(m.evaluator.hard, rounds, run, m.lastEvictions, evicted)
    modifies m
    ensures Explains(m.evaluator.hard, rounds + [r], longer, m.lastEvictions, more)
  {
    ghost var last := m.lastEvictions;
    var decisions;
    ghost var first, second;
    decisions, first, second := m.Evaluate(r.resources, r.pods, r.usage, r.t1, r.t2);
    ghost var e1, e2 := PickEvent(first, r.t1[..|first| + 1]), PickEvent(second, r.t2[..|second| + 1]);
    PicksOfRound(m.evaluator.hard, r, first, second);
    RoundExtends(m.evaluator.hard, rounds, run, last, evicted, r, e1, e2, decisions, m.graceOverride,
                 m.lastEvictions);
    more := evicted + DecidedUids(decisions);
    longer := run + [e1] + [e2];
  }

  /**
   Any number of turns of the loop, with the two picks of each.  The pods evicted are those the
   picks take, every pick takes a lowest-ranked pod of the class that is next, and two evictions of
   one pod are at least the reclaim period apart, in one evaluation (memory, then disk) or in many.
   */
  method EvictionLoop(m: EvictionManager, rounds: seq<Round>) returns (evicted: seq<string>, ghost run: seq<PickEvent>)
    requires m.lastEvictions == map[] && AllRoundsValid(rounds)
    modifies m
    ensures Explains(m.evaluator.hard, rounds, run, m.lastEvictions, evicted)
    ensures EveryPickIsLowest(m.evaluator.hard, rounds, run) && EveryPickIsNext(run)
    ensures Spaced(Log(run))
  {
    evicted, run := [], [];
    for i := 0 to |rounds|
      invariant Explains(m.evaluator.hard, rounds[..i], run, m.lastEvictions, evicted)
    {
      assert rounds[..i + 1] == rounds[..i] + [rounds[i]];
      evicted, run := Turn(m, rounds[i], evicted, rounds[..i], run);
    }
    assert rounds[..|rounds|] == rounds;
    RunPicksLowest(m.evaluator.hard, rounds, run);
    RunPicksNext(m.evaluator.hard, rounds, run);
    EvictionsAreSpaced(run);
  }
}
