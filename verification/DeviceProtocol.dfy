/**
 Every interleaving of the device manager's locked sections.  An `allocate` call is a Begin
 followed by a Fail or a Commit; a `deallocate_pod` call is a StartRelease followed by a
 FinishRelease, holding the pod-table lock in between.
 */
module DeviceProtocol {
  import opened Wrappers
  import opened DeviceManager

  /** Device ids reserved for one container under one resource. */
  datatype Claim = Claim(pod: string, container: string, resource: string, ids: seq<string>) {
    function Key(): string {
      AllocationKey(pod, container)
    }

    /** Both claims are kept in one entry of an endpoint table. */
    predicate SameEntry(other: Claim) {
      resource == other.resource && Key() == other.Key()
    }
  }

  datatype Release = Release(pod: string, containers: Containers)

  /** The two locked tables, the calls between Begin and Fail/Commit, and the release under way. */
  datatype State = State(plugins: Plugins, pods: PodTable, inFlight: map<nat, Claim>, releasing: Option<Release>) {
    /** Everything committed and not yet released. */
    function Records(): PodTable {
      match releasing
      case None => pods
      case Some(rel) => pods[rel.pod := rel.containers]
    }
  }

  const INIT := State(map[], map[], map[], None)

  datatype Event =
    | Register(resource: string, socketPath: string)
    | Update(resource: string, devices: seq<Device>)
    | Begin(call: nat, pod: string, container: string, resource: string, count: nat)
    | Fail(call: nat)
    | Commit(call: nat)
    | StartRelease(pod: string)
    | FinishRelease

  /** Call ids name running calls; Commit and StartRelease wait for the pod-table lock. */
  predicate Enabled(s: State, e: Event) {
    match e
    case Register(_, _) => true
    case Update(_, _) => true
    case Begin(call, _, _, _, _) => call !in s.inFlight
    case Fail(call) => call in s.inFlight
    case Commit(call) => call in s.inFlight && s.releasing.None?
    case StartRelease(_) => s.releasing.None?
    case FinishRelease => s.releasing.Some?
  }

  function Next(s: State, e: Event): State
    requires Enabled(s, e)
  {
    match e
    case Register(resource, socketPath) => s.(plugins := Registered(s.plugins, resource, socketPath))
    case Update(resource, devices) => s.(plugins := Updated(s.plugins, resource, devices))
    case Begin(call, pod, container, resource, count) =>
      (match Reservable(s.plugins, resource, count)
       case None => s
       case Some(ids) =>
         s.(plugins := WithEntry(s.plugins, resource, AllocationKey(pod, container), ids),
            inFlight := s.inFlight[call := Claim(pod, container, resource, ids)]))
    case Fail(call) =>
      var c := s.inFlight[call];
      s.(plugins := WithoutEntry(s.plugins, c.resource, c.Key()), inFlight := s.inFlight - {call})
    case Commit(call) =>
      var c := s.inFlight[call];
      s.(pods := Recorded(s.pods, c.pod, c.container, c.resource, c.ids), inFlight := s.inFlight - {call})
    case StartRelease(pod) =>
      if pod in s.pods then s.(pods := s.pods - {pod}, releasing := Some(Release(pod, s.pods[pod]))) else s
    case FinishRelease =>
      var rel := s.releasing.value;
      s.(plugins := Released(s.plugins, rel.pod, rel.containers), releasing := None)
  }

  // -- What is held ------------------------------------------------------------

  predicate InTable(pods: PodTable, c: Claim) {
    && c.pod in pods
    && c.container in pods[c.pod]
    && c.resource in pods[c.pod][c.container]
    && pods[c.pod][c.container][c.resource] == c.ids
  }

  ghost predicate Running(s: State, c: Claim) {
    exists call :: call in s.inFlight && s.inFlight[call] == c
  }

  ghost predicate Live(s: State, c: Claim) {
    Running(s, c) || InTable(s.Records(), c)
  }

  /** No device of a resource is held by two different containers. */
  ghost predicate Exclusive(s: State) {
    forall c1, c2, d :: Live(s, c1) && Live(s, c2) && c1.resource == c2.resource && d in c1.ids && d in c2.ids
      ==> c1.pod == c2.pod && c1.container == c2.container
  }

  // -- The hypotheses ----------------------------------------------------------

  /**
   What must hold of the endpoint table when a section is entered: no resource is registered
   again while its table has entries, and no reservation is made under a key the table has.
   */
  predicate Allowed(s: State, e: Event) {
    match e
    case Register(resource, _) => resource in s.plugins ==> s.plugins[resource].allocations == map[]
    case Begin(_, pod, container, resource, count) =>
      Reservable(s.plugins, resource, count).Some? ==>
        AllocationKey(pod, container) !in s.plugins[resource].allocations
    case _ => true
  }

  // -- The invariant -----------------------------------------------------------

  ghost predicate Backed(plugins: Plugins, c: Claim) {
    && c.resource in plugins
    && c.Key() in plugins[c.resource].allocations
    && plugins[c.resource].allocations[c.Key()] == c.ids
  }

  ghost predicate Owned(s: State, resource: string, key: string) {
    exists c :: Live(s, c) && c.resource == resource && c.Key() == key
  }

  /** Every live claim is in the endpoint table with exactly its ids ... */
  ghost predicate Covered(s: State) {
    forall c :: Live(s, c) ==> Backed(s.plugins, c)
  }

  /** ... the table holds nothing else ... */
  ghost predicate NoOrphans(s: State) {
    forall r, k :: r in s.plugins && k in s.plugins[r].allocations ==> Owned(s, r, k)
  }

  ghost predicate DisjointTable(al: Table) {
    forall k1, k2, d :: k1 in al && k2 in al && k1 != k2 && d in al[k1] ==> d !in al[k2]
  }

  /** ... and different entries of a resource share no device. */
  ghost predicate DisjointEntries(s: State) {
    forall r :: r in s.plugins ==> DisjointTable(s.plugins[r].allocations)
  }

  ghost predicate TablesExact(s: State) {
    Covered(s) && NoOrphans(s) && DisjointEntries(s)
  }

  /** No two claims share an entry. */
  ghost predicate OneClaimPerEntry(s: State) {
    && (forall i, j :: i in s.inFlight && j in s.inFlight && i != j ==> !s.inFlight[i].SameEntry(s.inFlight[j]))
    && (forall i, c :: i in s.inFlight && InTable(s.Records(), c) ==> !s.inFlight[i].SameEntry(c))
    && (forall c1, c2 :: InTable(s.Records(), c1) && InTable(s.Records(), c2) && c1.SameEntry(c2) ==> c1 == c2)
  }

  ghost predicate LockHeld(s: State) {
    s.releasing.Some? ==> s.releasing.value.pod !in s.pods
  }

  ghost predicate Inv(s: State) {
    TablesExact(s) && OneClaimPerEntry(s) && LockHeld(s)
  }

  lemma InvInit()
    ensures Inv(INIT)
  {
  }

  lemma InvImpliesExclusive(s: State)
    requires Inv(s)
    ensures Exclusive(s)
  {
    forall c1, c2, d | Live(s, c1) && Live(s, c2) && c1.resource == c2.resource && d in c1.ids && d in c2.ids
      ensures c1.pod == c2.pod && c1.container == c2.container
    {
      assert Backed(s.plugins, c1) && Backed(s.plugins, c2);
      assert c1.Key() == c2.Key();
      SameEntrySameClaim(s, c1, c2);
    }
  }

  lemma SameEntrySameClaim(s: State, c1: Claim, c2: Claim)
    requires OneClaimPerEntry(s) && Live(s, c1) && Live(s, c2) && c1.SameEntry(c2)
    ensures c1 == c2
  {
  }

  // -- One lemma per step ------------------------------------------------------

  /** Sections that touch only the plugin map leave every claim as it was. */
  lemma SameClaims(s: State, t: State)
    requires t.inFlight == s.inFlight && t.Records() == s.Records()
    ensures forall c :: Live(t, c) <==> Live(s, c)
    ensures forall r, k :: Owned(t, r, k) <==> Owned(s, r, k)
    ensures OneClaimPerEntry(t) <==> OneClaimPerEntry(s)
  {
  }

  lemma RegisterKeepsInv(s: State, e: Event)
    requires Inv(s) && e.Register? && Allowed(s, e)
    ensures Inv(Next(s, e))
  {
    var t := Next(s, e);
    SameClaims(s, t);
    forall c | Live(t, c)
      ensures Backed(t.plugins, c)
    {
      assert Live(s, c) && Backed(s.plugins, c);
    }
  }

  lemma UpdateKeepsInv(s: State, e: Event)
    requires Inv(s) && e.Update?
    ensures Inv(Next(s, e))
  {
    var t := Next(s, e);
    SameClaims(s, t);
    assert forall r :: r in t.plugins <==> r in s.plugins;
    assert forall r :: r in s.plugins ==> t.plugins[r].allocations == s.plugins[r].allocations;
    forall c | Live(t, c)
      ensures Backed(t.plugins, c)
    {
      assert Live(s, c) && Backed(s.plugins, c);
    }
  }

  lemma BeginAddsClaim(s: State, e: Event, ids: seq<string>)
    requires e.Begin? && Enabled(s, e) && Reservable(s.plugins, e.resource, e.count) == Some(ids)
    ensures var taken := Claim(e.pod, e.container, e.resource, ids);
            forall c :: Live(Next(s, e), c) <==> Live(s, c) || c == taken
  {
    var t, taken := Next(s, e), Claim(e.pod, e.container, e.resource, ids);
    assert t.inFlight[e.call] == taken && t.Records() == s.Records();
    forall c
      ensures Live(t, c) <==> Live(s, c) || c == taken
    {
      if Running(s, c) {
        var i :| i in s.inFlight && s.inFlight[i] == c;
        assert t.inFlight[i] == c;
      }
    }
  }

  lemma BeginKeepsEntries(s: State, e: Event)
    requires Inv(s) && e.Begin? && Enabled(s, e) && Allowed(s, e) && Reservable(s.plugins, e.resource, e.count).Some?
    ensures OneClaimPerEntry(Next(s, e))
  {
    var t := Next(s, e);
    var taken := t.inFlight[e.call];
    assert t.Records() == s.Records();
    forall c | Live(s, c)
      ensures !taken.SameEntry(c) && !c.SameEntry(taken)
    {
      assert Backed(s.plugins, c);
    }
    forall i | i in s.inFlight
      ensures !taken.SameEntry(s.inFlight[i])
    {
      assert Running(s, s.inFlight[i]) && Live(s, s.inFlight[i]);
    }
  }

  lemma BeginKeepsTable(s: State, e: Event, ids: seq<string>)
    requires Inv(s) && e.Begin? && Enabled(s, e) && Allowed(s, e)
    requires Reservable(s.plugins, e.resource, e.count) == Some(ids)
    ensures Covered(Next(s, e)) && NoOrphans(Next(s, e))
  {
    var t, taken := Next(s, e), Claim(e.pod, e.container, e.resource, ids);
    BeginAddsClaim(s, e, ids);
    forall c | Live(t, c)
      ensures Backed(t.plugins, c)
    {
      assert c != taken ==> Backed(s.plugins, c);
    }
    forall r, k | r in t.plugins && k in t.plugins[r].allocations
      ensures Owned(t, r, k)
    {
      if r == e.resource && k == taken.Key() {
        assert Live(t, taken);
      } else {
        assert Owned(s, r, k);
        var c :| Live(s, c) && c.resource == r && c.Key() == k;
        assert Live(t, c);
      }
    }
  }

  lemma BeginKeepsInv(s: State, e: Event)
    requires Inv(s) && e.Begin? && Enabled(s, e) && Allowed(s, e)
    ensures Inv(Next(s, e))
  {
    match Reservable(s.plugins, e.resource, e.count)
    case None =>
    case Some(ids) =>
      BeginKeepsEntries(s, e);
      BeginKeepsTable(s, e, ids);
      assert forall d :: d in ids ==> d !in Allocated(s.plugins[e.resource].allocations);
      assert DisjointTable(Next(s, e).plugins[e.resource].allocations);
  }

  lemma FailDropsClaim(s: State, e: Event)
    requires Inv(s) && e.Fail? && Enabled(s, e)
    ensures forall c :: Live(Next(s, e), c) <==> Live(s, c) && c != s.inFlight[e.call]
  {
    var t, gone := Next(s, e), s.inFlight[e.call];
    assert t.Records() == s.Records();
    forall c
      ensures Live(t, c) <==> Live(s, c) && c != gone
    {
      if Running(s, c) && c != gone {
        var i :| i in s.inFlight && s.inFlight[i] == c;
        assert t.inFlight[i] == c;
      }
    }
  }

  lemma FailKeepsInv(s: State, e: Event)
    requires Inv(s) && e.Fail? && Enabled(s, e)
    ensures Inv(Next(s, e))
  {
    var t, gone := Next(s, e), s.inFlight[e.call];
    FailDropsClaim(s, e);
    assert t.Records() == s.Records();
    assert Running(s, gone) && Live(s, gone);
    forall c | Live(t, c)
      ensures Backed(t.plugins, c)
    {
      assert Backed(s.plugins, c) && Backed(s.plugins, gone);
      if c.resource == gone.resource && c.Key() == gone.Key() {
        SameEntrySameClaim(s, c, gone);
      }
    }
    forall r, k | r in t.plugins && k in t.plugins[r].allocations
      ensures Owned(t, r, k)
    {
      assert Owned(s, r, k);
      var c :| Live(s, c) && c.resource == r && c.Key() == k;
      assert Live(t, c);
    }
  }

  lemma RecordedAddsClaim(pods: PodTable, done: Claim)
    requires forall c :: InTable(pods, c) ==> !done.SameEntry(c)
    ensures forall c :: InTable(Recorded(pods, done.pod, done.container, done.resource, done.ids), c)
                   <==> InTable(pods, c) || c == done
  {
    assert [] + done.ids == done.ids;
    if done.pod in pods && done.container in pods[done.pod] && done.resource in pods[done.pod][done.container] {
      var prior := Claim(done.pod, done.container, done.resource, pods[done.pod][done.container][done.resource]);
      assert InTable(pods, prior) && done.SameEntry(prior);
      assert false;
    }
  }

  lemma CommitKeepsClaims(s: State, e: Event)
    requires Inv(s) && e.Commit? && Enabled(s, e)
    ensures forall c :: Live(Next(s, e), c) <==> Live(s, c)
    ensures forall c :: InTable(Next(s, e).Records(), c) <==> InTable(s.Records(), c) || c == s.inFlight[e.call]
  {
    var t, done := Next(s, e), s.inFlight[e.call];
    assert Running(s, done);
    assert s.Records() == s.pods && t.Records() == t.pods;
    RecordedAddsClaim(s.pods, done);
    forall c
      ensures Live(t, c) <==> Live(s, c)
    {
      if Running(s, c) && c != done {
        var i :| i in s.inFlight && s.inFlight[i] == c;
        assert t.inFlight[i] == c;
      }
    }
  }

  lemma CommitKeepsInv(s: State, e: Event)
    requires Inv(s) && e.Commit? && Enabled(s, e)
    ensures Inv(Next(s, e))
  {
    var t := Next(s, e);
    CommitKeepsClaims(s, e);
    forall r, k | r in t.plugins && k in t.plugins[r].allocations
      ensures Owned(t, r, k)
    {
      assert Owned(s, r, k);
      var c :| Live(s, c) && c.resource == r && c.Key() == k;
      assert Live(t, c);
    }
  }

  lemma StartReleaseKeepsInv(s: State, e: Event)
    requires Inv(s) && e.StartRelease? && Enabled(s, e)
    ensures Inv(Next(s, e))
  {
    var t := Next(s, e);
    assert t.Records() == s.Records();
    SameClaims(s, t);
  }

  /** Every claim the release under way covers, and no other, ends with it. */
  lemma FinishDropsClaims(s: State, e: Event)
    requires Inv(s) && e.FinishRelease? && Enabled(s, e)
    ensures var rel := s.releasing.value;
            forall c :: Live(Next(s, e), c) <==> Live(s, c) && !InTable(map[rel.pod := rel.containers], c)
  {
    var t, rel := Next(s, e), s.releasing.value;
    forall c
      ensures Live(t, c) <==> Live(s, c) && !InTable(map[rel.pod := rel.containers], c)
    {
      assert Running(t, c) <==> Running(s, c);
      if Running(s, c) && InTable(map[rel.pod := rel.containers], c) {
        var i :| i in s.inFlight && s.inFlight[i] == c;
        assert InTable(s.Records(), c);
        assert s.inFlight[i].SameEntry(c);
      }
    }
  }

  /** Where the table agrees with the record, releasing removes the whole entry and only that. */
  lemma FinishTable(s: State, e: Event, r: string, k: string)
    requires Inv(s) && e.FinishRelease? && Enabled(s, e)
    requires r in s.plugins && k in s.plugins[r].allocations
    ensures var rel := s.releasing.value;
            var al := Next(s, e).plugins[r].allocations;
            && (k in al <==> ReleasedUnder(rel.pod, rel.containers, r, k).None?)
            && (k in al ==> al[k] == s.plugins[r].allocations[k])
  {
    var rel := s.releasing.value;
    var ids := s.plugins[r].allocations[k];
    if ReleasedUnder(rel.pod, rel.containers, r, k).Some? {
      ReleasedUnderInverse(rel.pod, rel.containers, r, k);
      var container := k[|rel.pod| + 1..];
      var c := Claim(rel.pod, container, r, rel.containers[container][r]);
      assert InTable(s.Records(), c) && Live(s, c);
      assert Backed(s.plugins, c);
      assert Retain(ids, ids) == [] by {
        RetainPrefix(ids, |ids|, ids);
      }
    }
  }

  lemma FinishKeepsCovered(s: State, e: Event)
    requires Inv(s) && e.FinishRelease? && Enabled(s, e)
    ensures Covered(Next(s, e))
  {
    var t, rel := Next(s, e), s.releasing.value;
    FinishDropsClaims(s, e);
    forall c | Live(t, c)
      ensures Backed(t.plugins, c)
    {
      assert Live(s, c) && Backed(s.plugins, c);
      FinishTable(s, e, c.resource, c.Key());
      if ReleasedUnder(rel.pod, rel.containers, c.resource, c.Key()).Some? {
        FinishedClaim(s, e, c);
      }
    }
  }

  /** The owner of an entry that stays keeps its claim. */
  lemma FinishKeepsOwner(s: State, e: Event, r: string, k: string)
    requires Inv(s) && e.FinishRelease? && Enabled(s, e)
    requires r in s.plugins && k in s.plugins[r].allocations
    requires ReleasedUnder(s.releasing.value.pod, s.releasing.value.containers, r, k).None?
    ensures Owned(Next(s, e), r, k)
  {
    var rel := s.releasing.value;
    assert Owned(s, r, k);
    var c :| Live(s, c) && c.resource == r && c.Key() == k;
    assert !InTable(map[rel.pod := rel.containers], c) by {
      ReleasedUnderOwnKey(rel.pod, rel.containers, c.container, r);
    }
    FinishDropsClaims(s, e);
    assert Live(Next(s, e), c);
  }

  lemma FinishLeavesNoOrphans(s: State, e: Event)
    requires Inv(s) && e.FinishRelease? && Enabled(s, e)
    ensures NoOrphans(Next(s, e))
  {
    var t := Next(s, e);
    forall r, k | r in t.plugins && k in t.plugins[r].allocations
      ensures Owned(t, r, k)
    {
      FinishTable(s, e, r, k);
      FinishKeepsOwner(s, e, r, k);
    }
  }

  lemma FinishKeepsDisjoint(s: State, e: Event)
    requires Inv(s) && e.FinishRelease? && Enabled(s, e)
    ensures DisjointEntries(Next(s, e))
  {
    var t := Next(s, e);
    forall r | r in t.plugins
      ensures DisjointTable(t.plugins[r].allocations)
    {
      forall k | k in t.plugins[r].allocations
        ensures t.plugins[r].allocations[k] == s.plugins[r].allocations[k]
      {
        FinishTable(s, e, r, k);
      }
    }
  }

  lemma FinishKeepsInv(s: State, e: Event)
    requires Inv(s) && e.FinishRelease? && Enabled(s, e)
    ensures Inv(Next(s, e))
  {
    FinishKeepsCovered(s, e);
    FinishLeavesNoOrphans(s, e);
    FinishKeepsDisjoint(s, e);
    assert forall c :: InTable(Next(s, e).Records(), c) ==> InTable(s.Records(), c);
  }

  /** A live claim whose key the release covers is one of the released claims. */
  lemma FinishedClaim(s: State, e: Event, c: Claim)
    requires Inv(s) && e.FinishRelease? && Enabled(s, e) && Live(s, c)
    requires ReleasedUnder(s.releasing.value.pod, s.releasing.value.containers, c.resource, c.Key()).Some?
    ensures InTable(map[s.releasing.value.pod := s.releasing.value.containers], c)
  {
    var rel := s.releasing.value;
    ReleasedUnderInverse(rel.pod, rel.containers, c.resource, c.Key());
    var container := c.Key()[|rel.pod| + 1..];
    var d := Claim(rel.pod, container, c.resource, rel.containers[container][c.resource]);
    assert InTable(s.Records(), d) && Live(s, d);
    SameEntrySameClaim(s, c, d);
  }

  // -- Whole runs --------------------------------------------------------------

  /** A run that respects the locks and the callers' hypotheses. */
  ghost predicate Guarded(s: State, run: seq<Event>)
    decreases |run|
  {
    run != [] ==> Enabled(s, run[0]) && Allowed(s, run[0]) && Guarded(Next(s, run[0]), run[1..])
  }

  ghost function Run(s: State, run: seq<Event>): State
    requires Guarded(s, run)
    decreases |run|
  {
    if run == [] then s else Run(Next(s, run[0]), run[1..])
  }

  lemma StepKeepsInv(s: State, e: Event)
    requires Inv(s) && Enabled(s, e) && Allowed(s, e)
    ensures Inv(Next(s, e))
  {
    match e
    case Register(_, _) => RegisterKeepsInv(s, e);
    case Update(_, _) => UpdateKeepsInv(s, e);
    case Begin(_, _, _, _, _) => BeginKeepsInv(s, e);
    case Fail(_) => FailKeepsInv(s, e);
    case Commit(_) => CommitKeepsInv(s, e);
    case StartRelease(_) => StartReleaseKeepsInv(s, e);
    case FinishRelease => FinishKeepsInv(s, e);
  }

  lemma ForbiddenRegisterUncovers(s: State, e: Event)
    requires NoOrphans(s) && e.Register? && !Allowed(s, e)
    ensures !Covered(Next(s, e))
  {
    var key :| key in s.plugins[e.resource].allocations;
    assert Owned(s, e.resource, key);
    var c :| Live(s, c) && c.resource == e.resource && c.Key() == key;
    ReRegistrationUncovers(s, e, c);
    assert !Backed(Next(s, e).plugins, c);
  }

  /** The claim that owns the entry a Begin is about to overwrite. */
  lemma ForbiddenBeginOwner(s: State, e: Event) returns (c: Claim)
    requires Inv(s) && e.Begin? && !Allowed(s, e)
    ensures Live(s, c) && c.resource == e.resource && c.Key() == AllocationKey(e.pod, e.container)
    ensures c.ids == s.plugins[e.resource].allocations[c.Key()]
  {
    var key := AllocationKey(e.pod, e.container);
    assert Owned(s, e.resource, key);
    c :| Live(s, c) && c.resource == e.resource && c.Key() == key;
    assert Backed(s.plugins, c);
  }

  lemma SecondClaimSharesEntry(s: State, e: Event, c: Claim)
    requires e.Begin? && Enabled(s, e) && Reservable(s.plugins, e.resource, e.count).Some?
    requires Live(s, c) && c.resource == e.resource && c.Key() == AllocationKey(e.pod, e.container)
    ensures !OneClaimPerEntry(Next(s, e))
  {
    var t := Next(s, e);
    assert t.inFlight[e.call].SameEntry(c);
    if Running(s, c) {
      var i :| i in s.inFlight && s.inFlight[i] == c;
      assert i in t.inFlight && t.inFlight[i] == c && i != e.call;
    } else {
      assert t.Records() == s.Records() && InTable(t.Records(), c);
    }
  }

  /** From a good state, a step leads to a good state if and only if the table allows it. */
  lemma StepKeepsInvIffAllowed(s: State, e: Event)
    requires Inv(s) && Enabled(s, e)
    ensures Inv(Next(s, e)) <==> Allowed(s, e)
  {
    if Allowed(s, e) {
      StepKeepsInv(s, e);
    } else if e.Register? {
      ForbiddenRegisterUncovers(s, e);
    } else {
      var c := ForbiddenBeginOwner(s, e);
      SecondClaimSharesEntry(s, e, c);
    }
  }

  /** Overwriting an entry does no harm only when it is empty and stays empty. */
  predicate KeepsTables(s: State, e: Event) {
    || Allowed(s, e)
    || (e.Begin? && e.count == 0 && s.plugins[e.resource].allocations[AllocationKey(e.pod, e.container)] == [])
  }

  lemma OverwriteUncovers(s: State, e: Event)
    requires Inv(s) && e.Begin? && Enabled(s, e) && !KeepsTables(s, e)
    ensures !Covered(Next(s, e))
  {
    var t, ids := Next(s, e), Reservable(s.plugins, e.resource, e.count).value;
    var c := ForbiddenBeginOwner(s, e);
    BeginAddsClaim(s, e, ids);
    var al := s.plugins[e.resource].allocations;
    assert |ids| == e.count;
    if c.ids != [] {
      assert c.Key() in al && c.ids[0] in al[c.Key()];
      assert c.ids[0] in Allocated(al) && c.ids[0] !in ids;
    }
    assert Live(t, c) && !Backed(t.plugins, c);
  }

  lemma EmptyOverwriteKeepsTables(s: State, e: Event)
    requires Inv(s) && e.Begin? && Enabled(s, e) && !Allowed(s, e) && KeepsTables(s, e)
    ensures TablesExact(Next(s, e))
  {
    var t, ids := Next(s, e), Reservable(s.plugins, e.resource, e.count).value;
    BeginAddsClaim(s, e, ids);
    var al := s.plugins[e.resource].allocations;
    assert ids == [] && t.plugins[e.resource].allocations == al;
    assert t.plugins == s.plugins;
    forall c | Live(t, c)
      ensures Backed(t.plugins, c)
    {
      assert Live(s, c) ==> Backed(s.plugins, c);
    }
    forall r, k | r in t.plugins && k in t.plugins[r].allocations
      ensures Owned(t, r, k)
    {
      assert Owned(s, r, k);
      var c :| Live(s, c) && c.resource == r && c.Key() == k;
      assert Live(t, c);
    }
  }

  /** From a good state, a step leaves every table exact if and only if it overwrites no device of an entry. */
  lemma StepKeepsTablesIff(s: State, e: Event)
    requires Inv(s) && Enabled(s, e)
    ensures TablesExact(Next(s, e)) <==> KeepsTables(s, e)
  {
    if Allowed(s, e) {
      StepKeepsInv(s, e);
    } else if e.Register? {
      ForbiddenRegisterUncovers(s, e);
    } else {
      if KeepsTables(s, e) {
        EmptyOverwriteKeepsTables(s, e);
      } else {
        OverwriteUncovers(s, e);
      }
    }
  }

  lemma {:induction false} RunKeepsInv(s: State, run: seq<Event>)
    requires Inv(s) && Guarded(s, run)
    ensures Inv(Run(s, run))
    decreases |run|
  {
    if run != [] {
      StepKeepsInv(s, run[0]);
      RunKeepsInv(Next(s, run[0]), run[1..]);
    }
  }

  /**
   In every interleaving no device is held twice, and each endpoint table is exactly the
   live claims: every claim under its own key with its own ids, and no other entry.
   */
  lemma DevicesAreExclusive(run: seq<Event>)
    requires Guarded(INIT, run)
    ensures var s := Run(INIT, run);
            && Exclusive(s)
            && (forall c :: Live(s, c) ==> Backed(s.plugins, c))
            && (forall r, k :: r in s.plugins && k in s.plugins[r].allocations ==> Owned(s, r, k))
  {
    InvInit();
    RunKeepsInv(INIT, run);
    InvImpliesExclusive(Run(INIT, run));
  }

  /** A device somebody holds is never handed out, whatever the device lists said meanwhile. */
  lemma HeldDeviceIsNotHandedOut(run: seq<Event>, resource: string, count: nat, c: Claim, d: string)
    requires Guarded(INIT, run)
    requires Live(Run(INIT, run), c) && c.resource == resource && d in c.ids
    ensures match Reservable(Run(INIT, run).plugins, resource, count)
            case None => true
            case Some(ids) => d !in ids && |ids| == count
  {
    DevicesAreExclusive(run);
    var s := Run(INIT, run);
    assert Backed(s.plugins, c);
    assert d in Allocated(s.plugins[resource].allocations);
  }

  /** A failed RPC takes back exactly its own ids: no other claim and no other id changes. */
  lemma RollbackIsExact(s: State, call: nat)
    requires Inv(s) && call in s.inFlight
    ensures var t, gone := Next(s, Fail(call)), s.inFlight[call];
            && (forall c :: Live(t, c) <==> Live(s, c) && c != gone)
            && t.plugins.Keys == s.plugins.Keys
            && (forall r | r in s.plugins :: Allocated(t.plugins[r].allocations)
                 == Allocated(s.plugins[r].allocations) - if r == gone.resource then set d | d in gone.ids else {})
  {
    var t, gone := Next(s, Fail(call)), s.inFlight[call];
    FailDropsClaim(s, Fail(call));
    assert Running(s, gone) && Live(s, gone) && Backed(s.plugins, gone);
    forall r | r in s.plugins
      ensures Allocated(t.plugins[r].allocations)
           == Allocated(s.plugins[r].allocations) - if r == gone.resource then set d | d in gone.ids else {}
    {
      if r == gone.resource {
        AllocatedWithout(s.plugins[r].allocations, gone.Key());
      }
    }
  }

  lemma AllocatedWithout(al: Table, key: string)
    requires DisjointTable(al) && key in al
    ensures Allocated(al - {key}) == Allocated(al) - set d | d in al[key]
  {
    forall d | d in Allocated(al) && d !in al[key]
      ensures d in Allocated(al - {key})
    {
      var k :| k in al && d in al[k];
      assert k in al - {key} && d in (al - {key})[k];
    }
    forall d | d in Allocated(al - {key})
      ensures d in Allocated(al) && d !in al[key]
    {
      var k :| k in al - {key} && d in (al - {key})[k];
      assert k in al && k != key && d in al[k];
    }
  }

  /** The id is in the record that is being released. */
  predicate BeingReleased(rel: Release, resource: string, d: string) {
    exists container :: container in rel.containers && resource in rel.containers[container]
      && d in rel.containers[container][resource]
  }

  lemma ReleasedIdIsFreed(s: State, r: string, d: string, k: string)
    requires Inv(s) && s.releasing.Some? && r in s.plugins && BeingReleased(s.releasing.value, r, d)
    requires k in Next(s, FinishRelease).plugins[r].allocations
    ensures d !in Next(s, FinishRelease).plugins[r].allocations[k]
  {
    var rel := s.releasing.value;
    FinishTable(s, FinishRelease, r, k);
    var container :| container in rel.containers && r in rel.containers[container] && d in rel.containers[container][r];
    var c := Claim(rel.pod, container, r, rel.containers[container][r]);
    assert InTable(s.Records(), c) && Live(s, c) && Backed(s.plugins, c);
    ReleasedUnderOwnKey(rel.pod, rel.containers, container, r);
    assert c.Key() != k;
  }

  lemma FreedIdWasReleased(s: State, r: string, d: string, k: string)
    requires Inv(s) && s.releasing.Some? && r in s.plugins && k in s.plugins[r].allocations
    requires d in s.plugins[r].allocations[k] && k !in Next(s, FinishRelease).plugins[r].allocations
    ensures BeingReleased(s.releasing.value, r, d)
  {
    var rel := s.releasing.value;
    FinishTable(s, FinishRelease, r, k);
    ReleasedUnderInverse(rel.pod, rel.containers, r, k);
    var container := k[|rel.pod| + 1..];
    var c := Claim(rel.pod, container, r, rel.containers[container][r]);
    assert InTable(s.Records(), c) && Live(s, c) && Backed(s.plugins, c);
  }

  /** Deallocating a pod ends exactly its recorded claims and frees exactly the ids they hold. */
  lemma DeallocationIsExact(s: State, r: string, d: string)
    requires Inv(s) && s.releasing.Some? && r in s.plugins
    ensures var rel := s.releasing.value;
            forall c :: Live(Next(s, FinishRelease), c) <==> Live(s, c) && !InTable(map[rel.pod := rel.containers], c)
    ensures r in Next(s, FinishRelease).plugins
    ensures d in Allocated(Next(s, FinishRelease).plugins[r].allocations)
       <==> d in Allocated(s.plugins[r].allocations) && !BeingReleased(s.releasing.value, r, d)
  {
    FinishDropsClaims(s, FinishRelease);
    var al, bl := s.plugins[r].allocations, Next(s, FinishRelease).plugins[r].allocations;
    if d in Allocated(bl) {
      var k :| k in bl && d in bl[k];
      FinishTable(s, FinishRelease, r, k);
      if BeingReleased(s.releasing.value, r, d) {
        ReleasedIdIsFreed(s, r, d, k);
      }
    } else if d in Allocated(al) {
      var k :| k in al && d in al[k];
      FinishTable(s, FinishRelease, r, k);
      FreedIdWasReleased(s, r, d, k);
    }
  }

  /** Reserving takes the first `count` free devices and leaves the rest of the free list as it was. */
  lemma ReservationTakesPrefix(s: State, e: Event)
    requires Inv(s) && e.Begin? && Enabled(s, e) && Allowed(s, e)
    requires e.resource in s.plugins && DistinctIds(s.plugins[e.resource].devices)
    requires e.count <= AvailableCount(s.plugins[e.resource])
    ensures Reservable(s.plugins, e.resource, e.count).Some?
    ensures var ep := s.plugins[e.resource];
            var free := FreeIds(ep.devices, Allocated(ep.allocations));
            var after := Next(s, e).plugins[e.resource];
            && Reservable(s.plugins, e.resource, e.count).value == free[..e.count]
            && Distinct(free)
            && FreeIds(after.devices, Allocated(after.allocations)) == free[e.count..]
            && AvailableCount(after) == AvailableCount(ep) - e.count
  {
    ReserveEndpoint(s.plugins[e.resource], AllocationKey(e.pod, e.container), e.count);
  }

  lemma AllocatedWith(al: Table, key: string, ids: seq<string>)
    requires key !in al
    ensures Allocated(al[key := ids]) == Allocated(al) + set d | d in ids
  {
    var bl := al[key := ids];
    forall d | d in Allocated(al)
      ensures d in Allocated(bl)
    {
      var k :| k in al && d in al[k];
      assert k in bl && d in bl[k];
    }
    forall d | d in ids
      ensures d in Allocated(bl)
    {
      assert key in bl && d in bl[key];
    }
  }

  lemma ReserveEndpoint(ep: Endpoint, key: string, count: nat)
    requires key !in ep.allocations && DistinctIds(ep.devices) && count <= AvailableCount(ep)
    ensures var free := FreeIds(ep.devices, Allocated(ep.allocations));
            && Distinct(free)
            && FreeIds(ep.devices, Allocated(ep.allocations[key := free[..count]])) == free[count..]
  {
    var taken := Allocated(ep.allocations);
    var free := FreeIds(ep.devices, taken);
    var ids := free[..count];
    AllocatedWith(ep.allocations, key, ids);
    FreeIdsDistinct(ep.devices, taken);
    FreeIdsRetain(ep.devices, taken, ids);
    SplitDistinct(free, count);
    RetainPrefix(free, count, ids);
  }

  lemma SplitDistinct(free: seq<string>, n: nat)
    requires Distinct(free) && n <= |free|
    ensures forall i :: 0 <= i < n ==> free[i] in free[..n]
    ensures forall i :: n <= i < |free| ==> free[i] !in free[..n]
  {
  }

  // -- Why the hypotheses are needed -------------------------------------------

  /** Once the table has lost a held device, a device-list update and one allocation hand it out again. */
  lemma UncoveredDeviceIsStolen(s: State, c: Claim, d: string, call: nat, pod: string, container: string)
    requires Live(s, c) && d in c.ids && c.resource in s.plugins
    requires d !in Allocated(s.plugins[c.resource].allocations)
    requires call !in s.inFlight && pod != c.pod
    ensures var t := Next(s, Update(c.resource, [Device(d, Healthy)]));
            !Exclusive(Next(t, Begin(call, pod, container, c.resource, 1)))
  {
    var t := Next(s, Update(c.resource, [Device(d, Healthy)]));
    SameClaims(s, t);
    assert Live(t, c);
    var e := Begin(call, pod, container, c.resource, 1);
    var ep := t.plugins[c.resource];
    var free := FreeIds(ep.devices, Allocated(ep.allocations));
    assert Device(d, Healthy) in ep.devices && free == [d];
    assert Reservable(t.plugins, c.resource, 1) == Some(free[..1]);
    BeginAddsClaim(t, e, free[..1]);
    var thief := Claim(pod, container, c.resource, free[..1]);
    assert Live(Next(t, e), thief) && Live(Next(t, e), c) && d in thief.ids;
  }

  /** Re-registering a resource uncovers every device held under it. */
  lemma ReRegistrationUncovers(s: State, e: Event, c: Claim)
    requires e.Register? && Live(s, c) && c.resource == e.resource
    ensures var t := Next(s, e);
            && Live(t, c)
            && c.resource in t.plugins
            && t.plugins[c.resource].allocations == map[]
            && forall d :: d in c.ids ==> d !in Allocated(t.plugins[c.resource].allocations)
  {
    SameClaims(s, Next(s, e));
  }

  /** A reservation under a live claim's key uncovers every device that claim held. */
  lemma SecondAllocationUncovers(s: State, e: Event, c: Claim)
    requires Inv(s) && e.Begin? && Enabled(s, e) && Reservable(s.plugins, e.resource, e.count).Some?
    requires Live(s, c) && c.resource == e.resource && c.Key() == AllocationKey(e.pod, e.container)
    ensures var t := Next(s, e);
            && Live(t, c)
            && c.resource in t.plugins
            && forall d :: d in c.ids ==> d !in Allocated(t.plugins[c.resource].allocations)
  {
    var t, ids := Next(s, e), Reservable(s.plugins, e.resource, e.count).value;
    BeginAddsClaim(s, e, ids);
    assert Backed(s.plugins, c);
    var al, bl := s.plugins[e.resource].allocations, t.plugins[e.resource].allocations;
    assert DisjointTable(al);
    forall d | d in c.ids
      ensures d !in Allocated(bl)
    {
      assert d in Allocated(al) && d !in ids;
    }
  }

  /** Container `c` of pod `p:x` loses its devices to container `x:c` of pod `p`. */
  lemma CollidingNamesUncover(s: State, call: nat, p: string, x: string, c: string, resource: string, ids: seq<string>,
                              count: nat)
    requires Inv(s) && Live(s, Claim(p + ":" + x, c, resource, ids))
    requires call !in s.inFlight && Reservable(s.plugins, resource, count).Some?
    ensures var t := Next(s, Begin(call, p, x + ":" + c, resource, count));
            && Live(t, Claim(p + ":" + x, c, resource, ids))
            && resource in t.plugins
            && forall d :: d in ids ==> d !in Allocated(t.plugins[resource].allocations)
  {
    var held := Claim(p + ":" + x, c, resource, ids);
    assert held.Key() == AllocationKey(p, x + ":" + c);
    SecondAllocationUncovers(s, Begin(call, p, x + ":" + c, resource, count), held);
  }

  // -- The hypotheses in the callers' terms --------------------------------------

  /** A slot is a pod, container and resource, whatever the ids. */
  ghost predicate SlotLive(s: State, pod: string, container: string, resource: string) {
    exists ids :: Live(s, Claim(pod, container, resource, ids))
  }

  ghost predicate NamesColonFree(s: State) {
    forall c :: Live(s, c) ==> ColonFree(c.container)
  }

  /** No re-registration of a resource somebody holds, and no second allocation for a slot that is live. */
  ghost predicate SlotAllowed(s: State, e: Event) {
    match e
    case Register(resource, _) => forall c :: Live(s, c) ==> c.resource != resource
    case Begin(_, pod, container, resource, count) =>
      Reservable(s.plugins, resource, count).Some? ==> !SlotLive(s, pod, container, resource)
    case _ => true
  }

  /** With colon-free container names, the table allows a step exactly when the live slots do. */
  lemma AllowedIffSlotAllowed(s: State, e: Event)
    requires Inv(s) && NamesColonFree(s) && (e.Begin? ==> ColonFree(e.container))
    ensures Allowed(s, e) <==> SlotAllowed(s, e)
  {
    if e.Begin? && Reservable(s.plugins, e.resource, e.count).Some? {
      var key := AllocationKey(e.pod, e.container);
      if !Allowed(s, e) {
        var c := ForbiddenBeginOwner(s, e);
        AllocationKeyInjective(c.pod, c.container, e.pod, e.container);
        assert Live(s, Claim(e.pod, e.container, e.resource, c.ids));
      } else if SlotLive(s, e.pod, e.container, e.resource) {
        var ids :| Live(s, Claim(e.pod, e.container, e.resource, ids));
        assert Backed(s.plugins, Claim(e.pod, e.container, e.resource, ids));
      }
    } else if e.Register? {
      RegisterAllowedIff(s, e);
    }
  }

  lemma RegisterAllowedIff(s: State, e: Event)
    requires Inv(s) && e.Register?
    ensures Allowed(s, e) <==> SlotAllowed(s, e)
  {
    if !Allowed(s, e) {
      var key :| key in s.plugins[e.resource].allocations;
      assert Owned(s, e.resource, key);
    } else {
      forall c | Live(s, c)
        ensures c.resource != e.resource
      {
        assert Backed(s.plugins, c);
      }
    }
  }

  ghost predicate SlotGuarded(s: State, run: seq<Event>)
    decreases |run|
  {
    run != [] ==>
      && Enabled(s, run[0])
      && SlotAllowed(s, run[0])
      && (run[0].Begin? ==> ColonFree(run[0].container))
      && SlotGuarded(Next(s, run[0]), run[1..])
  }

  lemma StepKeepsNames(s: State, e: Event)
    requires Inv(s) && NamesColonFree(s) && Enabled(s, e) && (e.Begin? ==> ColonFree(e.container))
    ensures NamesColonFree(Next(s, e))
  {
    match e
    case Begin(_, _, _, resource, count) =>
      if Reservable(s.plugins, resource, count).Some? {
        BeginAddsClaim(s, e, Reservable(s.plugins, resource, count).value);
      }
    case Fail(_) => FailDropsClaim(s, e);
    case Commit(_) => CommitKeepsClaims(s, e);
    case FinishRelease => FinishDropsClaims(s, e);
    case StartRelease(_) =>
      assert Next(s, e).Records() == s.Records();
      SameClaims(s, Next(s, e));
    case _ => SameClaims(s, Next(s, e));
  }

  /** Colon-free container names and one allocation per live slot keep callers within the tables' hypotheses. */
  lemma {:induction false} SlotGuardedIsGuarded(s: State, run: seq<Event>)
    requires Inv(s) && NamesColonFree(s) && SlotGuarded(s, run)
    ensures Guarded(s, run)
    decreases |run|
  {
    if run != [] {
      AllowedIffSlotAllowed(s, run[0]);
      StepKeepsInv(s, run[0]);
      StepKeepsNames(s, run[0]);
      SlotGuardedIsGuarded(Next(s, run[0]), run[1..]);
    }
  }

  // -- Claims across other callers' steps --------------------------------------

  /** The events that end a claim: its own call failing, or the release that took its record finishing. */
  ghost predicate Ends(s: State, e: Event, c: Claim) {
    || (e.Fail? && e.call in s.inFlight && s.inFlight[e.call] == c)
    || (e.FinishRelease? && s.releasing.Some?
        && InTable(map[s.releasing.value.pod := s.releasing.value.containers], c))
  }

  ghost predicate NeverEnds(s: State, run: seq<Event>, c: Claim)
    requires Guarded(s, run)
    decreases |run|
  {
    run != [] ==> !Ends(s, run[0], c) && NeverEnds(Next(s, run[0]), run[1..], c)
  }

  lemma PluginStepKeepsClaim(s: State, e: Event, c: Claim)
    requires (e.Register? || e.Update? || e.Begin?) && Enabled(s, e) && Live(s, c)
    ensures Live(Next(s, e), c)
  {
    if e.Begin? {
      if Reservable(s.plugins, e.resource, e.count).Some? {
        BeginAddsClaim(s, e, Reservable(s.plugins, e.resource, e.count).value);
      }
    } else {
      SameClaims(s, Next(s, e));
    }
  }

  lemma StartKeepsClaim(s: State, e: Event, c: Claim)
    requires e.StartRelease? && Enabled(s, e) && Live(s, c)
    ensures Live(Next(s, e), c)
  {
  }

  /** A step ends a claim if and only if it is one of those. */
  lemma ClaimEndsIff(s: State, e: Event, c: Claim)
    requires Inv(s) && Enabled(s, e) && Live(s, c)
    ensures Live(Next(s, e), c) <==> !Ends(s, e, c)
  {
    match e
    case Fail(_) => FailDropsClaim(s, e);
    case Commit(_) => CommitKeepsClaims(s, e);
    case StartRelease(_) => StartKeepsClaim(s, e, c);
    case FinishRelease => FinishDropsClaims(s, e);
    case _ => PluginStepKeepsClaim(s, e, c);
  }

  /** Whatever other calls do in between, a claim keeps its ids until its own call fails or its record is released. */
  lemma {:induction false} ClaimPersists(s: State, run: seq<Event>, c: Claim)
    requires Inv(s) && Guarded(s, run) && Live(s, c) && NeverEnds(s, run, c)
    ensures Live(Run(s, run), c) && Backed(Run(s, run).plugins, c)
    decreases |run|
  {
    if run == [] {
      assert Covered(s);
    } else {
      StepKeepsInv(s, run[0]);
      ClaimEndsIff(s, run[0], c);
      ClaimPersists(Next(s, run[0]), run[1..], c);
    }
  }

  // -- Calls that outlive their pod ----------------------------------------------

  /** Nothing new is started for the pod: no allocation and no second release. */
  predicate Quiet(run: seq<Event>, pod: string) {
    forall i :: 0 <= i < |run| ==> !(run[i].Begin? && run[i].pod == pod) && !(run[i].StartRelease? && run[i].pod == pod)
  }

  predicate CommitsDevices(s: State, e: Event, pod: string) {
    e.Commit? && e.call in s.inFlight && s.inFlight[e.call].pod == pod && s.inFlight[e.call].ids != []
  }

  /** Some call of the pod commits devices along the run. */
  ghost predicate LateCommit(s: State, run: seq<Event>, pod: string)
    requires Guarded(s, run)
    decreases |run|
  {
    run != [] && (CommitsDevices(s, run[0], pod) || LateCommit(Next(s, run[0]), run[1..], pod))
  }

  ghost predicate RecordsDevices(s: State, pod: string) {
    exists c :: InTable(s.pods, c) && c.pod == pod && c.ids != []
  }

  ghost predicate HoldsDevices(s: State, pod: string) {
    exists c :: Live(s, c) && c.pod == pod && c.ids != []
  }

  lemma StepRecordsDevices(s: State, e: Event, pod: string)
    requires Inv(s) && Enabled(s, e) && Quiet([e], pod)
    ensures RecordsDevices(Next(s, e), pod) <==> RecordsDevices(s, pod) || CommitsDevices(s, e, pod)
  {
    var t := Next(s, e);
    match e
    case Commit(call) =>
      CommitKeepsClaims(s, e);
      assert t.Records() == t.pods && s.Records() == s.pods;
      if RecordsDevices(s, pod) {
        var c :| InTable(s.pods, c) && c.pod == pod && c.ids != [];
        assert InTable(t.pods, c);
      }
    case StartRelease(_) =>
      assert [e][0] == e;
      assert forall c: Claim :: c.pod == pod ==> (InTable(t.pods, c) <==> InTable(s.pods, c));
    case _ =>
  }

  lemma {:induction false} RunRecordsDevices(s: State, run: seq<Event>, pod: string)
    requires Inv(s) && Guarded(s, run) && Quiet(run, pod)
    ensures RecordsDevices(Run(s, run), pod) <==> RecordsDevices(s, pod) || LateCommit(s, run, pod)
    decreases |run|
  {
    if run != [] {
      assert Quiet([run[0]], pod);
      StepRecordsDevices(s, run[0], pod);
      StepKeepsInv(s, run[0]);
      RunRecordsDevices(Next(s, run[0]), run[1..], pod);
    }
  }

  /** No call of the pod and no release of it is under way. */
  predicate Settled(s: State, pod: string) {
    && (forall i :: i in s.inFlight ==> s.inFlight[i].pod != pod)
    && (s.releasing.Some? ==> s.releasing.value.pod != pod)
  }

  /**
   Once a pod is deallocated, nothing new is started for it and everything under way has ended, the
   pod still holds devices, and the tables still reserve them, if and only if a call that was in flight
   at the deallocation committed some.
   */
  lemma LateCommitLeaks(s: State, pod: string, run: seq<Event>)
    requires Inv(s) && Enabled(s, StartRelease(pod)) && Quiet(run, pod)
    requires Guarded(Next(s, StartRelease(pod)), run) && Settled(Run(Next(s, StartRelease(pod)), run), pod)
    ensures HoldsDevices(Run(Next(s, StartRelease(pod)), run), pod)
      <==> LateCommit(Next(s, StartRelease(pod)), run, pod)
    ensures Covered(Run(Next(s, StartRelease(pod)), run))
  {
    var t := Next(s, StartRelease(pod));
    StepKeepsInv(s, StartRelease(pod));
    RunKeepsInv(t, run);
    assert !RecordsDevices(t, pod);
    RunRecordsDevices(t, run, pod);
    SettledHoldsIff(Run(t, run), pod);
  }

  lemma SettledHoldsIff(s: State, pod: string)
    requires Settled(s, pod)
    ensures HoldsDevices(s, pod) <==> RecordsDevices(s, pod)
  {
    forall c: Claim | c.pod == pod
      ensures Live(s, c) <==> InTable(s.pods, c)
    {
    }
    if RecordsDevices(s, pod) {
      var c :| InTable(s.pods, c) && c.pod == pod && c.ids != [];
      assert Live(s, c);
    }
  }
}
