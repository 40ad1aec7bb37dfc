/** The API-server pod source: watch events and relists turned into pod updates. */
module KubeSource {
  import opened Wrappers
  import opened PodManager

  /** What the source looks at in an API pod. */
  datatype ApiPod = ApiPod(uid: Option<string>, name: Option<string>, namespace: Option<string>, deleting: bool,
                           mirror: bool, spec: Option<ApiSpec>)

  datatype ApiSpec = ApiSpec(nodeName: Option<string>, aliases: seq<string>)

  /** Watch events, and the periodic relist. */
  datatype Event = Applied(pod: ApiPod) | Deleted(pod: ApiPod) | Restarted(pods: seq<ApiPod>)
    | Relist(items: seq<ApiPod>)

  function PodToSpec(pod: ApiPod, node: string): Option<Spec> {
    if pod.uid.None? || pod.name.None? || pod.mirror || pod.spec.None? then None
    else Some(Spec(pod.uid.value, pod.namespace.GetOr("default"), pod.name.value,
                   pod.spec.value.nodeName.GetOr(node), pod.spec.value.aliases))
  }

  /** A Remove built from the metadata alone; nothing without a uid and a name. */
  function RemovalOf(pod: ApiPod, node: string): seq<PodUpdate> {
    var uid, name := pod.uid.GetOr(""), pod.name.GetOr("");
    if uid == "" || name == "" then []
    else [PodUpdate(Remove, Spec(uid, pod.namespace.GetOr("default"), name, node, []))]
  }

  function AdditionOf(pod: ApiPod, node: string): seq<PodUpdate> {
    match PodToSpec(pod, node)
    case None => []
    case Some(spec) => [PodUpdate(Add, spec)]
  }

  function RestartUpdates(pods: seq<ApiPod>, node: string): seq<PodUpdate> {
    if pods == [] then []
    else
      var p := pods[0];
      (if p.deleting then RemovalOf(p, node) else AdditionOf(p, node)) + RestartUpdates(pods[1..], node)
  }

  /** The relist skips pods that are being deleted. */
  method RelistUpdates(items: seq<ApiPod>, node: string) returns (sent: seq<PodUpdate>)
    ensures sent == EmitAll(ObservationsIn(Relist(items)), node)
  {
    sent := [];
    for i := 0 to |items|
      invariant sent == EmitAll(Listings(items[..i]), node)
    {
      ListingsSnoc(items, i, node);
      if !items[i].deleting {
        var spec := PodToSpec(items[i], node);
        if spec.Some? {
          sent := sent + [PodUpdate(Reconcile, spec.value)];
        }
      }
    }
    assert items[..|items|] == items;
  }

  function PodEventToUpdates(e: Event, node: string): seq<PodUpdate>
    requires !e.Relist?
  {
    match e
    case Applied(pod) => if pod.deleting then RemovalOf(pod, node) else AdditionOf(pod, node)
    case Deleted(pod) => RemovalOf(pod, node)
    case Restarted(pods) => RestartUpdates(pods, node)
  }

  // -- One observation at a time -----------------------------------------------

  datatype Kind = Watched | Gone | Listed

  datatype Observation = Observation(kind: Kind, pod: ApiPod)

  function Listings(items: seq<ApiPod>): (obs: seq<Observation>)
    ensures |obs| == |items| && forall i :: 0 <= i < |obs| ==> obs[i] == Observation(Listed, items[i])
  {
    seq(|items|, i requires 0 <= i < |items| => Observation(Listed, items[i]))
  }

  function Sightings(pods: seq<ApiPod>): (obs: seq<Observation>)
    ensures |obs| == |pods| && forall i :: 0 <= i < |obs| ==> obs[i] == Observation(Watched, pods[i])
  {
    seq(|pods|, i requires 0 <= i < |pods| => Observation(Watched, pods[i]))
  }

  function ObservationsIn(e: Event): seq<Observation> {
    match e
    case Applied(pod) => [Observation(Watched, pod)]
    case Deleted(pod) => [Observation(Gone, pod)]
    case Restarted(pods) => Sightings(pods)
    case Relist(items) => Listings(items)
  }

  /** The uid is being deleted or is gone. */
  predicate Marked(o: Observation) {
    o.kind == Gone || o.pod.deleting
  }

  function Emit(o: Observation, node: string): seq<PodUpdate> {
    match o.kind
    case Gone => RemovalOf(o.pod, node)
    case Watched => if o.pod.deleting then RemovalOf(o.pod, node) else AdditionOf(o.pod, node)
    case Listed =>
      if o.pod.deleting || PodToSpec(o.pod, node).None? then []
      else [PodUpdate(Reconcile, PodToSpec(o.pod, node).value)]
  }

  function EmitAll(obs: seq<Observation>, node: string): seq<PodUpdate> {
    if obs == [] then [] else EmitAll(obs[..|obs| - 1], node) + Emit(obs[|obs| - 1], node)
  }

  lemma ListingsSnoc(items: seq<ApiPod>, i: nat, node: string)
    requires i < |items|
    ensures EmitAll(Listings(items[..i + 1]), node)
         == EmitAll(Listings(items[..i]), node) + Emit(Observation(Listed, items[i]), node)
  {
    var obs := Listings(items[..i + 1]);
    assert obs[..|obs| - 1] == Listings(items[..i]);
  }

  lemma EmitAllSnoc(obs: seq<Observation>, o: Observation, node: string)
    ensures EmitAll(obs + [o], node) == EmitAll(obs, node) + Emit(o, node)
  {
  }

  lemma {:induction false} EmitAllConcat(a: seq<Observation>, b: seq<Observation>, node: string)
    ensures EmitAll(a + b, node) == EmitAll(a, node) + EmitAll(b, node)
    decreases |b|
  {
    if b == [] {
      assert a + b == a;
    } else {
      var front, last := b[..|b| - 1], b[|b| - 1];
      assert b == front + [last];
      calc {
        EmitAll(a + b, node);
        { assert a + b == (a + front) + [last]; EmitAllSnoc(a + front, last, node); }
        EmitAll(a + front, node) + Emit(last, node);
        { EmitAllConcat(a, front, node); }
        EmitAll(a, node) + EmitAll(front, node) + Emit(last, node);
        EmitAll(a, node) + (EmitAll(front, node) + Emit(last, node));
        { EmitAllSnoc(front, last, node); }
        EmitAll(a, node) + EmitAll(b, node);
      }
    }
  }

  lemma EmitOne(o: Observation, node: string)
    ensures EmitAll([o], node) == Emit(o, node)
  {
  }

  lemma {:induction false} RestartsAreObservations(pods: seq<ApiPod>, node: string)
    ensures RestartUpdates(pods, node) == EmitAll(Sightings(pods), node)
    decreases |pods|
  {
    if pods != [] {
      var first, rest := Observation(Watched, pods[0]), pods[1..];
      RestartsAreObservations(rest, node);
      EmitOne(first, node);
      EmitAllConcat([first], Sightings(rest), node);
      assert Sightings(pods) == [first] + Sightings(rest);
    }
  }

  /** Every event is the sequence of its pods' observations. */
  lemma EventsAreObservations(e: Event, node: string)
    requires !e.Relist?
    ensures PodEventToUpdates(e, node) == EmitAll(ObservationsIn(e), node)
  {
    match e
    case Applied(pod) => EmitOne(Observation(Watched, pod), node);
    case Deleted(pod) => EmitOne(Observation(Gone, pod), node);
    case Restarted(pods) => RestartsAreObservations(pods, node);
  }

  // -- Deletion is final -------------------------------------------------------

  ghost function AllObservations(run: seq<Event>): seq<Observation> {
    if run == [] then [] else AllObservations(run[..|run| - 1]) + ObservationsIn(run[|run| - 1])
  }

  /** What the source sends over a run. */
  function Sent(run: seq<Event>, node: string): seq<PodUpdate> {
    if run == [] then []
    else
      var e := run[|run| - 1];
      Sent(run[..|run| - 1], node) + if e.Relist? then EmitAll(Listings(e.items), node) else PodEventToUpdates(e, node)
  }

  lemma {:induction false} SentIsEmitted(run: seq<Event>, node: string)
    ensures Sent(run, node) == EmitAll(AllObservations(run), node)
    decreases |run|
  {
    if run != [] {
      var front, e := run[..|run| - 1], run[|run| - 1];
      SentIsEmitted(front, node);
      EmitAllConcat(AllObservations(front), ObservationsIn(e), node);
      if !e.Relist? {
        EventsAreObservations(e, node);
      }
    }
  }

  /** The API server never shows the uid unmarked after showing it marked. */
  predicate MarksAreFinal(obs: seq<Observation>, uid: string) {
    forall i, j :: 0 <= i < j < |obs| && obs[i].pod.uid == Some(uid) == obs[j].pod.uid && Marked(obs[i]) ==>
      Marked(obs[j])
  }

  /** The observation shows the uid going, with the metadata a Remove needs. */
  predicate Removable(o: Observation, uid: string) {
    o.pod.uid == Some(uid) && uid != "" && o.kind != Listed && Marked(o) && o.pod.name.GetOr("") != ""
  }

  /** The observation shows the uid unmarked and convertible. */
  predicate Acceptable(o: Observation, uid: string) {
    o.pod.uid == Some(uid) && !Marked(o) && o.pod.name.Some? && !o.pod.mirror && o.pod.spec.Some?
  }

  /** The uid is never shown convertible again after it was shown going. */
  predicate NeverRevived(obs: seq<Observation>, uid: string) {
    forall i, j :: 0 <= i < j < |obs| && Removable(obs[i], uid) ==> !Acceptable(obs[j], uid)
  }

  predicate EverRemovable(obs: seq<Observation>, uid: string) {
    exists i :: 0 <= i < |obs| && Removable(obs[i], uid)
  }

  /** A Remove comes from a marked observation, an upsert from an unmarked one. */
  lemma EmitFacts(o: Observation, node: string, u: PodUpdate)
    requires u in Emit(o, node)
    ensures o.pod.uid == Some(u.pod.uid)
    ensures u.op == Remove <==> Marked(o)
  {
  }

  /** An accepted observation upserts the pod under its own identity; mirrors and bare pods never are. */
  lemma AcceptedIff(o: Observation, node: string)
    ensures (exists u :: u in Emit(o, node) && u.op != Remove)
       <==> !Marked(o) && o.pod.uid.Some? && o.pod.name.Some? && !o.pod.mirror && o.pod.spec.Some?
    ensures forall u :: u in Emit(o, node) ==>
              && o.pod.name == Some(u.pod.name)
              && u.pod.namespace == (if o.pod.namespace.Some? then o.pod.namespace.value else "default")
    ensures forall u :: u in Emit(o, node) && u.op != Remove ==>
              && o.pod.spec.Some? && u.pod.aliases == o.pod.spec.value.aliases
              && u.pod.nodeName == (if o.pod.spec.value.nodeName.Some? then o.pod.spec.value.nodeName.value else node)
              && u.op == if o.kind == Listed then Reconcile else Add
  {
    if !Marked(o) && PodToSpec(o.pod, node).Some? {
      assert Emit(o, node)[0].op != Remove && Emit(o, node)[0] in Emit(o, node);
    }
  }

  /** No Remove of the uid is followed by an upsert of it. */
  predicate CleanFor(us: seq<PodUpdate>, uid: string) {
    forall i, j :: 0 <= i < j < |us| && Removes(us[i], uid) ==> !Upserts(us[j], uid)
  }

  ghost predicate EverRemoves(us: seq<PodUpdate>, uid: string) {
    exists i :: 0 <= i < |us| && Removes(us[i], uid)
  }

  lemma CleanSnoc(us: seq<PodUpdate>, x: PodUpdate, uid: string)
    ensures CleanFor(us + [x], uid) <==> CleanFor(us, uid) && !(EverRemoves(us, uid) && Upserts(x, uid))
    ensures EverRemoves(us + [x], uid) <==> EverRemoves(us, uid) || Removes(x, uid)
  {
    var more := us + [x];
    assert more[|us|] == x && forall i :: 0 <= i < |us| ==> more[i] == us[i];
  }

  lemma EmitKinds(o: Observation, node: string, uid: string)
    ensures |Emit(o, node)| <= 1
    ensures (Emit(o, node) != [] && Removes(Emit(o, node)[0], uid)) <==> Removable(o, uid)
    ensures (Emit(o, node) != [] && Upserts(Emit(o, node)[0], uid)) <==> Acceptable(o, uid)
  {
  }

  lemma RevivedSnoc(obs: seq<Observation>, o: Observation, uid: string)
    ensures NeverRevived(obs + [o], uid) <==> NeverRevived(obs, uid) && !(EverRemovable(obs, uid) && Acceptable(o, uid))
    ensures EverRemovable(obs + [o], uid) <==> EverRemovable(obs, uid) || Removable(o, uid)
  {
    var more := obs + [o];
    assert more[|obs|] == o && forall i :: 0 <= i < |obs| ==> more[i] == obs[i];
  }

  /** For every stream: a removed uid is never upserted again if and only if it is never shown convertible again. */
  lemma {:induction false} EmittedRemovesAreFinal(obs: seq<Observation>, node: string, uid: string)
    ensures CleanFor(EmitAll(obs, node), uid) <==> NeverRevived(obs, uid)
    ensures EverRemoves(EmitAll(obs, node), uid) <==> EverRemovable(obs, uid)
    decreases |obs|
  {
    if obs != [] {
      var front, o := obs[..|obs| - 1], obs[|obs| - 1];
      EmittedRemovesAreFinal(front, node, uid);
      assert obs == front + [o];
      RevivedSnoc(front, o, uid);
      EmitKinds(o, node, uid);
      var sent, more := EmitAll(front, node), Emit(o, node);
      if more == [] {
        assert sent + more == sent;
      } else {
        assert more == [more[0]];
        CleanSnoc(sent, more[0], uid);
      }
    }
  }

  /** An API server that never takes a deletion mark back never revives a uid. */
  lemma FinalMarksNeverRevive(obs: seq<Observation>, uid: string)
    requires MarksAreFinal(obs, uid)
    ensures NeverRevived(obs, uid)
  {
  }

  /**
   Deletion is final: unless an observation revives the uid, after its first Remove the source
   never sends an upsert of it and the dispatcher never has it in the desired set again.
   */
  lemma DeletionIsFinal(run: seq<Event>, node: string, i: nat, n: nat, uid: string)
    requires NeverRevived(AllObservations(run), uid)
    requires i < n <= |Sent(run, node)| && Removes(Sent(run, node)[i], uid)
    ensures forall j :: i < j < |Sent(run, node)| ==> !Upserts(Sent(run, node)[j], uid)
    ensures uid !in Replay(Sent(run, node)[..n])
  {
    SentIsEmitted(run, node);
    EmittedRemovesAreFinal(AllObservations(run), node, uid);
    RemovedStaysOut(Sent(run, node), i, n, uid);
  }

  // -- Merged with other sources -----------------------------------------------

  function About(us: seq<PodUpdate>, uid: string): seq<PodUpdate> {
    if us == [] then []
    else About(us[..|us| - 1], uid) + if us[|us| - 1].pod.uid == uid then [us[|us| - 1]] else []
  }

  /** Whether a uid comes back after a Remove depends only on the updates about it. */
  lemma {:induction false} CleanIffAboutClean(us: seq<PodUpdate>, uid: string)
    ensures CleanFor(us, uid) <==> CleanFor(About(us, uid), uid)
    ensures EverRemoves(us, uid) <==> EverRemoves(About(us, uid), uid)
    decreases |us|
  {
    if us != [] {
      var front, last := us[..|us| - 1], us[|us| - 1];
      CleanIffAboutClean(front, uid);
      assert us == front + [last];
      CleanSnoc(front, last, uid);
      CleanSnoc(About(front, uid), last, uid);
      assert last.pod.uid != uid ==> About(us, uid) == About(front, uid);
    }
  }

  /**
   The dispatcher sees the sources merged into one channel.  As long as no other source speaks
   about the uid, deletion is final in the merged stream too, however the streams interleave.
   */
  lemma MergedDeletionIsFinal(run: seq<Event>, node: string, merged: seq<PodUpdate>, i: nat, n: nat, uid: string)
    requires NeverRevived(AllObservations(run), uid)
    requires About(merged, uid) == About(Sent(run, node), uid)
    requires i < n <= |merged| && Removes(merged[i], uid)
    ensures uid !in Replay(merged[..n])
  {
    SentIsEmitted(run, node);
    EmittedRemovesAreFinal(AllObservations(run), node, uid);
    var sent := Sent(run, node);
    assert CleanFor(sent, uid);
    CleanIffAboutClean(sent, uid);
    CleanIffAboutClean(merged, uid);
    RemovedStaysOut(merged, i, n, uid);
  }

  /** An unmarked observation the source accepts, after the uid was removed, brings it back. */
  lemma StaleObservationRevives(run: seq<Event>, node: string, pod: ApiPod)
    requires PodToSpec(pod, node).Some? && !pod.deleting
    requires pod.uid.value !in Replay(Sent(run, node)) && pod.spec.value.aliases == []
    ensures pod.uid.value in Replay(Sent(run + [Relist([pod])], node))
  {
    var longer := run + [Relist([pod])];
    assert longer[..|run|] == run;
    var obs := Listings([pod]);
    assert obs[..0] == [];
    var u := PodUpdate(Reconcile, PodToSpec(pod, node).value);
    assert EmitAll(obs, node) == [u];
    var sent := Sent(longer, node);
    assert sent == Sent(run, node) + [u];
    assert sent[..|sent| - 1] == Sent(run, node);
  }
}
