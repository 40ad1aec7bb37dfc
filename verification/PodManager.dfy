/**
 The pod manager's desired set and the dispatcher that feeds it.  A new pod whose name is
 equivalent to a desired pod's in the same namespace is not inserted when it carries host
 aliases: the aliases are merged into the pod that is already there.
 */
module PodManager {
  import opened Wrappers
  import opened Text

  datatype Spec = Spec(uid: string, namespace: string, name: string, nodeName: string, aliases: seq<string>)

  datatype Operation = Add | Update | Remove | Reconcile

  datatype PodUpdate = PodUpdate(op: Operation, pod: Spec)

  // -- Name equivalence --------------------------------------------------------

  function StripNodeSuffix(name: string, nodeName: string): string {
    if nodeName == "" then name else StripSuffix(name, "-" + nodeName).GetOr(name)
  }

  /** The part of a stored spec that decides where later pods go; aliases never matter. */
  datatype Ident = Ident(namespace: string, name: string, nodeName: string)

  function IdentOf(s: Spec): Ident {
    Ident(s.namespace, s.name, s.nodeName)
  }

  predicate Equivalent(a: Ident, b: Ident) {
    && a.namespace == b.namespace
    && (a.name == b.name || StripNodeSuffix(a.name, a.nodeName) == StripNodeSuffix(b.name, b.nodeName))
  }

  /** A static pod's node-suffixed name is equivalent to the plain name, unless that ends in the suffix itself. */
  lemma NodeSuffixIsEquivalent(namespace: string, name: string, nodeName: string)
    requires nodeName != "" && StripSuffix(name, "-" + nodeName).None?
    ensures Equivalent(Ident(namespace, name, nodeName), Ident(namespace, name + "-" + nodeName, nodeName))
  {
  }

  /** The base of a name: what stands before the node's suffix, or the whole name where it has none. */
  ghost predicate IsBase(base: string, id: Ident) {
    if id.nodeName != "" && exists x :: id.name == x + "-" + id.nodeName
    then id.name == base + "-" + id.nodeName
    else id.name == base
  }

  lemma StripIsBase(id: Ident, base: string)
    ensures StripNodeSuffix(id.name, id.nodeName) == base <==> IsBase(base, id)
  {
    var suffix := "-" + id.nodeName;
    if x :| id.name == x + "-" + id.nodeName {
      assert id.name == x + suffix;
      StripAppended(x, suffix);
      assert base + "-" + id.nodeName == base + suffix;
      assert (base + suffix)[..|base| + |suffix| - |suffix|] == base;
    }
    if StripSuffix(id.name, suffix).Some? {
      var x := StripSuffix(id.name, suffix).value;
      assert id.name == x + suffix == x + "-" + id.nodeName;
    }
  }

  /** Two pods are taken for one exactly when they share the namespace and the name or its base. */
  lemma EquivalentIff(a: Ident, b: Ident)
    ensures Equivalent(a, b) <==>
              a.namespace == b.namespace && (a.name == b.name || exists base :: IsBase(base, a) && IsBase(base, b))
  {
    StripIsBase(a, StripNodeSuffix(a.name, a.nodeName));
    StripIsBase(b, StripNodeSuffix(a.name, a.nodeName));
    if base :| IsBase(base, a) && IsBase(base, b) {
      StripIsBase(a, base);
      StripIsBase(b, base);
    }
  }

  type Desired = map<string, Ident>

  ghost predicate HasEquivalent(d: Desired, uid: string, id: Ident) {
    exists u :: u in d && u != uid && Equivalent(d[u], id)
  }

  /** The guard of the early return in `upsert`. */
  ghost predicate Merges(d: Desired, pod: Spec) {
    pod.uid !in d && pod.aliases != [] && HasEquivalent(d, pod.uid, IdentOf(pod))
  }

  ghost function Upserted(d: Desired, pod: Spec): Desired {
    if Merges(d, pod) then d else d[pod.uid := IdentOf(pod)]
  }

  /** One turn of the dispatcher. */
  ghost function Dispatched(d: Desired, u: PodUpdate): Desired {
    if u.op == Remove then d - {u.pod.uid} else Upserted(d, u.pod)
  }

  /** A desired pod with another uid that the incoming pod is taken for. */
  ghost predicate Twin(before: map<string, Spec>, u: string, pod: Spec) {
    u in before && u != pod.uid && Equivalent(IdentOf(before[u]), IdentOf(pod))
  }

  /** The pod is stored as it came, except that it keeps the aliases stored for its uid when it brings none. */
  predicate StoredAgain(before: map<string, Spec>, pod: Spec, after: map<string, Spec>)
    requires pod.uid in before
  {
    after == before[pod.uid := if pod.aliases == [] then pod.(aliases := before[pod.uid].aliases) else pod]
  }

  /** A new pod that brings aliases gives them to some twin; one that brings none takes those of some twin. */
  ghost predicate StoredBeside(before: map<string, Spec>, pod: Spec, after: map<string, Spec>, u: string) {
    && Twin(before, u, pod)
    && after == if pod.aliases != [] then before[u := before[u].(aliases := pod.aliases)]
                else before[pod.uid := pod.(aliases := before[u].aliases)]
  }

  /** What an upsert does to the desired pods. */
  ghost predicate UpsertedAs(before: map<string, Spec>, pod: Spec, after: map<string, Spec>) {
    if pod.uid in before then StoredAgain(before, pod, after)
    else if exists u :: Twin(before, u, pod) then exists u :: StoredBeside(before, pod, after, u)
    else after == before[pod.uid := pod]
  }

  class Manager {
    var desired: map<string, Spec>

    ghost predicate Valid()
      reads this
    {
      forall u :: u in desired ==> desired[u].uid == u
    }

    ghost function Idents(): Desired
      reads this
    {
      map u | u in desired :: IdentOf(desired[u])
    }

    constructor ()
      ensures Valid() && Idents() == map[]
    {
      desired := map[];
    }

    /** `existing` is whichever equivalent pod the map walk finds first. */
    method Upsert(incoming: Spec)
      requires Valid()
      modifies this
      ensures Valid()
      ensures Idents() == Upserted(old(Idents()), incoming)
      ensures UpsertedAs(old(desired), incoming, desired)
      ensures forall u :: u in old(desired) ==>
                u in desired && (old(desired[u].aliases) != [] ==> desired[u].aliases != [])
      ensures incoming.aliases != [] && incoming.uid in desired ==> desired[incoming.uid].aliases == incoming.aliases
    {
      var pod := incoming;
      var isNew := pod.uid !in desired;
      if isNew {
        var existing := FindEquivalent(pod);
        if existing.Some? {
          var other := desired[existing.value];
          if pod.aliases != [] {
            if other.aliases != pod.aliases {
              desired := desired[existing.value := other.(aliases := pod.aliases)];
            }
            assert Merges(old(Idents()), incoming);
            assert StoredBeside(old(desired), incoming, desired, existing.value);
            return;
          }
          if other.aliases != [] {
            pod := pod.(aliases := other.aliases);
          }
          assert StoredBeside(old(desired), incoming, desired[pod.uid := pod], existing.value);
        }
      } else if pod.aliases == [] && desired[pod.uid].aliases != [] {
        pod := pod.(aliases := desired[pod.uid].aliases);
      }
      desired := desired[pod.uid := pod];
    }

    method FindEquivalent(pod: Spec) returns (found: Option<string>)
      requires Valid()
      ensures found.Some? <==> HasEquivalent(Idents(), pod.uid, IdentOf(pod))
      ensures found.Some? ==> Twin(desired, found.value, pod)
      ensures found.None? ==> forall u :: !Twin(desired, u, pod)
    {
      var todo := desired.Keys;
      while todo != {}
        invariant todo <= desired.Keys
        invariant forall u :: u in desired && u !in todo && u != pod.uid ==>
                    !Equivalent(IdentOf(desired[u]), IdentOf(pod))
      {
        var u :| u in todo;
        if Equivalent(IdentOf(desired[u]), IdentOf(pod)) && desired[u].uid != pod.uid {
          assert Idents()[u] == IdentOf(desired[u]);
          return Some(u);
        }
        todo := todo - {u};
      }
      return None;
    }

    method RemovePod(uid: string)
      requires Valid()
      modifies this
      ensures Valid()
      ensures Idents() == old(Idents()) - {uid}
    {
      desired := desired - {uid};
    }

    /** One turn of the dispatcher loop. */
    method Dispatch(u: PodUpdate)
      requires Valid()
      modifies this
      ensures Valid()
      ensures Idents() == Dispatched(old(Idents()), u)
    {
      if u.op == Remove {
        RemovePod(u.pod.uid);
      } else {
        Upsert(u.pod);
      }
    }
  }

  // -- Replaying a stream ------------------------------------------------------

  ghost function Replay(updates: seq<PodUpdate>): Desired {
    if updates == [] then map[]
    else Dispatched(Replay(updates[..|updates| - 1]), updates[|updates| - 1])
  }

  predicate Removes(u: PodUpdate, uid: string) {
    u.op == Remove && u.pod.uid == uid
  }

  predicate Upserts(u: PodUpdate, uid: string) {
    u.op != Remove && u.pod.uid == uid
  }

  /** An upsert of `uid` at position `i` that the manager really stored. */
  ghost predicate Stores(updates: seq<PodUpdate>, i: int, uid: string) {
    0 <= i < |updates| && Upserts(updates[i], uid) && !Merges(Replay(updates[..i]), updates[i].pod)
  }

  predicate NoRemoveAfter(updates: seq<PodUpdate>, i: int, uid: string) {
    forall j :: i < j < |updates| && 0 <= j ==> !Removes(updates[j], uid)
  }

  lemma StoresPrefix(updates: seq<PodUpdate>, n: nat, i: nat, uid: string)
    requires i < n <= |updates|
    ensures Stores(updates, i, uid) <==> Stores(updates[..n], i, uid)
  {
    assert updates[..n][..i] == updates[..i];
  }

  lemma {:induction false} DesiredWasStored(updates: seq<PodUpdate>, uid: string) returns (i: nat)
    requires uid in Replay(updates)
    ensures Stores(updates, i, uid) && NoRemoveAfter(updates, i, uid)
    decreases |updates|
  {
    var n := |updates| - 1;
    if uid in Replay(updates[..n]) && !Removes(updates[n], uid) {
      i := DesiredWasStored(updates[..n], uid);
      StoresPrefix(updates, n, i, uid);
    } else {
      i := n;
    }
  }

  lemma {:induction false} StoredIsDesired(updates: seq<PodUpdate>, uid: string, i: nat)
    requires Stores(updates, i, uid) && NoRemoveAfter(updates, i, uid)
    ensures uid in Replay(updates)
    decreases |updates|
  {
    var n := |updates| - 1;
    if i < n {
      StoresPrefix(updates, n, i, uid);
      StoredIsDesired(updates[..n], uid, i);
    }
  }

  /** For every stream: a uid is desired exactly when some stored upsert of it was not followed by a Remove. */
  lemma DesiredIff(updates: seq<PodUpdate>, uid: string)
    ensures uid in Replay(updates) <==> exists i :: Stores(updates, i, uid) && NoRemoveAfter(updates, i, uid)
  {
    if uid in Replay(updates) {
      var i := DesiredWasStored(updates, uid);
    }
    if i :| Stores(updates, i, uid) && NoRemoveAfter(updates, i, uid) {
      StoredIsDesired(updates, uid, i);
    }
  }

  /** Once removed and never upserted again, a uid stays out of the desired set. */
  lemma RemovedStaysOut(updates: seq<PodUpdate>, i: nat, n: nat, uid: string)
    requires i < n <= |updates| && Removes(updates[i], uid)
    requires forall j :: i < j < |updates| ==> !Upserts(updates[j], uid)
    ensures uid !in Replay(updates[..n])
  {
    var prefix := updates[..n];
    DesiredIff(prefix, uid);
    forall k | Stores(prefix, k, uid)
      ensures !NoRemoveAfter(prefix, k, uid)
    {
      assert prefix[k] == updates[k] && k < i;
      assert Removes(prefix[i], uid);
    }
  }
}
