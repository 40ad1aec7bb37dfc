/** The static-pod source: repeated scans of a directory of manifests. */
module FileSource {
  import opened Wrappers
  import opened PodManager

  /** How reading one manifest ended; failures leave `known` alone. */
  datatype Entry = Entry(path: string, isManifest: bool, parsed: Option<Spec>)

  /**
   One turn of the loop: the directory is absent and the turn is skipped, cannot be read, or
   yields entries (a listing that breaks off yields the entries before the error).
   */
  datatype Scan = Absent | Unreadable | Listing(entries: seq<Entry>)

  type Known = map<string, string>

  /** An update together with the path that caused it. */
  datatype Sent = Sent(path: string, op: Operation, pod: Spec)

  function OpFor(known: Known, path: string, uid: string): Operation {
    if path in known then (if known[path] == uid then Reconcile else Update) else Add
  }

  datatype State = State(known: Known, sent: seq<Sent>)

  const EMPTY := State(map[], [])

  function Seen(s: State, e: Entry): State {
    if e.isManifest && e.parsed.Some? then
      var pod := e.parsed.value;
      State(s.known[e.path := pod.uid], s.sent + [Sent(e.path, OpFor(s.known, e.path, pod.uid), pod)])
    else s
  }

  function SeenAll(s: State, entries: seq<Entry>): State {
    if entries == [] then s else Seen(SeenAll(s, entries[..|entries| - 1]), entries[|entries| - 1])
  }

  function Current(entries: seq<Entry>): set<string> {
    set e | e in entries && e.isManifest :: e.path
  }

  /** The pod a Remove is synthesised for; only its uid matters to the manager. */
  function Tombstone(uid: string): Spec {
    Spec(uid, "default", "", "", [])
  }

  function Dropped(s: State, path: string): State {
    if path in s.known then State(s.known - {path}, s.sent + [Sent(path, Remove, Tombstone(s.known[path]))]) else s
  }

  function DroppedAll(s: State, paths: seq<string>): State {
    if paths == [] then s else Dropped(DroppedAll(s, paths[..|paths| - 1]), paths[|paths| - 1])
  }

  /** `removed` is collected from a hash map: the vanished paths, each once, in any order. */
  ghost predicate IsRemoved(known: Known, current: set<string>, removed: seq<string>) {
    && (forall p :: p in removed <==> p in known && p !in current)
    && (forall i, j :: 0 <= i < j < |removed| ==> removed[i] != removed[j])
  }

  function EntriesOf(scan: Scan): seq<Entry> {
    if scan.Listing? then scan.entries else []
  }

  ghost predicate IsTurn(s: State, scan: Scan, t: State) {
    if scan.Absent? then t == s
    else exists removed :: IsRemoved(SeenAll(s, EntriesOf(scan)).known, Current(EntriesOf(scan)), removed)
                           && t == DroppedAll(SeenAll(s, EntriesOf(scan)), removed)
  }

  class FilePodSource {
    var known: Known
    var sent: seq<Sent>

    function Value(): State
      reads this
    {
      State(known, sent)
    }

    constructor ()
      ensures Value() == EMPTY
    {
      known, sent := map[], [];
    }

    method ScanOnce(scan: Scan)
      modifies this
      ensures IsTurn(old(Value()), scan, Value())
      ensures forall path :: path in old(known) ==>
                (path !in known <==> !scan.Absent? && !Shows(EntriesOf(scan), path))
    {
      if scan.Absent? {
        return;
      }
      var entries := EntriesOf(scan);
      for i := 0 to |entries|
        invariant Value() == SeenAll(old(Value()), entries[..i])
      {
        assert entries[..i + 1][..i] == entries[..i];
        var e := entries[i];
        if e.isManifest && e.parsed.Some? {
          var pod := e.parsed.value;
          var op := if e.path in known && known[e.path] == pod.uid then Reconcile
                    else if e.path in known then Update else Add;
          known := known[e.path := pod.uid];
          sent := sent + [Sent(e.path, op, pod)];
        }
      }
      assert entries[..|entries|] == entries;
      RemoveVanished(Current(entries));
      assert IsTurn(old(Value()), scan, Value());
      forall path | path in old(known)
        ensures path !in known <==> !Shows(entries, path)
      {
        ForgottenIff(old(Value()), scan, Value(), path);
      }
    }

    method RemoveVanished(current: set<string>)
      modifies this
      ensures exists removed :: IsRemoved(old(known), current, removed) && Value() == DroppedAll(old(Value()), removed)
    {
      var todo := set p | p in known && p !in current;
      ghost var removed: seq<string> := [];
      while todo != {}
        invariant todo <= old(known).Keys - current
        invariant forall p :: p in removed <==> p in old(known) && p !in current && p !in todo
        invariant forall i, j :: 0 <= i < j < |removed| ==> removed[i] != removed[j]
        invariant Value() == DroppedAll(old(Value()), removed)
      {
        var path :| path in todo;
        ghost var more := removed + [path];
        assert more[..|removed|] == removed;
        if path in known {
          sent := sent + [Sent(path, Remove, Tombstone(known[path]))];
          known := known - {path};
        }
        removed := more;
        todo := todo - {path};
      }
      assert IsRemoved(old(known), current, removed);
    }
  }

  // -- What a turn forgets -------------------------------------------------------

  /** The entries hold a manifest of the path that parses. */
  predicate Parses(entries: seq<Entry>, path: string) {
    exists i :: 0 <= i < |entries| && entries[i].path == path && entries[i].isManifest && entries[i].parsed.Some?
  }

  lemma {:induction false} KnownAfterSeen(s: State, entries: seq<Entry>, path: string)
    ensures path in SeenAll(s, entries).known <==> path in s.known || Parses(entries, path)
    decreases |entries|
  {
    if entries != [] {
      var n := |entries| - 1;
      KnownAfterSeen(s, entries[..n], path);
      assert forall i :: 0 <= i < n ==> entries[..n][i] == entries[i];
    }
  }

  lemma {:induction false} KnownAfterDropped(s: State, paths: seq<string>, path: string)
    ensures path in DroppedAll(s, paths).known <==> path in s.known && path !in paths
    decreases |paths|
  {
    if paths != [] {
      var n := |paths| - 1;
      KnownAfterDropped(s, paths[..n], path);
      assert paths == paths[..n] + [paths[n]];
    }
  }

  /** Some entry is a manifest of the path, whether it can be read and parsed or not. */
  predicate Shows(entries: seq<Entry>, path: string) {
    exists i :: 0 <= i < |entries| && entries[i].path == path && entries[i].isManifest
  }

  lemma CurrentIsShown(entries: seq<Entry>, path: string)
    ensures path in Current(entries) <==> Shows(entries, path)
  {
  }

  /** After a turn that was not skipped the known paths are the ones shown that parse or were known before. */
  lemma KnownAfterTurn(s: State, scan: Scan, t: State, path: string)
    requires IsTurn(s, scan, t) && !scan.Absent?
    ensures path in t.known <==>
              && (exists i :: 0 <= i < |EntriesOf(scan)| && EntriesOf(scan)[i].path == path
                              && EntriesOf(scan)[i].isManifest)
              && (path in s.known || Parses(EntriesOf(scan), path))
    ensures path in t.known <==>
              Shows(EntriesOf(scan), path) && (path in s.known || Parses(EntriesOf(scan), path))
  {
    var seen := SeenAll(s, EntriesOf(scan));
    var removed :| IsRemoved(seen.known, Current(EntriesOf(scan)), removed) && t == DroppedAll(seen, removed);
    CurrentIsShown(EntriesOf(scan), path);
    KnownAfterSeen(s, EntriesOf(scan), path);
    KnownAfterDropped(seen, removed, path);
  }

  /** A known path is forgotten exactly when the directory is there and no entry is a manifest of it, parsed or not. */
  lemma ForgottenIff(s: State, scan: Scan, t: State, path: string)
    requires IsTurn(s, scan, t) && path in s.known
    ensures path !in t.known <==>
              && !scan.Absent?
              && !exists i :: 0 <= i < |EntriesOf(scan)| && EntriesOf(scan)[i].path == path
                              && EntriesOf(scan)[i].isManifest
  {
    if !scan.Absent? {
      KnownAfterTurn(s, scan, t, path);
    }
  }

  /** Nothing sent from position `n` on concerns the path. */
  predicate SilentFrom(sent: seq<Sent>, n: nat, path: string) {
    forall i :: n <= i < |sent| ==> sent[i].path != path
  }

  lemma {:induction false} SeenAllSilent(s: State, entries: seq<Entry>, path: string)
    requires !Parses(entries, path)
    ensures var t := SeenAll(s, entries);
            && s.sent <= t.sent && SilentFrom(t.sent, |s.sent|, path)
            && (path in t.known <==> path in s.known) && (path in s.known ==> t.known[path] == s.known[path])
    decreases |entries|
  {
    if entries != [] {
      var n := |entries| - 1;
      assert forall i :: 0 <= i < n ==> entries[..n][i] == entries[i];
      assert !Parses(entries[..n], path);
      SeenAllSilent(s, entries[..n], path);
    }
  }

  lemma {:induction false} DroppedAllSilent(s: State, paths: seq<string>, path: string)
    requires path !in paths
    ensures var t := DroppedAll(s, paths);
            && s.sent <= t.sent && SilentFrom(t.sent, |s.sent|, path)
            && (path in t.known <==> path in s.known) && (path in s.known ==> t.known[path] == s.known[path])
    decreases |paths|
  {
    if paths != [] {
      DroppedAllSilent(s, paths[..|paths| - 1], path);
      assert paths[|paths| - 1] != path;
    }
  }

  /** A half-written manifest: a turn that shows a path and cannot parse it leaves it as it was and sends nothing. */
  lemma UnparsedIsLeftAlone(s: State, scan: Scan, t: State, path: string)
    requires IsTurn(s, scan, t) && !scan.Absent? && Shows(EntriesOf(scan), path) && !Parses(EntriesOf(scan), path)
    ensures path in t.known <==> path in s.known
    ensures path in s.known ==> t.known[path] == s.known[path]
    ensures s.sent <= t.sent && forall i :: |s.sent| <= i < |t.sent| ==> t.sent[i].path != path
  {
    var seen := SeenAll(s, EntriesOf(scan));
    var removed :| IsRemoved(seen.known, Current(EntriesOf(scan)), removed) && t == DroppedAll(seen, removed);
    CurrentIsShown(EntriesOf(scan), path);
    SeenAllSilent(s, EntriesOf(scan), path);
    DroppedAllSilent(seen, removed, path);
  }

  /** A directory that cannot be read is taken for an empty one: every pod is forgotten. */
  lemma UnreadableForgetsAll(s: State, t: State)
    ensures IsTurn(s, Unreadable, t) <==> IsTurn(s, Listing([]), t)
    ensures IsTurn(s, Unreadable, t) ==> t.known == map[]
  {
    assert EntriesOf(Listing([])) == EntriesOf(Unreadable);
    if IsTurn(s, Unreadable, t) {
      forall p | p in t.known
        ensures false
      {
        KnownAfterTurn(s, Unreadable, t, p);
      }
    }
  }

  // -- Runs --------------------------------------------------------------------

  /** The states before, between and after the scans. */
  ghost predicate IsRun(scans: seq<Scan>, states: seq<State>) {
    && |states| == |scans| + 1
    && states[0] == EMPTY
    && forall i :: 0 <= i < |scans| ==> IsTurn(states[i], scans[i], states[i + 1])
  }

  // -- The language of a path --------------------------------------------------

  /** (Add (Reconcile | Update)* Remove)*: None once the word has left the language, else whether a cycle is open. */
  function Step(open: Option<bool>, op: Operation): Option<bool> {
    match (open, op)
    case (Some(false), Add) => Some(true)
    case (Some(true), Reconcile) => Some(true)
    case (Some(true), Update) => Some(true)
    case (Some(true), Remove) => Some(false)
    case _ => None
  }

  function Track(sent: seq<Sent>, path: string): Option<bool> {
    if sent == [] then Some(false)
    else
      var before, last := Track(sent[..|sent| - 1], path), sent[|sent| - 1];
      if last.path == path then Step(before, last.op) else before
  }

  ghost predicate InLanguage(s: State) {
    forall p :: Track(s.sent, p) == Some(p in s.known)
  }

  lemma TrackSnoc(sent: seq<Sent>, x: Sent, path: string)
    ensures Track(sent + [x], path) == if x.path == path then Step(Track(sent, path), x.op) else Track(sent, path)
  {
  }

  lemma {:induction false} SeenAllInLanguage(s: State, entries: seq<Entry>)
    requires InLanguage(s)
    ensures InLanguage(SeenAll(s, entries))
    decreases |entries|
  {
    if entries != [] {
      var front, e := entries[..|entries| - 1], entries[|entries| - 1];
      SeenAllInLanguage(s, front);
      var t := SeenAll(s, front);
      if e.isManifest && e.parsed.Some? {
        forall p {
          TrackSnoc(t.sent, Sent(e.path, OpFor(t.known, e.path, e.parsed.value.uid), e.parsed.value), p);
        }
      }
    }
  }

  lemma {:induction false} DroppedAllInLanguage(s: State, paths: seq<string>)
    requires InLanguage(s)
    ensures InLanguage(DroppedAll(s, paths))
    decreases |paths|
  {
    if paths != [] {
      var front, path := paths[..|paths| - 1], paths[|paths| - 1];
      DroppedAllInLanguage(s, front);
      var t := DroppedAll(s, front);
      if path in t.known {
        forall p {
          TrackSnoc(t.sent, Sent(path, Remove, Tombstone(t.known[path])), p);
        }
      }
    }
  }

  /**
   After every scan each path's updates form complete cycles of Add, any number of Reconcile
   or Update, and Remove, with one unfinished cycle exactly when the path is known.
   */
  lemma {:induction false} PathsFollowTheLanguage(scans: seq<Scan>, states: seq<State>, i: nat, path: string)
    requires IsRun(scans, states) && i < |states|
    ensures Track(states[i].sent, path) == Some(path in states[i].known)
  {
    RunInLanguage(scans, states, i);
  }

  lemma {:induction false} RunInLanguage(scans: seq<Scan>, states: seq<State>, i: nat)
    requires IsRun(scans, states) && i < |states|
    ensures InLanguage(states[i])
    decreases i
  {
    if i > 0 {
      RunInLanguage(scans, states, i - 1);
      var s, scan := states[i - 1], scans[i - 1];
      assert IsTurn(s, scan, states[i - 1 + 1]);
      if !scan.Absent? {
        SeenAllInLanguage(s, EntriesOf(scan));
        var t := SeenAll(s, EntriesOf(scan));
        var removed :| IsRemoved(t.known, Current(EntriesOf(scan)), removed) && states[i] == DroppedAll(t, removed);
        DroppedAllInLanguage(t, removed);
      }
    }
  }

  // -- Which operation is sent ----------------------------------------------------

  /** The uid last sent for the path, None when nothing was or it was removed. */
  function LastUid(sent: seq<Sent>, path: string): Option<string> {
    if sent == [] then None
    else
      var last := sent[|sent| - 1];
      if last.path != path then LastUid(sent[..|sent| - 1], path)
      else if last.op == Remove then None
      else Some(last.pod.uid)
  }

  /** Position `j` adds, reconciles or updates by what was last sent for its path, or removes just that. */
  predicate RightOperation(sent: seq<Sent>, j: nat)
    requires j < |sent|
  {
    var before, x := LastUid(sent[..j], sent[j].path), sent[j];
    && (x.op == Add <==> x.op != Remove && before == None)
    && (x.op == Reconcile <==> x.op != Remove && before == Some(x.pod.uid))
    && (x.op == Update <==> x.op != Remove && before.Some? && before != Some(x.pod.uid))
    && (x.op == Remove ==> before == Some(x.pod.uid))
  }

  ghost predicate OperationsRight(s: State) {
    && (forall p :: LastUid(s.sent, p) == if p in s.known then Some(s.known[p]) else None)
    && (forall j :: 0 <= j < |s.sent| ==> RightOperation(s.sent, j))
  }

  lemma SendKeepsOperations(s: State, x: Sent, known: Known)
    requires OperationsRight(s)
    requires known == if x.op == Remove then s.known - {x.path} else s.known[x.path := x.pod.uid]
    requires if x.op == Remove then x.path in s.known && x.pod.uid == s.known[x.path]
             else x.op == OpFor(s.known, x.path, x.pod.uid)
    ensures OperationsRight(State(known, s.sent + [x]))
  {
    var more := s.sent + [x];
    assert more[..|s.sent|] == s.sent;
    forall p
      ensures LastUid(more, p) == if p in known then Some(known[p]) else None
    {
      assert LastUid(s.sent, p) == if p in s.known then Some(s.known[p]) else None;
    }
    forall j | 0 <= j < |more|
      ensures RightOperation(more, j)
    {
      if j < |s.sent| {
        assert more[..j] == s.sent[..j] && RightOperation(s.sent, j);
      }
    }
  }

  lemma {:induction false} SeenAllKeepsOperations(s: State, entries: seq<Entry>)
    requires OperationsRight(s)
    ensures OperationsRight(SeenAll(s, entries))
    decreases |entries|
  {
    if entries != [] {
      var t, e := SeenAll(s, entries[..|entries| - 1]), entries[|entries| - 1];
      SeenAllKeepsOperations(s, entries[..|entries| - 1]);
      if e.isManifest && e.parsed.Some? {
        var pod := e.parsed.value;
        SendKeepsOperations(t, Sent(e.path, OpFor(t.known, e.path, pod.uid), pod), t.known[e.path := pod.uid]);
      }
    }
  }

  lemma {:induction false} DroppedAllKeepsOperations(s: State, paths: seq<string>)
    requires OperationsRight(s)
    ensures OperationsRight(DroppedAll(s, paths))
    decreases |paths|
  {
    if paths != [] {
      var t, path := DroppedAll(s, paths[..|paths| - 1]), paths[|paths| - 1];
      DroppedAllKeepsOperations(s, paths[..|paths| - 1]);
      if path in t.known {
        SendKeepsOperations(t, Sent(path, Remove, Tombstone(t.known[path])), t.known - {path});
      }
    }
  }

  /**
   In every run an update is an Add when the path was not sent or was removed, a Reconcile when the
   uid is the one last sent for it, an Update when it is another, and a Remove is of the uid last sent.
   */
  lemma {:induction false} OperationsFollowUids(scans: seq<Scan>, states: seq<State>, i: nat)
    requires IsRun(scans, states) && i < |states|
    ensures OperationsRight(states[i])
    decreases i
  {
    if i > 0 {
      OperationsFollowUids(scans, states, i - 1);
      var s, scan := states[i - 1], scans[i - 1];
      assert IsTurn(s, scan, states[i - 1 + 1]);
      if !scan.Absent? {
        SeenAllKeepsOperations(s, EntriesOf(scan));
        var t := SeenAll(s, EntriesOf(scan));
        var removed :| IsRemoved(t.known, Current(EntriesOf(scan)), removed) && states[i] == DroppedAll(t, removed);
        DroppedAllKeepsOperations(t, removed);
      }
    }
  }

  // -- What the dispatcher makes of the stream ---------------------------------

  function Updates(sent: seq<Sent>): (us: seq<PodUpdate>)
    ensures |us| == |sent| && forall i :: 0 <= i < |us| ==> us[i] == PodUpdate(sent[i].op, sent[i].pod)
  {
    seq(|sent|, i requires 0 <= i < |sent| => PodUpdate(sent[i].op, sent[i].pod))
  }

  /** The last update of the uid, if any, is an upsert. */
  ghost predicate Pending(us: seq<PodUpdate>, uid: string) {
    exists i :: 0 <= i < |us| && Upserts(us[i], uid) && NoRemoveAfter(us, i, uid)
  }

  lemma PendingSnoc(us: seq<PodUpdate>, x: PodUpdate, uid: string)
    ensures Pending(us + [x], uid) <==> Upserts(x, uid) || (Pending(us, uid) && !Removes(x, uid))
  {
    var more := us + [x];
    if Upserts(x, uid) {
      assert Upserts(more[|us|], uid) && NoRemoveAfter(more, |us|, uid);
    } else if Pending(us, uid) && !Removes(x, uid) {
      var i :| 0 <= i < |us| && Upserts(us[i], uid) && NoRemoveAfter(us, i, uid);
      assert Upserts(more[i], uid) && NoRemoveAfter(more, i, uid);
    }
    if Pending(more, uid) && !Upserts(x, uid) {
      var i :| 0 <= i < |more| && Upserts(more[i], uid) && NoRemoveAfter(more, i, uid);
      assert i < |us| && Upserts(us[i], uid);
      assert forall j :: i < j < |us| ==> more[j] == us[j];
      assert NoRemoveAfter(us, i, uid);
      assert !Removes(more[|us|], uid);
    }
  }

  /** The manifests a directory may hold over time: a path's content may change, its uid may not. */
  datatype Manifest = Manifest(path: string, spec: Spec)

  type Catalog = set<Manifest>

  /** Each path keeps one uid, and different paths have different uids. */
  predicate Stable(catalog: Catalog) {
    forall a, b :: a in catalog && b in catalog ==> (a.path == b.path <==> a.spec.uid == b.spec.uid)
  }

  predicate Listed(catalog: Catalog, entries: seq<Entry>) {
    forall i :: 0 <= i < |entries| && entries[i].isManifest && entries[i].parsed.Some? ==>
      Manifest(entries[i].path, entries[i].parsed.value) in catalog
  }

  /** Every scan finds only manifests of the catalog. */
  predicate Over(catalog: Catalog, scans: seq<Scan>) {
    forall i :: 0 <= i < |scans| ==> Listed(catalog, EntriesOf(scans[i]))
  }

  /** No manifest with host aliases has a name equivalent to that of another path's manifest. */
  predicate NoClash(catalog: Catalog) {
    forall a, b :: a in catalog && b in catalog && a.path != b.path && a.spec.aliases != [] ==>
      !Equivalent(IdentOf(b.spec), IdentOf(a.spec))
  }

  ghost predicate HasUid(catalog: Catalog, uid: string) {
    exists m :: m in catalog && m.spec.uid == uid
  }

  /** The known paths are the ones whose uid is pending in the stream, and every upsert is of a catalogued manifest. */
  ghost predicate KnownIsPending(s: State, catalog: Catalog) {
    && (forall m :: m in catalog ==> (m.path in s.known <==> Pending(Updates(s.sent), m.spec.uid)))
    && (forall m :: m in catalog && m.path in s.known ==> s.known[m.path] == m.spec.uid)
    && (forall p :: p in s.known ==> HasPath(catalog, p))
    && (forall u :: Pending(Updates(s.sent), u) ==> HasUid(catalog, u))
  }

  ghost predicate HasPath(catalog: Catalog, path: string) {
    exists m :: m in catalog && m.path == path
  }

  predicate Catalogued(sent: seq<Sent>, catalog: Catalog) {
    forall i :: 0 <= i < |sent| && sent[i].op != Remove ==> Manifest(sent[i].path, sent[i].pod) in catalog
  }

  lemma SendKeepsPending(s: State, catalog: Catalog, m: Manifest, op: Operation, pod: Spec, known: Known)
    requires KnownIsPending(s, catalog) && Stable(catalog)
    requires m in catalog && pod.uid == m.spec.uid
    requires known == if op == Remove then s.known - {m.path} else s.known[m.path := pod.uid]
    ensures KnownIsPending(State(known, s.sent + [Sent(m.path, op, pod)]), catalog)
  {
    PendingAfter(s.sent, Sent(m.path, op, pod));
  }

  lemma PendingAfter(sent: seq<Sent>, x: Sent)
    ensures forall u :: Pending(Updates(sent + [x]), u) <==>
              if u == x.pod.uid then x.op != Remove else Pending(Updates(sent), u)
  {
    var us := Updates(sent);
    assert Updates(sent + [x]) == us + [PodUpdate(x.op, x.pod)];
    forall u {
      PendingSnoc(us, PodUpdate(x.op, x.pod), u);
    }
  }

  lemma {:induction false} SeenAllKeepsPending(s: State, entries: seq<Entry>, catalog: Catalog)
    requires KnownIsPending(s, catalog) && Catalogued(s.sent, catalog) && Stable(catalog) && Listed(catalog, entries)
    ensures KnownIsPending(SeenAll(s, entries), catalog) && Catalogued(SeenAll(s, entries).sent, catalog)
    decreases |entries|
  {
    if entries != [] {
      var front, e := entries[..|entries| - 1], entries[|entries| - 1];
      SeenAllKeepsPending(s, front, catalog);
      var t := SeenAll(s, front);
      if e.isManifest && e.parsed.Some? {
        var pod := e.parsed.value;
        SendKeepsPending(t, catalog, Manifest(e.path, pod), OpFor(t.known, e.path, pod.uid), pod,
                         t.known[e.path := pod.uid]);
      }
    }
  }

  lemma {:induction false} DroppedAllKeepsPending(s: State, paths: seq<string>, catalog: Catalog)
    requires KnownIsPending(s, catalog) && Catalogued(s.sent, catalog) && Stable(catalog)
    ensures KnownIsPending(DroppedAll(s, paths), catalog) && Catalogued(DroppedAll(s, paths).sent, catalog)
    decreases |paths|
  {
    if paths != [] {
      DroppedAllKeepsPending(s, paths[..|paths| - 1], catalog);
      DropKeepsPending(DroppedAll(s, paths[..|paths| - 1]), paths[|paths| - 1], catalog);
    }
  }

  lemma DropKeepsPending(s: State, path: string, catalog: Catalog)
    requires KnownIsPending(s, catalog) && Catalogued(s.sent, catalog) && Stable(catalog)
    ensures KnownIsPending(Dropped(s, path), catalog) && Catalogued(Dropped(s, path).sent, catalog)
  {
    if path in s.known {
      var m :| m in catalog && m.path == path;
      SendKeepsPending(s, catalog, m, Remove, Tombstone(s.known[path]), s.known - {path});
    }
  }

  lemma {:induction false} RunKnownIsPending(scans: seq<Scan>, states: seq<State>, catalog: Catalog, i: nat)
    requires IsRun(scans, states) && Stable(catalog) && Over(catalog, scans) && i < |states|
    ensures KnownIsPending(states[i], catalog) && Catalogued(states[i].sent, catalog)
    decreases i
  {
    if i > 0 {
      RunKnownIsPending(scans, states, catalog, i - 1);
      var s, scan := states[i - 1], scans[i - 1];
      assert IsTurn(s, scan, states[i - 1 + 1]);
      if !scan.Absent? {
        SeenAllKeepsPending(s, EntriesOf(scan), catalog);
        var t := SeenAll(s, EntriesOf(scan));
        var removed :| IsRemoved(t.known, Current(EntriesOf(scan)), removed) && states[i] == DroppedAll(t, removed);
        DroppedAllKeepsPending(t, removed, catalog);
      }
    }
  }

  /** After every scan the dispatcher's desired uids are among the known ones. */
  lemma ReplayIsAmongKnown(scans: seq<Scan>, states: seq<State>, catalog: Catalog, i: nat)
    requires IsRun(scans, states) && Stable(catalog) && Over(catalog, scans) && i < |states|
    ensures Replay(Updates(states[i].sent)).Keys <= states[i].known.Values
  {
    RunKnownIsPending(scans, states, catalog, i);
    var s := states[i];
    var us := Updates(s.sent);
    forall u | u in Replay(us)
      ensures u in s.known.Values
    {
      DesiredIff(us, u);
      var k :| Stores(us, k, u) && NoRemoveAfter(us, k, u);
      assert Pending(us, u);
      var m :| m in catalog && m.spec.uid == u;
      assert m.path in s.known && s.known[m.path] == u;
    }
  }

  /** A desired pod was stored under the name of a catalogued manifest of its uid. */
  ghost predicate FromCatalog(d: Desired, catalog: Catalog) {
    forall u :: u in d ==> HasIdent(catalog, u, d[u])
  }

  ghost predicate HasIdent(catalog: Catalog, uid: string, id: Ident) {
    exists m :: m in catalog && m.spec.uid == uid && IdentOf(m.spec) == id
  }

  lemma {:induction false} ReplayIsFromCatalog(sent: seq<Sent>, catalog: Catalog, k: nat)
    requires Catalogued(sent, catalog) && k <= |sent|
    ensures FromCatalog(Replay(Updates(sent)[..k]), catalog)
  {
    if k > 0 {
      ReplayIsFromCatalog(sent, catalog, k - 1);
      var us := Updates(sent);
      assert us[..k][..k - 1] == us[..k - 1];
      if us[k - 1].op != Remove {
        assert HasIdent(catalog, us[k - 1].pod.uid, IdentOf(us[k - 1].pod)) by {
          assert Manifest(sent[k - 1].path, sent[k - 1].pod) in catalog;
        }
      }
    }
  }

  lemma NothingMerges(sent: seq<Sent>, catalog: Catalog, k: nat)
    requires Catalogued(sent, catalog) && Stable(catalog) && NoClash(catalog)
    requires k < |sent| && sent[k].op != Remove
    ensures !Merges(Replay(Updates(sent)[..k]), sent[k].pod)
  {
    ReplayIsFromCatalog(sent, catalog, k);
    var d, pod := Replay(Updates(sent)[..k]), sent[k].pod;
    var a := Manifest(sent[k].path, pod);
    forall u | u in d && u != pod.uid && pod.aliases != []
      ensures !Equivalent(d[u], IdentOf(pod))
    {
      var b :| b in catalog && b.spec.uid == u && IdentOf(b.spec) == d[u];
      assert a in catalog;
    }
  }

  /** The desired uids are exactly the known ones. */
  ghost predicate ReplayIsKnown(s: State) {
    Replay(Updates(s.sent)).Keys == s.known.Values
  }

  lemma NoClashGivesKnown(scans: seq<Scan>, states: seq<State>, catalog: Catalog, i: nat)
    requires IsRun(scans, states) && Stable(catalog) && Over(catalog, scans) && i < |states| && NoClash(catalog)
    ensures ReplayIsKnown(states[i])
  {
    RunKnownIsPending(scans, states, catalog, i);
    ReplayIsAmongKnown(scans, states, catalog, i);
    var s := states[i];
    var us := Updates(s.sent);
    forall p | p in s.known
      ensures s.known[p] in Replay(us)
    {
      var u := s.known[p];
      var m :| m in catalog && m.path == p;
      assert Pending(us, u);
      var k :| 0 <= k < |us| && Upserts(us[k], u) && NoRemoveAfter(us, k, u);
      NothingMerges(s.sent, catalog, k);
      assert Stores(us, k, u);
      DesiredIff(us, u);
    }
  }

  function EntryOf(m: Manifest): Entry {
    Entry(m.path, true, Some(m.spec))
  }

  /** The state after one scan that finds `b` and then `a`. */
  function TwoSeen(a: Manifest, b: Manifest): State {
    State(map[b.path := b.spec.uid, a.path := a.spec.uid], [Sent(b.path, Add, b.spec), Sent(a.path, Add, a.spec)])
  }

  function OneSeen(a: Manifest): State {
    State(map[a.path := a.spec.uid], [Sent(a.path, Add, a.spec)])
  }

  /** The state after a second scan that finds `b` under the path where `a` was, with another uid. */
  function Changed(a: Manifest, b: Manifest): State {
    State(map[b.path := b.spec.uid], [Sent(a.path, Add, a.spec), Sent(b.path, Update, b.spec)])
  }

  /** The state after a second scan that finds `b` and no longer finds `a`. */
  function Moved(a: Manifest, b: Manifest): State {
    State(map[b.path := b.spec.uid],
          [Sent(a.path, Add, a.spec), Sent(b.path, Add, b.spec), Sent(a.path, Remove, Tombstone(a.spec.uid))])
  }

  /** One scan with one entry, and at most one path vanishing. */
  lemma OneEntryTurn(s: State, m: Manifest, removed: seq<string>, t: State)
    requires IsRemoved(Seen(s, EntryOf(m)).known, {m.path}, removed) && t == DroppedAll(Seen(s, EntryOf(m)), removed)
    ensures IsTurn(s, Listing([EntryOf(m)]), t)
  {
    var scan, e := Listing([EntryOf(m)]), EntryOf(m);
    assert [e][..0] == [] && SeenAll(s, []) == s;
    assert SeenAll(s, [e]) == Seen(s, e);
    assert Current([e]) == {m.path} by {
      assert e in [e];
    }
    assert IsRemoved(SeenAll(s, EntriesOf(scan)).known, Current(EntriesOf(scan)), removed);
  }

  lemma OneSeenTurn(a: Manifest)
    ensures IsTurn(EMPTY, Listing([EntryOf(a)]), OneSeen(a))
  {
    assert EMPTY.sent + [Sent(a.path, Add, a.spec)] == [Sent(a.path, Add, a.spec)];
    OneEntryTurn(EMPTY, a, [], OneSeen(a));
  }

  /** A manifest whose uid changes in place: the old pod is no longer known and stays desired. */
  lemma ChangedUidStaysDesired(a: Manifest, b: Manifest)
    requires a.path == b.path && a.spec.uid != b.spec.uid
    ensures IsRun([Listing([EntryOf(a)]), Listing([EntryOf(b)])], [EMPTY, OneSeen(a), Changed(a, b)])
    ensures a.spec.uid in Replay(Updates(Changed(a, b).sent)) && !ReplayIsKnown(Changed(a, b))
  {
    OneSeenTurn(a);
    assert OneSeen(a).sent + [Sent(b.path, Update, b.spec)] == Changed(a, b).sent;
    OneEntryTurn(OneSeen(a), b, [], Changed(a, b));
    FirstStaysDesired(a, b);
  }

  lemma FirstStaysDesired(a: Manifest, b: Manifest)
    requires a.spec.uid != b.spec.uid
    ensures a.spec.uid in Replay(Updates(Changed(a, b).sent))
  {
    var us := Updates(Changed(a, b).sent);
    assert us == [PodUpdate(Add, a.spec), PodUpdate(Update, b.spec)];
    assert us[..0] == [] && Stores(us, 0, a.spec.uid) && NoRemoveAfter(us, 0, a.spec.uid);
    DesiredIff(us, a.spec.uid);
  }

  /** A manifest moved to another path in one scan: the pod is still known and its uid has been removed. */
  lemma SharedUidIsLost(a: Manifest, b: Manifest)
    requires a.path != b.path && a.spec.uid == b.spec.uid
    ensures IsRun([Listing([EntryOf(a)]), Listing([EntryOf(b)])], [EMPTY, OneSeen(a), Moved(a, b)])
    ensures a.spec.uid !in Replay(Updates(Moved(a, b).sent)) && !ReplayIsKnown(Moved(a, b))
  {
    OneSeenTurn(a);
    var found := Seen(OneSeen(a), EntryOf(b));
    assert found == State(map[a.path := a.spec.uid, b.path := b.spec.uid],
                          [Sent(a.path, Add, a.spec), Sent(b.path, Add, b.spec)]);
    assert [a.path][..0] == [] && DroppedAll(found, []) == found;
    assert DroppedAll(found, [a.path]) == Dropped(found, a.path);
    assert found.sent + [Sent(a.path, Remove, Tombstone(a.spec.uid))] == Moved(a, b).sent;
    assert found.known - {a.path} == Moved(a, b).known;
    OneEntryTurn(OneSeen(a), b, [a.path], Moved(a, b));
    var us := Updates(Moved(a, b).sent);
    assert us[|us| - 1] == PodUpdate(Remove, Tombstone(a.spec.uid));
    assert Moved(a, b).known[b.path] == a.spec.uid;
  }

  /** Two manifests with equivalent names, the second found with host aliases: both are known, one is desired. */
  lemma MergedPodIsKnownButNotDesired(a: Manifest, b: Manifest)
    requires a.path != b.path && a.spec.uid != b.spec.uid
    requires a.spec.aliases != [] && Equivalent(IdentOf(b.spec), IdentOf(a.spec))
    ensures IsRun([Listing([EntryOf(b), EntryOf(a)])], [EMPTY, TwoSeen(a, b)])
    ensures Replay(Updates(TwoSeen(a, b).sent)).Keys == {b.spec.uid} && !ReplayIsKnown(TwoSeen(a, b))
  {
    TwoSeenIsTurn(a, b);
    assert TwoSeen(a, b).known[a.path] == a.spec.uid;
    var us := Updates(TwoSeen(a, b).sent);
    assert us == [PodUpdate(Add, b.spec), PodUpdate(Add, a.spec)];
    assert us[..1] == [PodUpdate(Add, b.spec)] && us[..1][..0] == [];
    var d0 := Replay(us[..1][..0]);
    assert d0 == map[] && !Merges(d0, b.spec);
    var d1 := Replay(us[..1]);
    assert d1 == map[b.spec.uid := IdentOf(b.spec)];
    assert Equivalent(d1[b.spec.uid], IdentOf(a.spec)) && HasEquivalent(d1, a.spec.uid, IdentOf(a.spec));
    assert Replay(us) == d1;
  }

  lemma TwoSeenIsTurn(a: Manifest, b: Manifest)
    requires a.path != b.path
    ensures IsTurn(EMPTY, Listing([EntryOf(b), EntryOf(a)]), TwoSeen(a, b))
  {
    var ea, eb := EntryOf(a), EntryOf(b);
    assert [eb, ea][..1] == [eb] && [eb][..0] == [];
    assert SeenAll(EMPTY, [eb]) == Seen(EMPTY, eb);
    assert EMPTY.sent + [Sent(b.path, Add, b.spec)] == [Sent(b.path, Add, b.spec)];
    assert SeenAll(EMPTY, [eb, ea]) == TwoSeen(a, b);
    assert ea in [eb, ea] && eb in [eb, ea];
    var scan, none: seq<string> := Listing([eb, ea]), [];
    assert IsRemoved(SeenAll(EMPTY, EntriesOf(scan)).known, Current(EntriesOf(scan)), none);
    assert TwoSeen(a, b) == DroppedAll(SeenAll(EMPTY, EntriesOf(scan)), none);
  }

  /**
   What a scan means for the desired set: one that cannot read the directory empties it, and one
   that finds no directory leaves it as it is.
   */
  lemma UnreadableEmptiesDesired(scans: seq<Scan>, states: seq<State>, catalog: Catalog, i: nat)
    requires IsRun(scans, states) && Stable(catalog) && Over(catalog, scans) && i < |scans|
    ensures scans[i].Unreadable? ==> Replay(Updates(states[i + 1].sent)) == map[]
    ensures scans[i].Absent? ==> Replay(Updates(states[i + 1].sent)) == Replay(Updates(states[i].sent))
  {
    assert IsTurn(states[i], scans[i], states[i + 1]);
    if scans[i].Unreadable? {
      UnreadableForgetsAll(states[i], states[i + 1]);
      ReplayIsAmongKnown(scans, states, catalog, i + 1);
    }
  }

  /** Without clashes, a turn that was not skipped empties the desired set exactly when it lists no pod it can know. */
  lemma ScanEmptiesDesiredIff(scans: seq<Scan>, states: seq<State>, catalog: Catalog, i: nat)
    requires IsRun(scans, states) && Stable(catalog) && NoClash(catalog) && Over(catalog, scans)
    requires i < |scans| && !scans[i].Absent?
    ensures Replay(Updates(states[i + 1].sent)) == map[] <==>
              forall p :: Shows(EntriesOf(scans[i]), p) ==>
                p !in states[i].known && !Parses(EntriesOf(scans[i]), p)
  {
    var s, t := states[i], states[i + 1];
    assert IsTurn(s, scans[i], t);
    NoClashGivesKnown(scans, states, catalog, i + 1);
    forall p
      ensures p in t.known <==> Shows(EntriesOf(scans[i]), p) && (p in s.known || Parses(EntriesOf(scans[i]), p))
    {
      KnownAfterTurn(s, scans[i], t, p);
    }
    if p :| p in t.known {
      assert t.known[p] in t.known.Values;
    }
  }

  /** On every run over the catalog, after every scan, the desired uids are the known ones. */
  ghost predicate AlwaysKnown(catalog: Catalog) {
    forall scans, states, i: nat :: IsRun(scans, states) && Over(catalog, scans) && i < |states| ==>
      ReplayIsKnown(states[i])
  }

  /**
   For every catalog of manifests: replaying the stream gives the known pods on every run if and
   only if paths and uids stay paired and no manifests clash.
   */
  lemma ReplayGivesKnown(catalog: Catalog)
    ensures AlwaysKnown(catalog) <==> Stable(catalog) && NoClash(catalog)
  {
    if !Stable(catalog) {
      UnstableUidsAreNotKnown(catalog);
    } else if NoClash(catalog) {
      forall scans, states, i: nat | IsRun(scans, states) && Over(catalog, scans) && i < |states|
        ensures ReplayIsKnown(states[i])
      {
        NoClashGivesKnown(scans, states, catalog, i);
      }
    } else {
      var a, b :| a in catalog && b in catalog && a.path != b.path && a.spec.aliases != []
                  && Equivalent(IdentOf(b.spec), IdentOf(a.spec));
      MergedPodIsKnownButNotDesired(a, b);
      assert Over(catalog, [Listing([EntryOf(b), EntryOf(a)])]);
      assert !ReplayIsKnown([EMPTY, TwoSeen(a, b)][1]);
    }
  }

  lemma UnstableUidsAreNotKnown(catalog: Catalog)
    requires !Stable(catalog)
    ensures !AlwaysKnown(catalog)
  {
    var a, b :| a in catalog && b in catalog && (a.path == b.path <==> a.spec.uid != b.spec.uid);
    assert Over(catalog, [Listing([EntryOf(a)]), Listing([EntryOf(b)])]);
    if a.path == b.path {
      ChangedUidStaysDesired(a, b);
      assert !ReplayIsKnown([EMPTY, OneSeen(a), Changed(a, b)][2]);
    } else {
      SharedUidIsLost(a, b);
      assert !ReplayIsKnown([EMPTY, OneSeen(a), Moved(a, b)][2]);
    }
  }

  /** Manifests without host aliases never clash. */
  lemma ReplayGivesKnownWithoutAliases(scans: seq<Scan>, states: seq<State>, catalog: Catalog, i: nat)
    requires IsRun(scans, states) && Stable(catalog) && Over(catalog, scans) && i < |states|
    requires forall m :: m in catalog ==> m.spec.aliases == []
    ensures Replay(Updates(states[i].sent)).Keys == states[i].known.Values
  {
    NoClashGivesKnown(scans, states, catalog, i);
  }

  /** One pod name in two files, once with host aliases: stable uids alone are not enough. */
  lemma NamesakesClash()
    ensures var catalog := {Manifest("a.yaml", Spec("1", "default", "web", "n", ["host"])),
                            Manifest("b.yaml", Spec("2", "default", "web", "n", []))};
            Stable(catalog) && !AlwaysKnown(catalog)
  {
    var a := Manifest("a.yaml", Spec("1", "default", "web", "n", ["host"]));
    var b := Manifest("b.yaml", Spec("2", "default", "web", "n", []));
    assert Equivalent(IdentOf(b.spec), IdentOf(a.spec));
    ReplayGivesKnown({a, b});
  }
}
