/**
 The rotating log of one container.  The directory is a map from file index to the lines in
 `{index}.log`; an encoded line is a non-empty string.  Opening the next file can fail, a
 process can be restarted at any time, and it can stop between any two steps of a rotation.
 */
module LogManager {

  type Line = s: string | |s| > 0 witness "\n"

  type Directory = map<nat, seq<Line>>

  datatype Limits = Limits(maxSize: nat, maxFiles: nat)

  /** The directory and the manager's fields; `open` is `current_file.is_some()`. */
  datatype Log = Log(dir: Directory, index: nat, size: nat, open: bool)

  const INDEX_LIMIT := 0x1_0000_0000

  function Bytes(lines: seq<Line>): nat {
    if lines == [] then 0 else Bytes(lines[..|lines| - 1]) + |lines[|lines| - 1]|
  }

  // -- Opening -----------------------------------------------------------------

  ghost predicate IsMax(keys: set<nat>, m: nat) {
    m in keys && forall k :: k in keys ==> k <= m
  }

  lemma {:induction false} MaxExists(keys: set<nat>)
    requires keys != {}
    ensures exists m :: IsMax(keys, m)
  {
    var k :| k in keys;
    if keys == {k} {
      assert IsMax(keys, k);
    } else {
      var rest := keys - {k};
      assert keys == rest + {k};
      MaxExists(rest);
      var m :| IsMax(rest, m);
      assert IsMax(keys, if k <= m then m else k);
    }
  }

  /** The highest index in the directory, 0 when there is none. */
  ghost function CurrentIndex(dir: Directory): (m: nat)
    ensures if dir == map[] then m == 0 else IsMax(dir.Keys, m)
  {
    if dir == map[] then 0
    else
      MaxExists(dir.Keys);
      var m: nat :| IsMax(dir.Keys, m); m
  }

  ghost function Opened(dir: Directory): Log {
    var i := CurrentIndex(dir);
    if i in dir then Log(dir, i, Bytes(dir[i]), true) else Log(dir[i := []], i, 0, true)
  }

  // -- Rotating and writing ----------------------------------------------------

  /** The fields after `current_index += 1`; the index is a u32 and wraps. */
  function Advanced(log: Log): Log {
    Log(log.dir, (log.index + 1) % INDEX_LIMIT, 0, false)
  }

  function Pruned(lim: Limits, log: Log): Log {
    if log.index >= lim.maxFiles then log.(dir := log.dir - {log.index - lim.maxFiles}) else log
  }

  /** Create and truncate the current file. */
  function Recreated(log: Log): Log {
    log.(dir := log.dir[log.index := []], open := true)
  }

  function Rotated(lim: Limits, log: Log, openOk: bool): Log {
    var p := Pruned(lim, Advanced(log));
    if openOk then Recreated(p) else p
  }

  predicate NeedsRotation(lim: Limits, log: Log, line: Line) {
    log.size + |line| > lim.maxSize
  }

  function Appended(log: Log, line: Line): Log {
    if log.open && log.index in log.dir
    then log.(dir := log.dir[log.index := log.dir[log.index] + [line]], size := log.size + |line|)
    else log
  }

  function Written(lim: Limits, log: Log, line: Line, openOk: bool): Log {
    if NeedsRotation(lim, log, line) then
      if openOk then Appended(Rotated(lim, log, true), line) else Rotated(lim, log, false)
    else Appended(log, line)
  }

  /** `write` fails only when it had to rotate and the next file did not open. */
  predicate WriteOk(lim: Limits, log: Log, line: Line, openOk: bool) {
    NeedsRotation(lim, log, line) ==> openOk
  }

  // -- Reading back ------------------------------------------------------------

  /** Lines of the files with index in [lo, hi), oldest first. */
  function Concat(dir: Directory, lo: nat, hi: nat): seq<Line>
    decreases hi
  {
    if lo >= hi then [] else Concat(dir, lo, hi - 1) + if hi - 1 in dir then dir[hi - 1] else []
  }

  function FirstListed(lim: Limits, log: Log): nat {
    if log.index + 1 >= lim.maxFiles then log.index + 1 - lim.maxFiles else 0
  }

  /** The contents of `log_files()`, concatenated. */
  function Readable(lim: Limits, log: Log): seq<Line> {
    Concat(log.dir, FirstListed(lim, log), log.index + 1)
  }

  ghost predicate IsSuffix<T>(s: seq<T>, whole: seq<T>) {
    |s| <= |whole| && whole[|whole| - |s|..] == s
  }

  /** One container's log manager with its directory. */
  class ContainerLogManager {
    const limits: Limits
    var dir: Directory
    var currentIndex: nat
    var currentSize: nat
    var currentFile: bool

    function State(): Log
      reads this
    {
      Log(dir, currentIndex, currentSize, currentFile)
    }

    /** `new` on an existing directory: continue in its newest file. */
    constructor (onDisk: Directory, limits: Limits)
      ensures this.limits == limits
      ensures State() == Opened(onDisk)
    {
      this.limits := limits;
      var i := FindCurrentIndex(onDisk);
      currentIndex := i;
      currentSize := if i in onDisk then Bytes(onDisk[i]) else 0;
      dir := if i in onDisk then onDisk else onDisk[i := []];
      currentFile := true;
    }

    static method FindCurrentIndex(onDisk: Directory) returns (best: nat)
      ensures best == CurrentIndex(onDisk)
    {
      best := 0;
      var todo := onDisk.Keys;
      while todo != {}
        invariant todo <= onDisk.Keys
        invariant forall k :: k in onDisk && k !in todo ==> k <= best
        invariant todo == onDisk.Keys ==> best == 0
        invariant best in onDisk || best == 0
        invariant todo != onDisk.Keys && best == 0 ==> 0 in onDisk
      {
        var k :| k in todo;
        if k > best {
          best := k;
        }
        todo := todo - {k};
      }
      if onDisk != map[] {
        assert onDisk.Keys != {};
        assert IsMax(onDisk.Keys, best);
      }
    }

    method Rotate(openOk: bool) returns (ok: bool)
      modifies this
      ensures State() == Rotated(limits, old(State()), openOk)
      ensures ok == openOk
    {
      currentFile := false;
      currentIndex := (currentIndex + 1) % INDEX_LIMIT;
      currentSize := 0;
      if currentIndex >= limits.maxFiles {
        var toDelete := currentIndex - limits.maxFiles;
        dir := dir - {toDelete};
      }
      if !openOk {
        return false;
      }
      dir := dir[currentIndex := []];
      currentFile := true;
      return true;
    }

    method Write(line: Line, openOk: bool) returns (ok: bool)
      requires currentFile ==> currentIndex in dir
      modifies this
      ensures State() == Written(limits, old(State()), line, openOk)
      ensures ok == WriteOk(limits, old(State()), line, openOk)
    {
      if currentSize + |line| > limits.maxSize {
        var rotated := Rotate(openOk);
        if !rotated {
          return false;
        }
      }
      if currentFile {
        dir := dir[currentIndex := dir[currentIndex] + [line]];
        currentSize := currentSize + |line|;
      }
      return true;
    }

    /** Indices of the listed files, oldest first. */
    method LogFiles() returns (files: seq<nat>)
      requires limits.maxFiles >= 1
      ensures files == Listed(dir, FirstListed(limits, State()), currentIndex + 1)
    {
      var start := FirstListed(limits, State());
      files := [];
      for i := start to currentIndex + 1
        invariant files == Listed(dir, start, i)
      {
        if i in dir {
          files := files + [i];
        }
      }
    }
  }

  function Listed(dir: Directory, lo: nat, hi: nat): seq<nat>
    decreases hi
  {
    if lo >= hi then [] else Listed(dir, lo, hi - 1) + if hi - 1 in dir then [hi - 1] else []
  }

  function Contents(dir: Directory, files: seq<nat>): seq<Line>
    requires forall i :: i in files ==> i in dir
  {
    if files == [] then [] else Contents(dir, files[..|files| - 1]) + dir[files[|files| - 1]]
  }

  /** Reading the listed files in order gives exactly the lines called readable. */
  lemma {:induction false} ListedContents(dir: Directory, lo: nat, hi: nat)
    ensures forall i :: i in Listed(dir, lo, hi) <==> lo <= i < hi && i in dir
    ensures Contents(dir, Listed(dir, lo, hi)) == Concat(dir, lo, hi)
    decreases hi
  {
    if lo < hi {
      ListedContents(dir, lo, hi - 1);
      var files := Listed(dir, lo, hi - 1);
      if hi - 1 in dir {
        assert (files + [hi - 1])[..|files|] == files;
      } else {
        assert files + [] == files;
      }
    }
  }

  // -- Runs --------------------------------------------------------------------

  /**
   Crash(pruned) stops the process inside a rotation, after the index was advanced and
   before (false) or after (true) the old file was removed, and then reopens the directory.
   */
  datatype Event =
    | Write(line: Line, openOk: bool)
    | Rotate(openOk: bool)
    | Reopen
    | Crash(pruned: bool)

  ghost function Next(lim: Limits, log: Log, e: Event): Log {
    match e
    case Write(line, openOk) => Written(lim, log, line, openOk)
    case Rotate(openOk) => Rotated(lim, log, openOk)
    case Reopen => Opened(log.dir)
    case Crash(pruned) => Opened(if pruned then Pruned(lim, Advanced(log)).dir else log.dir)
  }

  /** Lines whose `write` returned Ok. */
  function Accepted(lim: Limits, log: Log, e: Event): seq<Line> {
    if e.Write? && WriteOk(lim, log, e.line, e.openOk) then [e.line] else []
  }

  predicate Rotates(lim: Limits, log: Log, e: Event) {
    e.Rotate? || e.Crash? || (e.Write? && NeedsRotation(lim, log, e.line))
  }

  /**
   After a rotation that could not open its file, a write that fits is reported Ok although
   there is no file to put it in.
   */
  predicate SilentDrop(lim: Limits, log: Log, e: Event) {
    e.Write? && !log.open && !NeedsRotation(lim, log, e.line)
  }

  /** The lines the step really puts in a file. */
  function Stored(lim: Limits, log: Log, e: Event): seq<Line> {
    if SilentDrop(lim, log, e) then [] else Accepted(lim, log, e)
  }

  /** No more rotations than a u32 can count. */
  predicate Allowed(lim: Limits, log: Log, e: Event) {
    Rotates(lim, log, e) ==> log.index + 1 < INDEX_LIMIT
  }

  // -- The invariant -----------------------------------------------------------

  predicate InWindow(lim: Limits, log: Log) {
    forall k :: k in log.dir ==> k <= log.index < k + lim.maxFiles
  }

  predicate SizeTracked(log: Log) {
    if log.open then log.index in log.dir && log.size == Bytes(log.dir[log.index])
    else log.index !in log.dir && log.size == 0
  }

  predicate WithinSize(lim: Limits, dir: Directory) {
    forall k :: k in dir ==> Bytes(dir[k]) <= lim.maxSize || |dir[k]| == 1
  }

  ghost predicate Inv(lim: Limits, log: Log, stored: seq<Line>) {
    && InWindow(lim, log)
    && SizeTracked(log)
    && WithinSize(lim, log.dir)
    && IsSuffix(Concat(log.dir, 0, log.index + 1), stored)
  }

  // -- Concatenation lemmas ----------------------------------------------------

  lemma {:induction false} ConcatSame(a: Directory, b: Directory, lo: nat, hi: nat)
    requires forall k :: lo <= k < hi ==> (k in a <==> k in b) && (k in a ==> a[k] == b[k])
    ensures Concat(a, lo, hi) == Concat(b, lo, hi)
    decreases hi
  {
    if lo < hi {
      ConcatSame(a, b, lo, hi - 1);
    }
  }

  /** Missing and empty files contribute nothing, below ... */
  lemma {:induction false} ConcatSkipLow(dir: Directory, lo: nat, mid: nat, hi: nat)
    requires lo <= mid
    requires forall k :: lo <= k < mid && k in dir ==> dir[k] == []
    ensures Concat(dir, lo, hi) == Concat(dir, mid, hi)
    decreases hi
  {
    if lo < hi {
      ConcatSkipLow(dir, lo, mid, hi - 1);
    }
  }

  /** ... and above. */
  lemma {:induction false} ConcatSkipHigh(dir: Directory, lo: nat, mid: nat, hi: nat)
    requires mid <= hi
    requires forall k :: mid <= k < hi && k in dir ==> dir[k] == []
    ensures Concat(dir, lo, hi) == Concat(dir, lo, mid)
    decreases hi
  {
    if mid < hi {
      ConcatSkipHigh(dir, lo, mid, hi - 1);
    }
  }

  /** Dropping the oldest file drops a prefix. */
  lemma {:induction false} ConcatDrop(dir: Directory, oldest: nat, hi: nat)
    requires forall k :: k in dir ==> oldest <= k
    ensures IsSuffix(Concat(dir - {oldest}, 0, hi), Concat(dir, 0, hi))
    decreases hi
  {
    if hi > 0 {
      var a, b := Concat(dir - {oldest}, 0, hi - 1), Concat(dir, 0, hi - 1);
      ConcatDrop(dir, oldest, hi - 1);
      if hi - 1 == oldest {
        ConcatSkipHigh(dir - {oldest}, 0, 0, hi);
      } else if hi - 1 in dir {
        SuffixAppend(a, b, dir[hi - 1]);
      }
    }
  }

  lemma SuffixAppend<T>(s: seq<T>, whole: seq<T>, more: seq<T>)
    requires IsSuffix(s, whole)
    ensures IsSuffix(s + more, whole + more)
  {
  }

  lemma SuffixTrans<T>(a: seq<T>, b: seq<T>, c: seq<T>)
    requires IsSuffix(a, b) && IsSuffix(b, c)
    ensures IsSuffix(a, c)
  {
  }

  lemma ReadableIsAll(lim: Limits, log: Log)
    requires InWindow(lim, log)
    ensures Readable(lim, log) == Concat(log.dir, 0, log.index + 1)
  {
    ConcatSkipLow(log.dir, 0, FirstListed(lim, log), log.index + 1);
  }

  // -- Steps -------------------------------------------------------------------

  /** A rotation never truncates a file that exists, and removes at most a prefix of the lines. */
  lemma PruneKeepsInv(lim: Limits, log: Log, stored: seq<Line>)
    requires Inv(lim, log, stored) && lim.maxFiles >= 1 && log.index + 1 < INDEX_LIMIT
    ensures var p := Pruned(lim, Advanced(log));
            && Inv(lim, p, stored)
            && p.index == log.index + 1
            && p.index !in p.dir
  {
    var p := Pruned(lim, Advanced(log));
    var oldest := log.index + 1 - lim.maxFiles;
    assert Concat(log.dir, 0, log.index + 2) == Concat(log.dir, 0, log.index + 1) by {
      ConcatSkipHigh(log.dir, 0, log.index + 1, log.index + 2);
    }
    if p.index >= lim.maxFiles {
      ConcatDrop(log.dir, oldest, log.index + 2);
      SuffixTrans(Concat(p.dir, 0, log.index + 2), Concat(log.dir, 0, log.index + 2), stored);
    }
  }

  lemma RotateKeepsInv(lim: Limits, log: Log, stored: seq<Line>, openOk: bool)
    requires Inv(lim, log, stored) && lim.maxFiles >= 1 && log.index + 1 < INDEX_LIMIT
    ensures Inv(lim, Rotated(lim, log, openOk), stored)
    ensures openOk ==> Rotated(lim, log, openOk).dir[log.index + 1] == []
  {
    PruneKeepsInv(lim, log, stored);
    var p, r := Pruned(lim, Advanced(log)), Rotated(lim, log, openOk);
    if openOk {
      ConcatSame(p.dir, r.dir, 0, p.index);
    }
  }

  lemma OpenKeepsInv(lim: Limits, log: Log, dir: Directory, stored: seq<Line>)
    requires lim.maxFiles >= 1
    requires InWindow(lim, log.(dir := dir)) && WithinSize(lim, dir)
    requires IsSuffix(Concat(dir, 0, log.index + 1), stored)
    ensures Inv(lim, Opened(dir), stored)
  {
    var o := Opened(dir);
    if dir == map[] {
      ConcatSkipHigh(o.dir, 0, 0, 1);
    } else {
      assert dir.Keys != {};
      ConcatSkipHigh(dir, 0, o.index + 1, log.index + 1);
    }
  }

  lemma AppendSizes(lim: Limits, log: Log, line: Line)
    requires InWindow(lim, log) && SizeTracked(log) && WithinSize(lim, log.dir) && log.open
    requires NeedsRotation(lim, log, line) ==> log.dir[log.index] == []
    ensures var a := Appended(log, line); InWindow(lim, a) && SizeTracked(a) && WithinSize(lim, a.dir)
  {
    var before := log.dir[log.index];
    assert (before + [line])[..|before|] == before;
  }

  lemma AppendConcat(log: Log, line: Line)
    requires log.open && log.index in log.dir
    ensures Concat(Appended(log, line).dir, 0, log.index + 1) == Concat(log.dir, 0, log.index + 1) + [line]
  {
    ConcatSame(log.dir, Appended(log, line).dir, 0, log.index);
    var all, before := Concat(log.dir, 0, log.index), log.dir[log.index];
    assert (all + before) + [line] == all + (before + [line]);
  }

  lemma AppendKeepsInv(lim: Limits, log: Log, stored: seq<Line>, line: Line)
    requires Inv(lim, log, stored) && log.open
    requires NeedsRotation(lim, log, line) ==> log.dir[log.index] == []
    ensures Inv(lim, Appended(log, line), stored + [line])
  {
    AppendSizes(lim, log, line);
    AppendConcat(log, line);
    SuffixAppend(Concat(log.dir, 0, log.index + 1), stored, [line]);
  }

  lemma RotatingWriteKeepsInv(lim: Limits, log: Log, stored: seq<Line>, line: Line)
    requires Inv(lim, log, stored) && lim.maxFiles >= 1 && log.index + 1 < INDEX_LIMIT
    ensures Inv(lim, Appended(Rotated(lim, log, true), line), stored + [line])
  {
    RotateKeepsInv(lim, log, stored, true);
    var r := Rotated(lim, log, true);
    assert r.index == log.index + 1 && r.open;
    AppendKeepsInv(lim, r, stored, line);
  }

  lemma WriteKeepsInv(lim: Limits, log: Log, stored: seq<Line>, e: Event)
    requires Inv(lim, log, stored) && lim.maxFiles >= 1 && e.Write? && Allowed(lim, log, e)
    ensures Inv(lim, Next(lim, log, e), stored + Stored(lim, log, e))
  {
    if SilentDrop(lim, log, e) {
      assert stored + Stored(lim, log, e) == stored;
    } else if !NeedsRotation(lim, log, e.line) {
      AppendKeepsInv(lim, log, stored, e.line);
      assert Stored(lim, log, e) == [e.line];
    } else if e.openOk {
      RotatingWriteKeepsInv(lim, log, stored, e.line);
      assert Stored(lim, log, e) == [e.line];
    } else {
      RotateKeepsInv(lim, log, stored, false);
      assert stored + Stored(lim, log, e) == stored;
    }
  }

  lemma CrashKeepsInv(lim: Limits, log: Log, stored: seq<Line>, pruned: bool)
    requires Inv(lim, log, stored) && lim.maxFiles >= 1 && Allowed(lim, log, Crash(pruned))
    ensures Inv(lim, Next(lim, log, Crash(pruned)), stored)
  {
    if pruned {
      PruneKeepsInv(lim, log, stored);
      var p := Pruned(lim, Advanced(log));
      OpenKeepsInv(lim, p, p.dir, stored);
    } else {
      OpenKeepsInv(lim, log, log.dir, stored);
    }
  }

  lemma StepKeepsInv(lim: Limits, log: Log, stored: seq<Line>, e: Event)
    requires Inv(lim, log, stored) && lim.maxFiles >= 1 && Allowed(lim, log, e)
    ensures Inv(lim, Next(lim, log, e), stored + Stored(lim, log, e))
  {
    if e.Write? {
      WriteKeepsInv(lim, log, stored, e);
    } else {
      assert stored + Stored(lim, log, e) == stored;
      match e
      case Rotate(openOk) => RotateKeepsInv(lim, log, stored, openOk);
      case Reopen => OpenKeepsInv(lim, log, log.dir, stored);
      case Crash(pruned) => CrashKeepsInv(lim, log, stored, pruned);
    }
  }

  // -- Whole runs --------------------------------------------------------------

  ghost predicate Guarded(lim: Limits, log: Log, run: seq<Event>)
    decreases |run|
  {
    run != [] ==> Allowed(lim, log, run[0]) && Guarded(lim, Next(lim, log, run[0]), run[1..])
  }

  ghost function Run(lim: Limits, log: Log, run: seq<Event>): Log
    decreases |run|
  {
    if run == [] then log else Run(lim, Next(lim, log, run[0]), run[1..])
  }

  /** Every line reported written, in order. */
  ghost function History(lim: Limits, log: Log, run: seq<Event>): seq<Line>
    decreases |run|
  {
    if run == [] then [] else Accepted(lim, log, run[0]) + History(lim, Next(lim, log, run[0]), run[1..])
  }

  /** Every line put in a file, in order. */
  ghost function StoredLines(lim: Limits, log: Log, run: seq<Event>): seq<Line>
    decreases |run|
  {
    if run == [] then [] else Stored(lim, log, run[0]) + StoredLines(lim, Next(lim, log, run[0]), run[1..])
  }

  ghost predicate NoDrop(lim: Limits, log: Log, run: seq<Event>)
    decreases |run|
  {
    run != [] ==> !SilentDrop(lim, log, run[0]) && NoDrop(lim, Next(lim, log, run[0]), run[1..])
  }

  /** What was stored is what was reported written if and only if nothing was dropped silently. */
  lemma {:induction false} StoredIsHistoryIff(lim: Limits, log: Log, run: seq<Event>)
    ensures |StoredLines(lim, log, run)| <= |History(lim, log, run)|
    ensures StoredLines(lim, log, run) == History(lim, log, run) <==> NoDrop(lim, log, run)
    decreases |run|
  {
    if run != [] {
      var next := Next(lim, log, run[0]);
      StoredIsHistoryIff(lim, next, run[1..]);
      var first := Accepted(lim, log, run[0]);
      if !SilentDrop(lim, log, run[0]) {
        assert (first + StoredLines(lim, next, run[1..]))[|first|..] == StoredLines(lim, next, run[1..]);
        assert (first + History(lim, next, run[1..]))[|first|..] == History(lim, next, run[1..]);
      }
    }
  }

  lemma ConcatAssociates<T>(a: seq<T>, b: seq<T>, c: seq<T>)
    ensures (a + b) + c == a + (b + c)
  {
  }

  lemma {:induction false} RunKeepsInv(lim: Limits, log: Log, stored: seq<Line>, run: seq<Event>)
    requires Inv(lim, log, stored) && lim.maxFiles >= 1 && Guarded(lim, log, run)
    ensures Inv(lim, Run(lim, log, run), stored + StoredLines(lim, log, run))
    decreases |run|
  {
    if run == [] {
      assert stored + [] == stored;
    } else {
      var e := run[0];
      StepKeepsInv(lim, log, stored, e);
      var next, more := Next(lim, log, e), Stored(lim, log, e);
      RunKeepsInv(lim, next, stored + more, run[1..]);
      ConcatAssociates(stored, more, StoredLines(lim, next, run[1..]));
    }
  }

  lemma InvFresh(lim: Limits)
    requires lim.maxFiles >= 1
    ensures Inv(lim, Opened(map[]), [])
  {
  }

  lemma {:induction false} CountBelow(keys: set<nat>, lo: nat, n: nat)
    requires forall k :: k in keys ==> lo <= k < lo + n
    ensures |keys| <= n
  {
    if n > 0 {
      CountBelow(keys - {lo + n - 1}, lo, n - 1);
    } else {
      assert keys == {};
    }
  }

  /**
   After any run of writes, rotations, reopens and crashes, what can be read is a suffix of
   what was stored, and that is what was reported written exactly when nothing was dropped
   silently; the tracked size is the file's size, no file is over the limit unless it is a
   single line, and at most `maxFiles` files exist.
   */
  lemma ReadableIsSuffix(lim: Limits, run: seq<Event>)
    requires lim.maxFiles >= 1 && Guarded(lim, Opened(map[]), run)
    ensures var start := Opened(map[]);
            var log := Run(lim, start, run);
            && IsSuffix(Readable(lim, log), StoredLines(lim, start, run))
            && (StoredLines(lim, start, run) == History(lim, start, run) <==> NoDrop(lim, start, run))
            && SizeTracked(log)
            && WithinSize(lim, log.dir)
            && |log.dir| <= lim.maxFiles
  {
    InvFresh(lim);
    var start := Opened(map[]);
    RunKeepsInv(lim, start, [], run);
    var log := Run(lim, start, run);
    assert [] + StoredLines(lim, start, run) == StoredLines(lim, start, run);
    StoredIsHistoryIff(lim, start, run);
    ReadableIsAll(lim, log);
    CountBelow(log.dir.Keys, FirstListed(lim, log), lim.maxFiles);
    assert |log.dir| == |log.dir.Keys|;
  }

  /** The next index is free, so opening it with truncate discards nothing. */
  lemma TruncateIsHarmless(lim: Limits, run: seq<Event>)
    requires lim.maxFiles >= 1 && Guarded(lim, Opened(map[]), run)
    requires Run(lim, Opened(map[]), run).index + 1 < INDEX_LIMIT
    ensures var p := Pruned(lim, Advanced(Run(lim, Opened(map[]), run)));
            p.index !in p.dir
  {
    InvFresh(lim);
    RunKeepsInv(lim, Opened(map[]), [], run);
    PruneKeepsInv(lim, Run(lim, Opened(map[]), run), [] + StoredLines(lim, Opened(map[]), run));
  }

  // -- The silent drop ---------------------------------------------------------

  /** What stays readable of the log while a line is written: everything, or what a rotation leaves. */
  function Remaining(lim: Limits, log: Log, line: Line): seq<Line> {
    if NeedsRotation(lim, log, line) then Readable(lim, Rotated(lim, log, true)) else Readable(lim, log)
  }

  /**
   When `write` reports Ok, the readable text grows by the line at its end exactly when the write
   is not a silent drop, that is, when a file is open or the line forces a rotation.
   */
  lemma OkWriteIsStoredIff(lim: Limits, log: Log, stored: seq<Line>, e: Event)
    requires Inv(lim, log, stored) && lim.maxFiles >= 1 && e.Write? && Allowed(lim, log, e)
    requires WriteOk(lim, log, e.line, e.openOk)
    ensures Readable(lim, Next(lim, log, e)) == Remaining(lim, log, e.line) + [e.line] <==> !SilentDrop(lim, log, e)
    ensures IsSuffix(Remaining(lim, log, e.line), Readable(lim, log))
  {
    var next := Next(lim, log, e);
    ReadableIsAll(lim, log);
    if SilentDrop(lim, log, e) {
      assert next == log;
    } else {
      WriteKeepsInv(lim, log, stored, e);
      ReadableIsAll(lim, next);
      if NeedsRotation(lim, log, e.line) {
        RotateKeepsInv(lim, log, Concat(log.dir, 0, log.index + 1), true);
        ReadableIsAll(lim, Rotated(lim, log, true));
        AppendConcat(Rotated(lim, log, true), e.line);
      } else {
        AppendConcat(log, e.line);
      }
    }
  }

  lemma RunCons(lim: Limits, log: Log, e: Event, rest: seq<Event>)
    ensures Run(lim, log, [e] + rest) == Run(lim, Next(lim, log, e), rest)
    ensures History(lim, log, [e] + rest) == Accepted(lim, log, e) + History(lim, Next(lim, log, e), rest)
  {
  }

  /** One failed open is enough for a line reported written to be missing between two readable ones. */
  lemma SilentDropLosesALine()
    ensures var lim, start := Limits(10, 3), Log(map[0 := []], 0, 0, true);
            var run := [Write("a", true)] + [Rotate(false)] + [Write("b", true)] + [Rotate(true)] + [Write("c", true)];
            && History(lim, start, run) == ["a", "b", "c"]
            && Readable(lim, Run(lim, start, run)) == ["a", "c"]
            && !IsSuffix(["a", "c"], ["a", "b", "c"])
  {
    var lim, s0 := Limits(10, 3), Log(map[0 := []], 0, 0, true);
    var s1, s2 := Log(map[0 := ["a"]], 0, 1, true), Log(map[0 := ["a"]], 1, 0, false);
    var s4, s5 := Log(map[0 := ["a"], 2 := []], 2, 0, true), Log(map[0 := ["a"], 2 := ["c"]], 2, 1, true);
    SilentDropSteps(lim, s0, s1, s2, s4, s5);
    var r5 := [Write("c", true)];
    var r4 := [Rotate(true)] + r5;
    var r3 := [Write("b", true)] + r4;
    var r2 := [Rotate(false)] + r3;
    var run := [Write("a", true)] + r2;
    RunCons(lim, s0, Write("a", true), r2);
    RunCons(lim, s1, Rotate(false), r3);
    RunCons(lim, s2, Write("b", true), r4);
    RunCons(lim, s2, Rotate(true), r5);
    assert r5 == r5 + [];
    RunCons(lim, s4, Write("c", true), []);
    assert run == [Write("a", true)] + [Rotate(false)] + [Write("b", true)] + [Rotate(true)] + [Write("c", true)];
    assert Concat(s5.dir, 0, 1) == ["a"] && Concat(s5.dir, 0, 2) == ["a"];
  }

  lemma SilentDropSteps(lim: Limits, s0: Log, s1: Log, s2: Log, s4: Log, s5: Log)
    requires lim == Limits(10, 3) && s0 == Log(map[0 := []], 0, 0, true)
    requires s1 == Log(map[0 := ["a"]], 0, 1, true) && s2 == Log(map[0 := ["a"]], 1, 0, false)
    requires s4 == Log(map[0 := ["a"], 2 := []], 2, 0, true) && s5 == Log(map[0 := ["a"], 2 := ["c"]], 2, 1, true)
    ensures Next(lim, s0, Write("a", true)) == s1 && Accepted(lim, s0, Write("a", true)) == ["a"]
    ensures Next(lim, s1, Rotate(false)) == s2
    ensures Next(lim, s2, Write("b", true)) == s2 && Accepted(lim, s2, Write("b", true)) == ["b"]
    ensures Next(lim, s2, Rotate(true)) == s4
    ensures Next(lim, s4, Write("c", true)) == s5 && Accepted(lim, s4, Write("c", true)) == ["c"]
  {
    var none: seq<Line> := [];
    assert none + ["a"] == ["a"] && none + ["c"] == ["c"];
  }

  // -- Retention ---------------------------------------------------------------

  /** The step removes file `i`: a rotation, or a crash inside one after the removal, at that index. */
  predicate Prunes(lim: Limits, log: Log, e: Event, i: nat) {
    && (e.Rotate? || (e.Crash? && e.pruned) || (e.Write? && NeedsRotation(lim, log, e.line)))
    && log.index + 1 == i + lim.maxFiles
  }

  /** File `i` is listed and starts with these lines. */
  predicate Shows(lim: Limits, log: Log, i: nat, lines: seq<Line>) {
    i in log.dir && lines <= log.dir[i] && FirstListed(lim, log) <= i <= log.index
  }

  lemma RotationShowsIff(lim: Limits, log: Log, stored: seq<Line>, openOk: bool, i: nat, lines: seq<Line>)
    requires Inv(lim, log, stored) && lim.maxFiles >= 1 && log.index + 1 < INDEX_LIMIT
    requires Shows(lim, log, i, lines)
    ensures Shows(lim, Rotated(lim, log, openOk), i, lines) <==> log.index + 1 != i + lim.maxFiles
  {
  }

  lemma ReopenShowsIff(lim: Limits, log: Log, dir: Directory, i: nat, lines: seq<Line>)
    requires InWindow(lim, log) && dir.Keys <= log.dir.Keys && lim.maxFiles >= 1 && lines != []
    ensures Shows(lim, Opened(dir), i, lines) <==> i in dir && lines <= dir[i]
  {
  }

  lemma StepShowsIff(lim: Limits, log: Log, stored: seq<Line>, e: Event, i: nat, lines: seq<Line>)
    requires Inv(lim, log, stored) && lim.maxFiles >= 1 && Allowed(lim, log, e)
    requires lines != [] && Shows(lim, log, i, lines)
    ensures Shows(lim, Next(lim, log, e), i, lines) <==> !Prunes(lim, log, e, i)
  {
    match e
    case Write(line, openOk) =>
      if NeedsRotation(lim, log, line) {
        RotationShowsIff(lim, log, stored, openOk, i, lines);
      }
    case Rotate(openOk) => RotationShowsIff(lim, log, stored, openOk, i, lines);
    case Reopen => ReopenShowsIff(lim, log, log.dir, i, lines);
    case Crash(pruned) =>
      ReopenShowsIff(lim, log, if pruned then Pruned(lim, Advanced(log)).dir else log.dir, i, lines);
  }

  ghost predicate NeverPruned(lim: Limits, log: Log, run: seq<Event>, i: nat)
    decreases |run|
  {
    run != [] ==> !Prunes(lim, log, run[0], i) && NeverPruned(lim, Next(lim, log, run[0]), run[1..], i)
  }

  ghost predicate AlwaysShows(lim: Limits, log: Log, run: seq<Event>, i: nat, lines: seq<Line>)
    decreases |run|
  {
    Shows(lim, log, i, lines) && (run != [] ==> AlwaysShows(lim, Next(lim, log, run[0]), run[1..], i, lines))
  }

  /** The lines of a file stay readable all along a run if and only if no step of it prunes the file. */
  lemma {:induction false} LinesStayReadable(lim: Limits, log: Log, stored: seq<Line>, run: seq<Event>, i: nat,
                                             lines: seq<Line>)
    requires Inv(lim, log, stored) && lim.maxFiles >= 1 && Guarded(lim, log, run)
    requires lines != [] && Shows(lim, log, i, lines)
    ensures AlwaysShows(lim, log, run, i, lines) <==> NeverPruned(lim, log, run, i)
    decreases |run|
  {
    if run != [] {
      StepShowsIff(lim, log, stored, run[0], i, lines);
      if !Prunes(lim, log, run[0], i) {
        StepKeepsInv(lim, log, stored, run[0]);
        LinesStayReadable(lim, Next(lim, log, run[0]), stored + Stored(lim, log, run[0]), run[1..], i, lines);
      }
    }
  }

  /** A crash after the old file was removed leaves the index where it was and the file gone. */
  lemma CrashForgetsTheIndex(lim: Limits, log: Log, stored: seq<Line>)
    requires Inv(lim, log, stored) && log.open && lim.maxFiles >= 2
    requires lim.maxFiles <= log.index + 1 < INDEX_LIMIT
    requires log.index + 1 - lim.maxFiles in log.dir
    ensures var after := Next(lim, log, Crash(true));
            var i := log.index + 1 - lim.maxFiles;
            after.index == log.index && after.index - i < lim.maxFiles && i !in after.dir
  {
    var p := Pruned(lim, Advanced(log));
    assert log.index in p.dir;
    assert p.dir != map[];
  }

  // -- When a file is full -------------------------------------------------------

  /** A write goes on to the next file if and only if the line does not fit behind what the open file holds. */
  lemma WriteAdvancesIff(lim: Limits, log: Log, stored: seq<Line>, line: Line, openOk: bool)
    requires Inv(lim, log, stored) && log.index + 1 < INDEX_LIMIT
    ensures Written(lim, log, line, openOk).index == log.index
       <==> (if log.open then Bytes(log.dir[log.index]) else 0) + |line| <= lim.maxSize
    ensures Written(lim, log, line, openOk).index == log.index
         || Written(lim, log, line, openOk).index == log.index + 1
  {
  }

  /** The line that opened the next file did not fit in this one. */
  predicate FullAt(lim: Limits, dir: Directory, k: nat)
    requires k in dir
  {
    k + 1 in dir && dir[k + 1] != [] && Bytes(dir[k]) + |dir[k + 1][0]| > lim.maxSize
  }

  /** No file was left before it was full. */
  predicate Packed(lim: Limits, log: Log) {
    log.open && forall k {:trigger FullAt(lim, log.dir, k)} :: k in log.dir && k < log.index ==> FullAt(lim, log.dir, k)
  }

  /** Only writes that open their files, and reopens. */
  predicate Steady(run: seq<Event>) {
    forall i :: 0 <= i < |run| ==> run[i].Reopen? || (run[i].Write? && run[i].openOk)
  }

  /** A write that needs a rotation leaves the older files that stay as they were, and starts one with the line. */
  lemma RotatedWriteFiles(lim: Limits, log: Log, stored: seq<Line>, line: Line)
    requires Inv(lim, log, stored) && log.open && lim.maxFiles >= 1 && log.index + 1 < INDEX_LIMIT
    requires NeedsRotation(lim, log, line)
    ensures var t := Written(lim, log, line, true);
            && t.index == log.index + 1 && t.open && t.index in t.dir && t.dir[t.index] == [line]
            && (forall k :: k in t.dir && k < t.index ==> k in log.dir && t.dir[k] == log.dir[k])
            && (forall k :: k in log.dir && k != log.index + 1 - lim.maxFiles ==> k in t.dir)
  {
    var r := Rotated(lim, log, true);
    assert r.dir[r.index] == [] && [] + [line] == [line];
  }

  lemma RotatedWriteKeepsPacked(lim: Limits, log: Log, stored: seq<Line>, line: Line)
    requires Inv(lim, log, stored) && Packed(lim, log) && lim.maxFiles >= 1 && log.index + 1 < INDEX_LIMIT
    requires NeedsRotation(lim, log, line)
    ensures Packed(lim, Written(lim, log, line, true))
  {
    RotatedWriteFiles(lim, log, stored, line);
    var t := Written(lim, log, line, true);
    forall k | k in t.dir && k < t.index
      ensures FullAt(lim, t.dir, k)
    {
      assert k < log.index ==> FullAt(lim, log.dir, k);
    }
  }

  lemma ReopenKeepsPacked(lim: Limits, log: Log, stored: seq<Line>)
    requires Inv(lim, log, stored) && Packed(lim, log)
    ensures Packed(lim, Opened(log.dir))
  {
    assert log.index in log.dir && log.dir.Keys != {};
    assert IsMax(log.dir.Keys, log.index);
  }

  lemma StepKeepsPacked(lim: Limits, log: Log, stored: seq<Line>, e: Event)
    requires Inv(lim, log, stored) && Packed(lim, log) && lim.maxFiles >= 1 && Allowed(lim, log, e)
    requires e.Reopen? || (e.Write? && e.openOk)
    ensures Packed(lim, Next(lim, log, e))
  {
    match e
    case Write(line, openOk) =>
      if NeedsRotation(lim, log, line) {
        RotatedWriteKeepsPacked(lim, log, stored, line);
      } else {
        AppendKeepsPacked(lim, log, stored, line);
      }
    case Reopen => ReopenKeepsPacked(lim, log, stored);
  }

  lemma {:induction false} RunKeepsPacked(lim: Limits, log: Log, stored: seq<Line>, run: seq<Event>)
    requires Inv(lim, log, stored) && Packed(lim, log) && lim.maxFiles >= 1
    requires Guarded(lim, log, run) && Steady(run)
    ensures Packed(lim, Run(lim, log, run))
    decreases |run|
  {
    if run != [] {
      StepKeepsPacked(lim, log, stored, run[0]);
      StepKeepsInv(lim, log, stored, run[0]);
      RunKeepsPacked(lim, Next(lim, log, run[0]), stored + Stored(lim, log, run[0]), run[1..]);
    }
  }

  lemma AppendKeepsPacked(lim: Limits, log: Log, stored: seq<Line>, line: Line)
    requires Inv(lim, log, stored) && Packed(lim, log) && !NeedsRotation(lim, log, line)
    ensures Packed(lim, Written(lim, log, line, true))
  {
    var t := Written(lim, log, line, true);
    forall k | k in t.dir && k < t.index
      ensures FullAt(lim, t.dir, k)
    {
      assert FullAt(lim, log.dir, k);
      assert t.dir[k] == log.dir[k] && t.dir[k + 1][0] == log.dir[k + 1][0];
    }
  }

  /**
   While nobody forces a rotation, nothing crashes and every file opens, the log never starts a new
   file early: the first line of each next file would have made the one before it too large.
   */
  lemma FilesAreFull(lim: Limits, run: seq<Event>, k: nat)
    requires lim.maxFiles >= 1 && Guarded(lim, Opened(map[]), run) && Steady(run)
    requires var log := Run(lim, Opened(map[]), run); k in log.dir && k < log.index
    ensures var dir := Run(lim, Opened(map[]), run).dir;
            k + 1 in dir && dir[k + 1] != [] && Bytes(dir[k]) + |dir[k + 1][0]| > lim.maxSize
  {
    InvFresh(lim);
    RunKeepsPacked(lim, Opened(map[]), [], run);
    assert FullAt(lim, Run(lim, Opened(map[]), run).dir, k);
  }
}
