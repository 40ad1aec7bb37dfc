/**
 CPU sets and the Linux cpuset list format: decimal ids and `lo-hi` ranges separated by
 commas, as in the List format of cpuset(7).  Ids are u32, so the printer's `range_end + 1`
 is checked against overflow by the type.
 */
module CpuSet {
  import opened Wrappers
  import opened Text

  newtype u32 = x: int | 0 <= x < 0x1_0000_0000

  const MAX := 0xFFFF_FFFF

  type CpuSet = set<u32>

  /** The ids of the inclusive range, empty when it is reversed. */
  function Interval(lo: u32, hi: u32): (s: CpuSet)
    ensures forall c :: c in s <==> lo <= c <= hi
    decreases if lo <= hi then hi as int - lo as int + 1 else 0
  {
    if lo > hi then {} else if lo == hi then {lo} else {lo} + Interval(lo + 1, hi)
  }

  // -- Ascending order (BTreeSet iteration) ------------------------------------

  predicate IsMin(s: CpuSet, m: u32) {
    m in s && forall c :: c in s ==> m <= c
  }

  lemma {:induction false} MinExists(s: CpuSet)
    requires s != {}
    ensures exists m :: IsMin(s, m)
  {
    var c :| c in s;
    if s == {c} {
      assert IsMin(s, c);
    } else {
      var rest := s - {c};
      assert s == rest + {c};
      MinExists(rest);
      var m :| IsMin(rest, m);
      assert IsMin(s, if m <= c then m else c);
    }
  }

  function Min(s: CpuSet): (m: u32)
    requires s != {}
    ensures IsMin(s, m)
  {
    MinExists(s);
    var m :| m in s && IsMin(s, m);
    m
  }

  predicate StrictlyAscending(cpus: seq<u32>) {
    forall i, j :: 0 <= i < j < |cpus| ==> cpus[i] < cpus[j]
  }

  function Ascending(s: CpuSet): (cpus: seq<u32>)
    ensures StrictlyAscending(cpus)
    ensures forall c :: c in cpus <==> c in s
    ensures |cpus| == |s|
  {
    if s == {} then [] else [Min(s)] + Ascending(s - {Min(s)})
  }

  function Elements(cpus: seq<u32>): CpuSet {
    set c | c in cpus
  }

  // -- Ranges ------------------------------------------------------------------

  datatype Range = Range(lo: u32, hi: u32)

  /** One step of the printer's loop: extend the open range or start a new one. */
  function AddCpu(ranges: seq<Range>, cpu: u32): seq<Range> {
    if ranges != [] && cpu as int == ranges[|ranges| - 1].hi as int + 1
    then ranges[|ranges| - 1 := ranges[|ranges| - 1].(hi := cpu)]
    else ranges + [Range(cpu, cpu)]
  }

  function Collapse(cpus: seq<u32>): seq<Range> {
    if cpus == [] then [] else AddCpu(Collapse(cpus[..|cpus| - 1]), cpus[|cpus| - 1])
  }

  function Covered(ranges: seq<Range>): CpuSet {
    if ranges == [] then {}
    else Covered(ranges[..|ranges| - 1]) + Interval(ranges[|ranges| - 1].lo, ranges[|ranges| - 1].hi)
  }

  /** Non-empty, ascending, and with a gap between neighbours, so no two could be merged. */
  predicate Maximal(ranges: seq<Range>) {
    && (forall i :: 0 <= i < |ranges| ==> ranges[i].lo <= ranges[i].hi)
    && (forall i, j :: 0 <= i < j < |ranges| ==> ranges[i].hi as int + 1 < ranges[j].lo as int)
  }

  // -- Printing ----------------------------------------------------------------

  function RangeText(r: Range): string {
    if r.lo == r.hi then Dec(r.lo as int) else Dec(r.lo as int) + "-" + Dec(r.hi as int)
  }

  function Texts(ranges: seq<Range>): (parts: seq<string>)
    ensures |parts| == |ranges|
    ensures forall i :: 0 <= i < |ranges| ==> parts[i] == RangeText(ranges[i])
  {
    if ranges == [] then [] else Texts(ranges[..|ranges| - 1]) + [RangeText(ranges[|ranges| - 1])]
  }

  function Print(s: CpuSet): string {
    Join(Texts(Collapse(Ascending(s))), ',')
  }

  /** The range still open after `i` ids, and the texts of the ranges closed by then. */
  function Open(cpus: seq<u32>, i: nat): Range
    requires 0 < i <= |cpus|
  {
    CollapseNonEmpty(cpus[..i]);
    var ranges := Collapse(cpus[..i]);
    ranges[|ranges| - 1]
  }

  function ClosedTexts(cpus: seq<u32>, i: nat): seq<string>
    requires 0 < i <= |cpus|
  {
    CollapseNonEmpty(cpus[..i]);
    var ranges := Collapse(cpus[..i]);
    Texts(ranges[..|ranges| - 1])
  }

  lemma CollapseNonEmpty(cpus: seq<u32>)
    requires cpus != []
    ensures Collapse(cpus) != []
  {
  }

  lemma FirstOpen(cpus: seq<u32>)
    requires cpus != []
    ensures Open(cpus, 1) == Range(cpus[0], cpus[0]) && ClosedTexts(cpus, 1) == []
  {
    assert cpus[..1] == [cpus[0]] && [cpus[0]][..0] == [];
    assert Collapse([cpus[0]]) == AddCpu(Collapse([]), cpus[0]) == [Range(cpus[0], cpus[0])];
  }

  lemma NextOpen(cpus: seq<u32>, i: nat)
    requires 0 < i < |cpus|
    ensures cpus[i] as int == Open(cpus, i).hi as int + 1 ==>
              Open(cpus, i + 1) == Range(Open(cpus, i).lo, cpus[i]) && ClosedTexts(cpus, i + 1) == ClosedTexts(cpus, i)
    ensures cpus[i] as int != Open(cpus, i).hi as int + 1 ==>
              && Open(cpus, i + 1) == Range(cpus[i], cpus[i])
              && ClosedTexts(cpus, i + 1) == ClosedTexts(cpus, i) + [RangeText(Open(cpus, i))]
  {
    assert cpus[..i + 1][..i] == cpus[..i];
    CollapseNonEmpty(cpus[..i]);
    var ranges := Collapse(cpus[..i]);
    var next := AddCpu(ranges, cpus[i]);
    assert Collapse(cpus[..i + 1]) == next;
    if cpus[i] as int == Open(cpus, i).hi as int + 1 {
      assert next[..|next| - 1] == ranges[..|ranges| - 1];
    } else {
      assert next[..|next| - 1] == ranges;
    }
  }

  lemma Built(s: CpuSet, cpus: seq<u32>)
    requires cpus == Ascending(s) && cpus != []
    ensures Join(ClosedTexts(cpus, |cpus|) + [RangeText(Open(cpus, |cpus|))], ',') == Print(s)
  {
    assert cpus[..|cpus|] == cpus;
  }

  lemma PrintEmpty()
    ensures Print({}) == ""
  {
    assert Ascending({}) == [];
  }

  method ToCpusetString(s: CpuSet) returns (text: string)
    ensures text == Print(s)
  {
    if s == {} {
      PrintEmpty();
      return "";
    }
    var cpus := Ascending(s);
    var parts: seq<string> := [];
    var rangeStart := cpus[0];
    var rangeEnd := rangeStart;
    FirstOpen(cpus);
    for i := 1 to |cpus|
      invariant rangeEnd == cpus[i - 1]
      invariant Range(rangeStart, rangeEnd) == Open(cpus, i) && parts == ClosedTexts(cpus, i)
    {
      var cpu := cpus[i];
      NextOpen(cpus, i);
      if cpu == rangeEnd + 1 {
        rangeEnd := cpu;
      } else {
        parts := parts + [RangeText(Range(rangeStart, rangeEnd))];
        rangeStart, rangeEnd := cpu, cpu;
      }
    }
    Built(s, cpus);
    parts := parts + [RangeText(Range(rangeStart, rangeEnd))];
    text := Join(parts, ',');
  }

  // -- Parsing -----------------------------------------------------------------

  function ParsePart(raw: string): Result<CpuSet> {
    var part := Trim(raw);
    if part == [] then Ok({})
    else match SplitOnce(part, '-')
      case Some((a, b)) =>
        (match (ParseUnsigned(Trim(a), MAX), ParseUnsigned(Trim(b), MAX))
         case (None, _) => Err("invalid cpuset range start")
         case (Some(_), None) => Err("invalid cpuset range end")
         case (Some(lo), Some(hi)) => Ok(Interval(lo as u32, hi as u32)))
      case None =>
        (match ParseUnsigned(part, MAX)
         case None => Err("invalid cpu id")
         case Some(cpu) => Ok({cpu as u32}))
  }

  function ParseParts(parts: seq<string>): Result<CpuSet> {
    if parts == [] then Ok({})
    else match ParseParts(parts[..|parts| - 1])
      case Err(e) => Err(e)
      case Ok(s) =>
        (match ParsePart(parts[|parts| - 1])
         case Err(e) => Err(e)
         case Ok(t) => Ok(s + t))
  }

  function ParseCpus(text: string): Result<CpuSet> {
    ParseParts(Split(text, ','))
  }

  lemma {:induction false} ErrorStays(parts: seq<string>, n: nat)
    requires n <= |parts| && ParseParts(parts[..n]).Err?
    ensures ParseParts(parts) == ParseParts(parts[..n])
  {
    if n < |parts| {
      assert parts[..|parts| - 1][..n] == parts[..n];
      ErrorStays(parts[..|parts| - 1], n);
    } else {
      assert parts[..n] == parts;
    }
  }

  method Parse(text: string) returns (r: Result<CpuSet>)
    ensures r == ParseCpus(text)
  {
    var parts := Split(text, ',');
    var s: CpuSet := {};
    for i := 0 to |parts|
      invariant ParseParts(parts[..i]) == Ok(s)
    {
      assert parts[..i + 1][..i] == parts[..i];
      var one := ParseOne(parts[i]);
      if one.Err? {
        ErrorStays(parts, i + 1);
        return one;
      }
      s := s + one.value;
    }
    assert parts[..|parts|] == parts;
    return Ok(s);
  }

  method ParseOne(raw: string) returns (r: Result<CpuSet>)
    ensures r == ParsePart(raw)
  {
    var part := Trim(raw);
    if part == [] {
      return Ok({});
    }
    var halves := SplitOnce(part, '-');
    if halves.None? {
      var cpu := ParseUnsigned(part, MAX);
      return if cpu.None? then Err("invalid cpu id") else Ok({cpu.value as u32});
    }
    var lo := ParseUnsigned(Trim(halves.value.0), MAX);
    if lo.None? {
      return Err("invalid cpuset range start");
    }
    var hi := ParseUnsigned(Trim(halves.value.1), MAX);
    if hi.None? {
      return Err("invalid cpuset range end");
    }
    var s: CpuSet := {};
    var cpu := lo.value;
    while cpu <= hi.value
      invariant lo.value <= cpu && (cpu <= hi.value + 1 || cpu == lo.value)
      invariant forall c :: c in s <==> lo.value <= c as int < cpu
    {
      s := s + {cpu as u32};
      cpu := cpu + 1;
    }
    assert s == Interval(lo.value as u32, hi.value as u32);
    return Ok(s);
  }

  // -- Round trip --------------------------------------------------------------

  lemma AddCpuMaximal(ranges: seq<Range>, cpu: u32)
    requires Maximal(ranges) && (ranges != [] ==> ranges[|ranges| - 1].hi < cpu)
    ensures var more := AddCpu(ranges, cpu);
            Maximal(more) && more != [] && more[|more| - 1].hi == cpu
  {
  }

  lemma {:induction false} CollapseAscends(cpus: seq<u32>)
    requires StrictlyAscending(cpus)
    ensures Maximal(Collapse(cpus))
    ensures if cpus == [] then Collapse(cpus) == []
            else Collapse(cpus) != [] && Collapse(cpus)[|Collapse(cpus)| - 1].hi == cpus[|cpus| - 1]
    decreases |cpus|
  {
    if cpus != [] {
      var front, cpu := cpus[..|cpus| - 1], cpus[|cpus| - 1];
      CollapseAscends(front);
      AddCpuMaximal(Collapse(front), cpu);
    }
  }

  lemma {:induction false} CollapseCovers(cpus: seq<u32>)
    requires StrictlyAscending(cpus)
    ensures Covered(Collapse(cpus)) == Elements(cpus)
    decreases |cpus|
  {
    if cpus != [] {
      var front, cpu := cpus[..|cpus| - 1], cpus[|cpus| - 1];
      CollapseCovers(front);
      CollapseAscends(front);
      CoveredAdd(Collapse(front), cpu);
      assert cpus == front + [cpu];
      MembersSnoc(cpus, front, cpu);
    }
  }

  /** The ranges built are maximal, cover exactly the ids and end with the last one. */
  lemma CollapseIsMaximal(cpus: seq<u32>)
    requires StrictlyAscending(cpus)
    ensures Maximal(Collapse(cpus))
    ensures Covered(Collapse(cpus)) == set c | c in cpus
    ensures if cpus == [] then Collapse(cpus) == []
            else Collapse(cpus) != [] && Collapse(cpus)[|Collapse(cpus)| - 1].hi == cpus[|cpus| - 1]
  {
    CollapseAscends(cpus);
    CollapseCovers(cpus);
  }

  lemma MembersSnoc(cpus: seq<u32>, front: seq<u32>, cpu: u32)
    requires cpus == front + [cpu]
    ensures Elements(cpus) == Elements(front) + {cpu}
  {
  }

  lemma CoveredAdd(ranges: seq<Range>, cpu: u32)
    requires Maximal(ranges)
    ensures Covered(AddCpu(ranges, cpu)) == Covered(ranges) + {cpu}
  {
  }

  lemma RangeTextParses(r: Range)
    requires r.lo <= r.hi
    ensures RangeText(r) != [] && ',' !in RangeText(r)
    ensures ParsePart(RangeText(r)) == Ok(Interval(r.lo, r.hi))
  {
    var a, b := Dec(r.lo as int), Dec(r.hi as int);
    DecDigits(r.lo as int);
    DecDigits(r.hi as int);
    assert '-' !in a && '-' !in b && ',' !in a && ',' !in b;
    TrimNoSpace(a);
    TrimNoSpace(b);
    ParseDec(r.lo as int, MAX);
    ParseDec(r.hi as int, MAX);
    if r.lo == r.hi {
      SplitOnceWithout(a, '-');
      assert Interval(r.lo, r.hi) == {r.lo};
    } else {
      TrimNoSpace(a + "-" + b);
      assert a + "-" + b == a + ['-'] + b;
      SplitOnceAt(a, b, '-');
    }
  }

  lemma {:induction false} TextsParse(ranges: seq<Range>)
    requires Maximal(ranges)
    ensures ParseParts(Texts(ranges)) == Ok(Covered(ranges))
  {
    if ranges != [] {
      var front := ranges[..|ranges| - 1];
      TextsParse(front);
      RangeTextParses(ranges[|ranges| - 1]);
      assert Texts(ranges)[..|front|] == Texts(front);
    }
  }

  lemma EmptyTextParses()
    ensures ParseCpus("") == Ok({})
  {
    var parts := Split("", ',');
    assert parts == [""] && parts[..0] == [];
    assert Trim("") == "" && ParsePart("") == Ok({});
    var none: CpuSet := {};
    assert ParseParts(parts[..0]) == Ok(none) && none + none == none;
  }

  /** A printed part holds a dash exactly when it stands for more than one CPU. */
  lemma PartShape(r: Range)
    ensures '-' in RangeText(r) <==> r.lo != r.hi
    ensures r.lo == r.hi ==> RangeText(r) == Dec(r.lo as int)
  {
    DecDigits(r.lo as int);
    if r.lo != r.hi {
      var n := |Dec(r.lo as int)|;
      assert RangeText(r)[n] == '-';
    }
  }

  lemma DecPlain(n: nat)
    ensures NoSpace(Dec(n)) && Dec(n) != [] && '-' !in Dec(n) && ',' !in Dec(n) && Trimmed(Dec(n))
  {
    DecDigits(n);
    assert forall i :: 0 <= i < |Dec(n)| ==> IsDigit(Dec(n)[i]);
  }

  /** A number's text between white space, on either side of the dash. */
  predicate Plain(x: string) {
    NoSpace(x) && x != [] && '-' !in x
  }

  lemma PaddedWhole(x: string, y: string, a: string, b: string, c: string, e: string)
    requires AllSpace(a) && AllSpace(e) && Plain(x) && Plain(y)
    ensures Trim(a + x + b + "-" + c + y + e) == x + b + "-" + c + y
  {
    var middle := x + b + "-" + c + y;
    assert middle[0] == x[0] && middle[|middle| - 1] == y[|y| - 1];
    assert a + x + b + "-" + c + y + e == a + middle + e;
    TrimPadded(a, middle, e);
  }

  lemma PaddedDash(x: string, y: string, b: string, c: string)
    requires AllSpace(b) && Plain(x)
    ensures SplitOnce(x + b + "-" + c + y, '-') == Some((x + b, c + y))
  {
    assert x + b + "-" + c + y == (x + b) + ['-'] + (c + y);
    assert forall i :: 0 <= i < |b| ==> b[i] != '-';
    SplitOnceAt(x + b, c + y, '-');
  }

  lemma PaddedSides(x: string, y: string, b: string, c: string)
    requires AllSpace(b) && AllSpace(c) && Plain(x) && Plain(y)
    ensures Trim(x + b) == x && Trim(c + y) == y
  {
    assert "" + x + b == x + b && c + y + "" == c + y;
    TrimPadded("", x, b);
    TrimPadded(c, y, "");
  }

  /** A range reads as the ids between its ends, none when they are reversed, with white space around either. */
  lemma PaddedRangeReads(lo: u32, hi: u32, a: string, b: string, c: string, e: string)
    requires AllSpace(a) && AllSpace(b) && AllSpace(c) && AllSpace(e)
    ensures ParsePart(a + Dec(lo as int) + b + "-" + c + Dec(hi as int) + e) == Ok(Interval(lo, hi))
  {
    var x, y := Dec(lo as int), Dec(hi as int);
    DecPlain(lo as int);
    DecPlain(hi as int);
    PaddedWhole(x, y, a, b, c, e);
    PaddedDash(x, y, b, c);
    PaddedSides(x, y, b, c);
    ParseDec(lo as int, MAX);
    ParseDec(hi as int, MAX);
  }

  /** A single id reads as itself and a blank part as nothing. */
  lemma PaddedIdReads(n: u32, a: string, e: string)
    requires AllSpace(a) && AllSpace(e)
    ensures ParsePart(a + Dec(n as int) + e) == Ok({n})
    ensures ParsePart(a) == Ok({})
  {
    DecPlain(n as int);
    TrimPadded(a, Dec(n as int), e);
    SplitOnceWithout(Dec(n as int), '-');
    ParseDec(n as int, MAX);
    assert a + "" == a;
    TrimStartPadded(a, "");
  }

  /** The part reads as a set with this id. */
  predicate PartHas(part: string, c: u32) {
    ParsePart(part).Ok? && c in ParsePart(part).value
  }

  predicate SomePartHas(parts: seq<string>, c: u32) {
    exists i :: 0 <= i < |parts| && PartHas(parts[i], c)
  }

  /** Each malformed piece of a part has its own error, the start of a range first. */
  lemma PartErrors(x: string, y: string)
    requires x != [] && y != [] && Trimmed(x + "-" + y) && '-' !in x
    ensures ParseUnsigned(Trim(x), MAX).None? ==> ParsePart(x + "-" + y) == Err("invalid cpuset range start")
    ensures ParseUnsigned(Trim(x), MAX).Some? && ParseUnsigned(Trim(y), MAX).None? ==>
              ParsePart(x + "-" + y) == Err("invalid cpuset range end")
    ensures Trimmed(x) && ParseUnsigned(x, MAX).None? ==> ParsePart(x) == Err("invalid cpu id")
  {
    var part := x + "-" + y;
    assert part == x + ['-'] + y && "" + part + "" == part && "" + x + "" == x;
    TrimPadded("", part, "");
    SplitOnceAt(x, y, '-');
    SplitOnceWithout(x, '-');
    if Trimmed(x) {
      TrimPadded("", x, "");
    }
  }

  predicate PartReads(part: string) {
    ParsePart(part).Ok?
  }

  predicate AllRead(parts: seq<string>) {
    forall i :: 0 <= i < |parts| ==> PartReads(parts[i])
  }

  lemma AllReadSnoc(front: seq<string>, last: string)
    ensures AllRead(front + [last]) <==> AllRead(front) && PartReads(last)
  {
    var parts := front + [last];
    assert parts[|front|] == last && forall i :: 0 <= i < |front| ==> parts[i] == front[i];
  }

  /** A list reads exactly when every part does. */
  lemma {:induction false} PartsReadIff(parts: seq<string>)
    ensures ParseParts(parts).Ok? <==> AllRead(parts)
    decreases |parts|
  {
    if parts != [] {
      var front, last := parts[..|parts| - 1], parts[|parts| - 1];
      PartsReadIff(front);
      assert parts == front + [last];
      AllReadSnoc(front, last);
    }
  }

  lemma SomePartSnoc(front: seq<string>, last: string, c: u32)
    ensures SomePartHas(front + [last], c) <==> SomePartHas(front, c) || PartHas(last, c)
  {
    var parts := front + [last];
    assert parts[|front|] == last && forall i :: 0 <= i < |front| ==> parts[i] == front[i];
  }

  /** The list reads as a set with this id. */
  predicate ListHas(parts: seq<string>, c: u32) {
    ParseParts(parts).Ok? && c in ParseParts(parts).value
  }

  lemma ListHasSnoc(front: seq<string>, last: string, c: u32)
    requires ParseParts(front + [last]).Ok?
    ensures ParseParts(front).Ok?
    ensures ListHas(front + [last], c) <==> ListHas(front, c) || PartHas(last, c)
  {
    assert (front + [last])[..|front|] == front;
  }

  lemma {:induction false} ListHasIff(parts: seq<string>, c: u32)
    requires ParseParts(parts).Ok?
    ensures ListHas(parts, c) <==> SomePartHas(parts, c)
    decreases |parts|
  {
    if parts != [] {
      var front, last := parts[..|parts| - 1], parts[|parts| - 1];
      assert parts == front + [last];
      ListHasSnoc(front, last, c);
      ListHasIff(front, c);
      SomePartSnoc(front, last, c);
    }
  }

  /** A list that reads gives the ids of its parts together. */
  lemma PartsRead(parts: seq<string>, c: u32)
    requires ParseParts(parts).Ok?
    ensures c in ParseParts(parts).value <==> exists i :: 0 <= i < |parts| && PartHas(parts[i], c)
  {
    ListHasIff(parts, c);
  }

  /** A list that does not read fails with the error of its first part that fails. */
  lemma {:induction false} PartsFail(parts: seq<string>) returns (i: nat)
    requires ParseParts(parts).Err?
    ensures i < |parts| && ParsePart(parts[i]).Err? && ParsePart(parts[i]).error == ParseParts(parts).error
    ensures forall j :: 0 <= j < i ==> PartReads(parts[j])
    decreases |parts|
  {
    var n := |parts| - 1;
    if ParseParts(parts[..n]).Err? {
      i := PartsFail(parts[..n]);
      assert forall j :: 0 <= j <= i ==> parts[..n][j] == parts[j];
    } else {
      i := n;
      PartsReadIff(parts[..n]);
      assert forall j :: 0 <= j < n ==> parts[..n][j] == parts[j];
    }
  }

  /** Printing any set, the empty one and one with the largest id included, and parsing gives it back. */
  lemma PrintParseRoundTrip(s: CpuSet)
    ensures ParseCpus(Print(s)) == Ok(s)
  {
    var cpus := Ascending(s);
    var ranges := Collapse(cpus);
    CollapseIsMaximal(cpus);
    assert Covered(ranges) == s;
    if s == {} {
      EmptyTextParses();
    } else {
      assert cpus != [];
      var parts := Texts(ranges);
      forall i | 0 <= i < |parts|
        ensures ',' !in parts[i]
      {
        RangeTextParses(ranges[i]);
      }
      SplitJoin(parts, ',');
      TextsParse(ranges);
    }
  }

  lemma {:induction false} CoveredMember(ranges: seq<Range>, c: u32)
    ensures c in Covered(ranges) <==> exists i :: 0 <= i < |ranges| && ranges[i].lo <= c <= ranges[i].hi
  {
    if ranges != [] {
      var front := ranges[..|ranges| - 1];
      CoveredMember(front, c);
      assert forall i :: 0 <= i < |front| ==> front[i] == ranges[i];
    }
  }

  lemma CoveredIsEmptyIff(ranges: seq<Range>)
    requires Maximal(ranges)
    ensures Covered(ranges) == {} <==> ranges == []
  {
  }

  /** There is only one maximal list of ranges for a set, so the printed form is a normal form. */
  lemma {:induction false} MaximalIsUnique(a: seq<Range>, b: seq<Range>)
    requires Maximal(a) && Maximal(b) && Covered(a) == Covered(b)
    ensures a == b
  {
    if a == [] || b == [] {
      CoveredIsEmptyIff(a);
      CoveredIsEmptyIff(b);
    } else {
      FrontsAgree(a, b);
      MaximalIsUnique(a[..|a| - 1], b[..|b| - 1]);
      SnocEqual(a, b);
    }
  }

  lemma SnocEqual(a: seq<Range>, b: seq<Range>)
    requires a != [] && b != [] && a[..|a| - 1] == b[..|b| - 1] && a[|a| - 1] == b[|b| - 1]
    ensures a == b
  {
    assert a == a[..|a| - 1] + [a[|a| - 1]] && b == b[..|b| - 1] + [b[|b| - 1]];
  }

  lemma FrontsAgree(a: seq<Range>, b: seq<Range>)
    requires Maximal(a) && Maximal(b) && a != [] && b != [] && Covered(a) == Covered(b)
    ensures a[|a| - 1] == b[|b| - 1]
    ensures Maximal(a[..|a| - 1]) && Maximal(b[..|b| - 1]) && Covered(a[..|a| - 1]) == Covered(b[..|b| - 1])
  {
    LastRangesAgree(a, b);
    MaximalFront(a);
    MaximalFront(b);
    FrontsCover(a, b);
  }

  lemma MaximalFront(a: seq<Range>)
    requires Maximal(a) && a != []
    ensures Maximal(a[..|a| - 1])
  {
  }

  lemma FrontsCover(a: seq<Range>, b: seq<Range>)
    requires Maximal(a) && Maximal(b) && a != [] && b != []
    requires Covered(a) == Covered(b) && a[|a| - 1] == b[|b| - 1]
    ensures Covered(a[..|a| - 1]) == Covered(b[..|b| - 1])
  {
    CoveredFront(a);
    CoveredFront(b);
  }

  lemma CoveredFront(a: seq<Range>)
    requires Maximal(a) && a != []
    ensures Covered(a[..|a| - 1]) == Covered(a) - Interval(a[|a| - 1].lo, a[|a| - 1].hi)
  {
    var front := a[..|a| - 1];
    forall c | c in Covered(front)
      ensures c < a[|a| - 1].lo
    {
      CoveredMember(front, c);
      var i :| 0 <= i < |front| && front[i].lo <= c <= front[i].hi;
      assert a[i] == front[i];
    }
  }

  lemma LastRangesAgree(a: seq<Range>, b: seq<Range>)
    requires Maximal(a) && Maximal(b) && a != [] && b != [] && Covered(a) == Covered(b)
    ensures a[|a| - 1] == b[|b| - 1]
  {
    LastRangeBounds(a, b);
    LastRangeBounds(b, a);
  }

  lemma LastRangeBounds(a: seq<Range>, b: seq<Range>)
    requires Maximal(a) && Maximal(b) && a != [] && b != [] && Covered(a) == Covered(b)
    ensures a[|a| - 1].hi <= b[|b| - 1].hi
    ensures a[|a| - 1].hi == b[|b| - 1].hi ==> a[|a| - 1].lo >= b[|b| - 1].lo
  {
    var r, q := a[|a| - 1], b[|b| - 1];
    CoveredMember(a, r.hi);
    CoveredMember(b, r.hi);
    assert r.hi in Covered(b);
    if r.hi == q.hi && r.lo < q.lo {
      var gap := q.lo - 1;
      CoveredMember(a, gap);
      CoveredMember(b, gap);
    }
  }

  /**
   Print after parse is an idempotent normal form: texts of the same set print alike, the
   printed form parses to the same set, and it is the text of the only maximal range list.
   */
  lemma PrintIsNormalForm(t1: string, t2: string, ranges: seq<Range>)
    requires ParseCpus(t1).Ok? && ParseCpus(t2).Ok?
    requires Maximal(ranges) && Covered(ranges) == ParseCpus(t1).value
    ensures ParseCpus(t1) == ParseCpus(t2) <==> Print(ParseCpus(t1).value) == Print(ParseCpus(t2).value)
    ensures ParseCpus(Print(ParseCpus(t1).value)) == ParseCpus(t1)
    ensures Print(ParseCpus(t1).value) == Join(Texts(ranges), ',')
  {
    var s := ParseCpus(t1).value;
    PrintParseRoundTrip(s);
    PrintParseRoundTrip(ParseCpus(t2).value);
    CollapseIsMaximal(Ascending(s));
    assert Covered(Collapse(Ascending(s))) == s;
    MaximalIsUnique(Collapse(Ascending(s)), ranges);
  }
}
