/**
 The two pressure evaluators: the eviction manager's thresholds, parsed once, and the
 node-condition evaluator, which reads the texts every time.  f64 values are reals; the f64
 parser is a parameter, constrained only where a statement needs it.
 */
module Pressure {
  import opened Wrappers
  import opened Text

  const U64_MAX: nat := 0xFFFF_FFFF_FFFF_FFFF

  /** `str::parse::<f64>` */
  type ParseF64 = string -> Option<real>

  /** `as u64` saturates. */
  function CastU64(r: real): nat {
    if r <= 0.0 then 0 else if r.Floor > U64_MAX then U64_MAX else r.Floor
  }

  // -- Eviction thresholds -----------------------------------------------------

  datatype ThresholdValue = Absolute(bytes: nat) | Percentage(fraction: real)

  datatype Threshold = Threshold(resource: string, value: ThresholdValue)

  const SUFFIXES: seq<(string, nat)> :=
    [("Ki", 1024), ("Mi", 1048576), ("Gi", 1073741824), ("Ti", 1099511627776), ("Pi", 1125899906842624),
     ("K", 1000), ("M", 1000000), ("G", 1000000000), ("T", 1000000000000)]

  function Times(x: real, multiplier: nat): nat {
    CastU64(x * multiplier as real)
  }

  /** The first suffix that matches and leaves a number wins. */
  function ParseSuffixed(pf: ParseF64, s: string, table: seq<(string, nat)>): Option<nat> {
    if table == [] then None
    else
      var num := StripSuffix(s, table[0].0);
      if num.Some? && pf(num.value).Some? then Some(Times(pf(num.value).value, table[0].1))
      else ParseSuffixed(pf, s, table[1..])
  }

  function ParseQuantity(pf: ParseF64, s: string): Option<nat> {
    match ParseSuffixed(pf, s, SUFFIXES)
    case Some(n) => Some(n)
    case None => ParseUnsigned(s, U64_MAX)
  }

  function ParseValue(pf: ParseF64, value: string): Option<ThresholdValue> {
    var trimmed := Trim(value);
    match StripSuffix(trimmed, "%")
    case Some(pct) =>
      (match pf(pct)
       case None => None
       case Some(p) => Some(Percentage(p / 100.0)))
    case None =>
      (match ParseQuantity(pf, trimmed)
       case None => None
       case Some(b) => Some(Absolute(b)))
  }

  function ParseThreshold(pf: ParseF64, resource: string, value: string): Option<Threshold> {
    match ParseValue(pf, value)
    case None => None
    case Some(v) => Some(Threshold(resource, v))
  }

  predicate ValueExceeded(v: ThresholdValue, current: nat, capacity: nat) {
    match v
    case Absolute(bytes) => current < bytes
    case Percentage(f) => current < CastU64(capacity as real * f)
  }

  predicate IsExceeded(t: Threshold, current: nat, capacity: nat) {
    ValueExceeded(t.value, current, capacity)
  }

  datatype Conditions = Conditions(memory: bool, disk: bool, pid: bool)

  datatype Resources = Resources(availableMemory: nat, totalMemory: nat, availableDisk: nat, totalDisk: nat,
                                 availablePids: nat, totalPids: nat)

  ghost predicate Parsed(pf: ParseF64, hard: map<string, string>, t: Threshold) {
    exists k :: k in hard && ParseThreshold(pf, k, hard[k]) == Some(t)
  }

  /** Some threshold on the resource is exceeded. */
  predicate AnyExceeded(ts: seq<Threshold>, resource: string, current: nat, capacity: nat) {
    exists t :: t in ts && t.resource == resource && IsExceeded(t, current, capacity)
  }

  class EvictionEvaluator {
    const hard: seq<Threshold>

    /** The texts are read off a hash map, in an arbitrary order; unreadable ones are dropped. */
    constructor (pf: ParseF64, thresholds: map<string, string>)
      ensures forall t :: t in hard <==> Parsed(pf, thresholds, t)
    {
      var parsed := ParseAll(pf, thresholds);
      hard := parsed;
    }

    method Evaluate(r: Resources) returns (p: Conditions)
      ensures p.memory <==> AnyExceeded(hard, "memory.available", r.availableMemory, r.totalMemory)
      ensures p.disk <==> AnyExceeded(hard, "nodefs.available", r.availableDisk, r.totalDisk)
      ensures p.pid <==> AnyExceeded(hard, "pid.available", r.availablePids, r.totalPids)
    {
      p := Conditions(false, false, false);
      for i := 0 to |hard|
        invariant p.memory <==> AnyExceeded(hard[..i], "memory.available", r.availableMemory, r.totalMemory)
        invariant p.disk <==> AnyExceeded(hard[..i], "nodefs.available", r.availableDisk, r.totalDisk)
        invariant p.pid <==> AnyExceeded(hard[..i], "pid.available", r.availablePids, r.totalPids)
      {
        var t := hard[i];
        assert hard[..i + 1] == hard[..i] + [t];
        if t.resource == "memory.available" && IsExceeded(t, r.availableMemory, r.totalMemory) {
          p := p.(memory := true);
        } else if t.resource == "nodefs.available" && IsExceeded(t, r.availableDisk, r.totalDisk) {
          p := p.(disk := true);
        } else if t.resource == "pid.available" && IsExceeded(t, r.availablePids, r.totalPids) {
          p := p.(pid := true);
        }
      }
      assert hard[..|hard|] == hard;
    }
  }

  method ParseAll(pf: ParseF64, thresholds: map<string, string>) returns (ts: seq<Threshold>)
    ensures forall t :: t in ts <==> Parsed(pf, thresholds, t)
  {
    ts := [];
    var todo := thresholds.Keys;
    while todo != {}
      invariant todo <= thresholds.Keys
      invariant forall t :: t in ts <==>
                  exists k :: k in thresholds && k !in todo && ParseThreshold(pf, k, thresholds[k]) == Some(t)
    {
      var k :| k in todo;
      var t := ParseThreshold(pf, k, thresholds[k]);
      if t.Some? {
        ts := ts + [t.value];
      }
      todo := todo - {k};
    }
  }

  // -- Node conditions ---------------------------------------------------------

  datatype Signals = Signals(memoryAvailable: nat, nodefsAvailable: nat, nodefsInodesFree: nat, imagefsAvailable: nat,
                             pidAvailable: nat, nodefsTotal: nat, imagefsTotal: nat)
  {
    /** Both evaluators approximate total memory by this u64 sum. */
    function MemoryTotal(): nat {
      (memoryAvailable + nodefsTotal) % U64
    }
  }

  function ParseU64OrZero(s: string): nat {
    ParseUnsigned(s, U64_MAX).GetOr(0)
  }

  /** The multiplications are u64 and wrap. */
  function ParseBytes(s: string): nat {
    if StripSuffix(s, "Ki").Some? then ParseU64OrZero(StripSuffix(s, "Ki").value) * 1024 % U64
    else if StripSuffix(s, "Mi").Some? then ParseU64OrZero(StripSuffix(s, "Mi").value) * 1048576 % U64
    else if StripSuffix(s, "Gi").Some? then ParseU64OrZero(StripSuffix(s, "Gi").value) * 1073741824 % U64
    else ParseU64OrZero(s)
  }

  predicate ThresholdExceeded(pf: ParseF64, signal: nat, total: nat, threshold: string) {
    match StripSuffix(threshold, "%")
    case Some(pct) => total != 0 && signal < CastU64(pf(pct).GetOr(0.0) / 100.0 * total as real)
    case None => signal < ParseBytes(threshold)
  }

  predicate SignalExceeded(pf: ParseF64, s: Signals, signal: string, threshold: string) {
    if signal == "memory.available" then ThresholdExceeded(pf, s.memoryAvailable, s.MemoryTotal(), threshold)
    else if signal == "nodefs.available" then ThresholdExceeded(pf, s.nodefsAvailable, s.nodefsTotal, threshold)
    else if signal == "nodefs.inodesFree" then ThresholdExceeded(pf, s.nodefsInodesFree, 1000000, threshold)
    else if signal == "imagefs.available" then ThresholdExceeded(pf, s.imagefsAvailable, s.imagefsTotal, threshold)
    else if signal == "pid.available" then s.pidAvailable < ParseUnsigned(threshold, U64_MAX).GetOr(1000)
    else false
  }

  predicate IsDiskSignal(signal: string) {
    signal == "nodefs.available" || signal == "nodefs.inodesFree" || signal == "imagefs.available"
  }

  method EvaluatePressure(pf: ParseF64, s: Signals, hard: map<string, string>) returns (c: Conditions)
    ensures c.memory <==>
              "memory.available" in hard && SignalExceeded(pf, s, "memory.available", hard["memory.available"])
    ensures c.disk <==> exists k :: k in hard && SignalExceeded(pf, s, k, hard[k])
                                 && k in {"nodefs.available", "nodefs.inodesFree", "imagefs.available"}
    ensures c.pid <==> "pid.available" in hard && SignalExceeded(pf, s, "pid.available", hard["pid.available"])
  {
    c := Conditions(false, false, false);
    var todo := hard.Keys;
    while todo != {}
      invariant todo <= hard.Keys
      invariant c.memory <==>
                exists k :: k in hard && k !in todo && k == "memory.available" && SignalExceeded(pf, s, k, hard[k])
      invariant c.disk <==> exists k :: k in hard && k !in todo && IsDiskSignal(k) && SignalExceeded(pf, s, k, hard[k])
      invariant c.pid <==>
                exists k :: k in hard && k !in todo && k == "pid.available" && SignalExceeded(pf, s, k, hard[k])
    {
      var k :| k in todo;
      if SignalExceeded(pf, s, k, hard[k]) {
        if k == "memory.available" {
          c := c.(memory := true);
        } else if IsDiskSignal(k) {
          c := c.(disk := true);
        } else if k == "pid.available" {
          c := c.(pid := true);
        }
      }
      todo := todo - {k};
    }
  }

  // -- What a signal is measured against -----------------------------------------

  /** The signal is at least one whole unit below `p` percent of the total. */
  predicate BelowPart(signal: nat, total: nat, p: real) {
    signal as real + 1.0 <= p / 100.0 * total as real
  }

  /** A percentage stands for that part of the capacity, in whole units and at most the largest u64. */
  lemma PercentReads(pf: ParseF64, pct: string, p: real, signal: nat, total: nat)
    requires pf(pct) == Some(p)
    ensures ThresholdExceeded(pf, signal, total, pct + "%") <==>
              signal as real + 1.0 <= p / 100.0 * total as real && signal < 0xFFFF_FFFF_FFFF_FFFF
    ensures BelowPart(signal, total, p) <==> signal as real + 1.0 <= p / 100.0 * total as real
  {
    StripAppended(pct, "%");
    var part := p / 100.0 * total as real;
    if total == 0 {
      assert part == 0.0;
    } else if part > 0.0 {
      assert CastU64(part) == if part.Floor > U64_MAX then U64_MAX else part.Floor;
    }
  }

  lemma PercentWithin(pf: ParseF64, pct: string, p: real, signal: nat, total: nat)
    requires pf(pct) == Some(p) && 0.0 <= p <= 100.0 && total <= U64_MAX
    ensures ThresholdExceeded(pf, signal, total, pct + "%") <==> BelowPart(signal, total, p)
  {
    PartFits(p, total);
    PercentReads(pf, pct, p, signal, total);
    assert BelowPart(signal, total, p) ==> signal as real + 1.0 <= U64_MAX as real;
  }

  /** Each signal is compared with its own threshold; percentages are of these capacities. */
  lemma SignalsReadPercent(pf: ParseF64, s: Signals, pct: string, p: real)
    requires pf(pct) == Some(p) && 0.0 <= p <= 100.0
    requires s.nodefsTotal <= U64_MAX && s.imagefsTotal <= U64_MAX
    ensures SignalExceeded(pf, s, "memory.available", pct + "%") <==>
              BelowPart(s.memoryAvailable, (s.memoryAvailable + s.nodefsTotal) % 0x1_0000_0000_0000_0000, p)
    ensures SignalExceeded(pf, s, "nodefs.available", pct + "%") <==> BelowPart(s.nodefsAvailable, s.nodefsTotal, p)
    ensures SignalExceeded(pf, s, "nodefs.inodesFree", pct + "%") <==> BelowPart(s.nodefsInodesFree, 1000000, p)
    ensures SignalExceeded(pf, s, "imagefs.available", pct + "%") <==> BelowPart(s.imagefsAvailable, s.imagefsTotal, p)
  {
    PercentWithin(pf, pct, p, s.memoryAvailable, s.MemoryTotal());
    PercentWithin(pf, pct, p, s.nodefsAvailable, s.nodefsTotal);
    PercentWithin(pf, pct, p, s.nodefsInodesFree, 1000000);
    PercentWithin(pf, pct, p, s.imagefsAvailable, s.imagefsTotal);
  }

  lemma PartFits(p: real, total: nat)
    requires 0.0 <= p <= 100.0 && total <= U64_MAX
    ensures p / 100.0 * total as real <= U64_MAX as real
  {
    var q := p / 100.0;
    assert q <= 1.0;
    assert q * total as real <= 1.0 * total as real;
  }

  /** A plain number is compared with the signal itself; process ids fall back to 1000. */
  lemma SignalsReadPlain(pf: ParseF64, s: Signals, n: nat, text: string)
    requires n <= U64_MAX
    ensures SignalExceeded(pf, s, "memory.available", Dec(n)) <==> s.memoryAvailable < n
    ensures SignalExceeded(pf, s, "nodefs.available", Dec(n)) <==> s.nodefsAvailable < n
    ensures SignalExceeded(pf, s, "nodefs.inodesFree", Dec(n)) <==> s.nodefsInodesFree < n
    ensures SignalExceeded(pf, s, "imagefs.available", Dec(n)) <==> s.imagefsAvailable < n
    ensures SignalExceeded(pf, s, "pid.available", Dec(n)) <==> s.pidAvailable < n
    ensures ParseUnsigned(text, U64_MAX).None? ==>
              (SignalExceeded(pf, s, "pid.available", text) <==> s.pidAvailable < 1000)
  {
    DecDigits(n);
    ParseDec(n, U64_MAX);
    ConditionsReadPlain(pf, Dec(n), s.memoryAvailable, s.MemoryTotal());
    ConditionsReadPlain(pf, Dec(n), s.nodefsAvailable, s.nodefsTotal);
    ConditionsReadPlain(pf, Dec(n), s.nodefsInodesFree, 1000000);
    ConditionsReadPlain(pf, Dec(n), s.imagefsAvailable, s.imagefsTotal);
  }

  // -- Agreement ---------------------------------------------------------------

  /** The inputs the eviction loop builds from the same signals. */
  function ResourcesOf(s: Signals): Resources {
    Resources(s.memoryAvailable, s.MemoryTotal(), s.nodefsAvailable, s.nodefsTotal, s.pidAvailable, s.pidAvailable)
  }

  /** What the eviction evaluator makes of one text. */
  predicate EvictionExceeded(pf: ParseF64, current: nat, capacity: nat, text: string) {
    match ParseValue(pf, text)
    case None => false
    case Some(v) => ValueExceeded(v, current, capacity)
  }

  /** Integers up to 2^53 are f64 values, so the f64 parser reads them exactly. */
  ghost predicate ReadsIntegers(pf: ParseF64) {
    forall n: nat :: n <= 0x20_0000_0000_0000 ==> pf(Dec(n)) == Some(n as real)
  }

  datatype Form = Percent(pct: string) | Plain(n: nat) | Suffixed(n: nat, suffix: string, factor: nat)

  predicate IsSuffix(suffix: string, factor: nat) {
    (suffix, factor) in SUFFIXES
  }

  predicate IsBinary(suffix: string) {
    suffix == "Ki" || suffix == "Mi" || suffix == "Gi"
  }

  /** Unpadded percentages, plain bytes, and an integer with one of the suffixes. */
  predicate WellFormed(f: Form) {
    match f
    case Percent(pct) => Trim(pct + "%") == pct + "%"
    case Plain(n) => n <= U64_MAX
    case Suffixed(n, suffix, factor) => IsSuffix(suffix, factor) && n <= 0x20_0000_0000_0000
  }

  function TextOf(f: Form): string {
    match f
    case Percent(pct) => pct + "%"
    case Plain(n) => Dec(n)
    case Suffixed(n, suffix, _) => Dec(n) + suffix
  }

  lemma PercentAgrees(pf: ParseF64, pct: string, current: nat, capacity: nat)
    requires Trim(pct + "%") == pct + "%"
    ensures EvictionExceeded(pf, current, capacity, pct + "%") <==> ThresholdExceeded(pf, current, capacity, pct + "%")
  {
  }

  lemma {:induction false} DigitsHaveNoSuffix(pf: ParseF64, s: string, table: seq<(string, nat)>)
    requires |s| > 0 && IsDigit(s[|s| - 1])
    requires TableShape(table)
    ensures ParseSuffixed(pf, s, table) == None
    decreases |table|
  {
    if table != [] {
      assert table[0] in table && SuffixShape(table[0].0);
      StripsNothing(s, table[0].0);
      DigitsHaveNoSuffix(pf, s, table[1..]);
    }
  }

  lemma PlainQuantity(pf: ParseF64, s: string)
    requires |s| > 0 && AllDigits(s) && DigitsValue(s) <= U64_MAX
    ensures ParseQuantity(pf, s) == Some(DigitsValue(s))
  {
    SuffixTable();
    DigitsHaveNoSuffix(pf, s, SUFFIXES);
  }

  lemma EvictionReadsPlain(pf: ParseF64, s: string, current: nat, capacity: nat)
    requires |s| > 0 && AllDigits(s) && DigitsValue(s) <= U64_MAX
    ensures EvictionExceeded(pf, current, capacity, s) <==> current < DigitsValue(s)
  {
    PlainQuantity(pf, s);
    EvictionReadsQuantity(pf, s, DigitsValue(s), current, capacity);
  }

  lemma ConditionsReadPlain(pf: ParseF64, s: string, current: nat, capacity: nat)
    requires |s| > 0 && AllDigits(s) && DigitsValue(s) <= U64_MAX
    ensures ThresholdExceeded(pf, current, capacity, s) <==> current < DigitsValue(s)
  {
    StripsNothing(s, "%");
    StripsNothing(s, "Ki");
    StripsNothing(s, "Mi");
    StripsNothing(s, "Gi");
    assert ParseBytes(s) == DigitsValue(s);
  }

  /** Only its own suffix strips off a number, apart from one-letter suffixes of nothing. */
  lemma OtherSuffix(digits: string, suffix: string, other: string)
    requires |digits| > 0 && AllDigits(digits) && |suffix| > 0 && |other| > 0
    requires suffix != other && |suffix| <= 2 && |other| <= 2
    requires !IsDigit(suffix[0]) && !IsDigit(suffix[|suffix| - 1]) && !IsDigit(other[0]) && !IsDigit(other[|other| - 1])
    requires |suffix| == 2 && |other| == 1 ==> suffix[1] != other[0]
    ensures StripSuffix(digits + suffix, other).None?
  {
  }

  /** One capital letter, or one followed by `i`. */
  predicate SuffixShape(suffix: string) {
    1 <= |suffix| <= 2 && 'A' <= suffix[0] <= 'Z' && (|suffix| == 2 ==> suffix[1] == 'i')
  }

  predicate TableShape(table: seq<(string, nat)>) {
    forall e :: e in table ==> SuffixShape(e.0)
  }

  lemma {:induction false} SuffixedParses(pf: ParseF64, digits: string, n: nat, suffix: string, factor: nat,
                                          table: seq<(string, nat)>)
    requires |digits| > 0 && AllDigits(digits) && pf(digits) == Some(n as real)
    requires TableShape(table) && (suffix, factor) in table
    requires forall e :: e in table && e.0 == suffix ==> e.1 == factor
    ensures ParseSuffixed(pf, digits + suffix, table) == Some(Times(n as real, factor))
    decreases |table|
  {
    var first := table[0];
    assert first in table;
    if first.0 == suffix {
      StripAppended(digits, suffix);
      assert first.1 == factor;
    } else {
      OtherSuffix(digits, suffix, first.0);
      assert table == [first] + table[1..];
      SuffixedParses(pf, digits, n, suffix, factor, table[1..]);
    }
  }

  lemma SuffixTable()
    ensures TableShape(SUFFIXES)
  {
  }

  function FactorOf(suffix: string): nat {
    match suffix
    case "Ki" => 1024
    case "Mi" => 1048576
    case "Gi" => 1073741824
    case "Ti" => 1099511627776
    case "Pi" => 1125899906842624
    case "K" => 1000
    case "M" => 1000000
    case "G" => 1000000000
    case "T" => 1000000000000
    case _ => 0
  }

  lemma OneFactorPerSuffix()
    ensures forall e :: e in SUFFIXES ==> e.1 == FactorOf(e.0)
  {
  }

  function Saturated(x: nat): nat {
    if x <= U64_MAX then x else U64_MAX
  }

  lemma TimesSaturates(n: nat, factor: nat)
    ensures Times(n as real, factor) == Saturated(n * factor)
  {
    assert n as real * factor as real == (n * factor) as real;
  }

  lemma QuantityOfSuffixed(pf: ParseF64, digits: string, n: nat, suffix: string, factor: nat)
    requires |digits| > 0 && AllDigits(digits) && pf(digits) == Some(n as real)
    requires IsSuffix(suffix, factor)
    ensures ParseQuantity(pf, digits + suffix) == Some(Saturated(n * factor))
  {
    SuffixTable();
    OneFactorPerSuffix();
    SuffixedParses(pf, digits, n, suffix, factor, SUFFIXES);
    TimesSaturates(n, factor);
  }

  lemma SuffixedShape(digits: string, suffix: string)
    requires AllDigits(digits) && SuffixShape(suffix)
    ensures NoSpace(digits + suffix) && (digits + suffix)[|digits + suffix| - 1] != '%'
  {
  }

  /** The eviction side understands every suffix of its table, and saturates at the largest u64. */
  lemma EvictionReadsSuffix(pf: ParseF64, f: Form, current: nat, capacity: nat)
    requires ReadsIntegers(pf) && f.Suffixed? && WellFormed(f)
    ensures EvictionExceeded(pf, current, capacity, TextOf(f)) <==> current < f.n * f.factor && current < U64_MAX
  {
    var digits := Dec(f.n);
    DecDigits(f.n);
    SuffixTable();
    SuffixedShape(digits, f.suffix);
    QuantityOfSuffixed(pf, digits, f.n, f.suffix, f.factor);
    EvictionReadsQuantity(pf, digits + f.suffix, Saturated(f.n * f.factor), current, capacity);
  }

  lemma EvictionReadsQuantity(pf: ParseF64, s: string, bytes: nat, current: nat, capacity: nat)
    requires |s| > 0 && NoSpace(s) && s[|s| - 1] != '%' && ParseQuantity(pf, s) == Some(bytes)
    ensures EvictionExceeded(pf, current, capacity, s) <==> current < bytes
  {
    TrimNoSpace(s);
    StripsNothing(s, "%");
    assert ParseValue(pf, s) == Some(Absolute(bytes));
  }

  /** The node-condition side reads Ki, Mi and Gi, wrapping at 2^64, and takes any other suffix for zero. */
  lemma ConditionsReadSuffix(pf: ParseF64, digits: string, n: nat, suffix: string, factor: nat,
                             current: nat, capacity: nat)
    requires |digits| > 0 && AllDigits(digits) && DigitsValue(digits) == n && n <= U64_MAX
    requires IsSuffix(suffix, factor)
    ensures ThresholdExceeded(pf, current, capacity, digits + suffix) <==>
              IsBinary(suffix) && current < n * factor % U64
  {
    SuffixTable();
    OneFactorPerSuffix();
    var s := digits + suffix;
    SuffixedShape(digits, suffix);
    StripsNothing(s, "%");
    if IsBinary(suffix) {
      BinaryBytes(digits, n, suffix, factor);
    } else {
      OtherBytes(digits, suffix);
    }
  }

  lemma BinaryBytes(digits: string, n: nat, suffix: string, factor: nat)
    requires |digits| > 0 && AllDigits(digits) && DigitsValue(digits) == n && n <= U64_MAX
    requires IsBinary(suffix) && factor == FactorOf(suffix)
    ensures ParseBytes(digits + suffix) == n * factor % U64
  {
    StripAppended(digits, suffix);
    assert ParseU64OrZero(digits) == n;
    if suffix != "Ki" {
      OtherSuffix(digits, suffix, "Ki");
    }
    if suffix == "Gi" {
      OtherSuffix(digits, suffix, "Mi");
    }
  }

  lemma OtherBytes(digits: string, suffix: string)
    requires |digits| > 0 && AllDigits(digits) && SuffixShape(suffix) && !IsBinary(suffix)
    ensures ParseBytes(digits + suffix) == 0
  {
    var s := digits + suffix;
    OtherSuffix(digits, suffix, "Ki");
    OtherSuffix(digits, suffix, "Mi");
    OtherSuffix(digits, suffix, "Gi");
    assert s[0] == digits[0];
    assert !AllDigits(s) by {
      assert s[|s| - 1] == suffix[|suffix| - 1];
    }
  }

  /** The two evaluators give the same answer for the text, whatever the signal and the capacity. */
  ghost predicate Agree(pf: ParseF64, text: string) {
    forall current: nat, capacity: nat ::
      EvictionExceeded(pf, current, capacity, text) <==> ThresholdExceeded(pf, current, capacity, text)
  }

  /** No suffix other than Ki, Mi and Gi stands behind a non-zero number, and the product fits a u64. */
  predicate ReadAlike(f: Form) {
    f.Suffixed? && f.n > 0 ==> IsBinary(f.suffix) && f.n * f.factor <= U64_MAX
  }

  /**
   For every well-formed text the two evaluators agree on every signal and capacity exactly when
   the text does not put a suffix other than Ki, Mi and Gi behind a non-zero number and does not
   overflow: there one side saturates and the other wraps.
   */
  lemma TextsAgreeIff(pf: ParseF64, f: Form)
    requires ReadsIntegers(pf) && WellFormed(f)
    ensures Agree(pf, TextOf(f)) <==> (f.Suffixed? && f.n > 0 ==> IsBinary(f.suffix) && f.n * f.factor <= U64_MAX)
  {
    match f
    case Percent(pct) =>
      forall current: nat, capacity: nat {
        PercentAgrees(pf, pct, current, capacity);
      }
    case Plain(n) => PlainAgree(pf, n);
    case Suffixed(_, _, _) => SuffixedAgreeIff(pf, f);
  }

  lemma PlainAgree(pf: ParseF64, n: nat)
    requires n <= U64_MAX
    ensures Agree(pf, Dec(n))
  {
    DecDigits(n);
    forall current: nat, capacity: nat
      ensures EvictionExceeded(pf, current, capacity, Dec(n)) <==> ThresholdExceeded(pf, current, capacity, Dec(n))
    {
      EvictionReadsPlain(pf, Dec(n), current, capacity);
      ConditionsReadPlain(pf, Dec(n), current, capacity);
    }
  }

  /** Below these the eviction side, and the node-condition side, see the threshold exceeded. */
  function EvictionLimit(f: Form): nat
    requires f.Suffixed?
  {
    Saturated(f.n * f.factor)
  }

  function NodeLimit(f: Form): nat
    requires f.Suffixed?
  {
    if IsBinary(f.suffix) then f.n * f.factor % U64 else 0
  }

  lemma SuffixedAgreeIff(pf: ParseF64, f: Form)
    requires ReadsIntegers(pf) && f.Suffixed? && WellFormed(f)
    ensures Agree(pf, TextOf(f)) <==> ReadAlike(f)
  {
    SuffixedReadings(pf, f);
    LimitsAgree(pf, TextOf(f), EvictionLimit(f), NodeLimit(f));
    LimitsEqualIff(f);
  }

  lemma LimitsEqualIff(f: Form)
    requires f.Suffixed? && WellFormed(f)
    ensures EvictionLimit(f) == NodeLimit(f) <==> ReadAlike(f)
    ensures NodeLimit(f) <= EvictionLimit(f)
  {
    OneFactorPerSuffix();
    assert f.factor > 0 && (f.n * f.factor > 0 <==> f.n > 0);
    if IsBinary(f.suffix) {
      var k := BinaryMultiple(f);
      WrappedIsEven(k);
      Wraps(f.n * f.factor);
    }
  }

  lemma BinaryMultiple(f: Form) returns (k: nat)
    requires f.Suffixed? && WellFormed(f) && IsBinary(f.suffix)
    ensures f.n * f.factor == 1024 * k
  {
    OneFactorPerSuffix();
    k := if f.suffix == "Ki" then f.n else if f.suffix == "Mi" then 1024 * f.n else 1048576 * f.n;
  }

  lemma Wraps(x: nat)
    ensures x <= U64_MAX ==> x % U64 == x
    ensures x % U64 <= U64_MAX
  {
  }

  lemma WrappedIsEven(k: nat)
    ensures 1024 * k % U64 != U64_MAX
  {
    var q := 1024 * k / U64;
    assert 1024 * k % U64 == 1024 * k - q * 0x1_0000_0000_0000_0000 == 2 * (512 * k - q * 0x8000_0000_0000_0000);
  }

  lemma SuffixedReadings(pf: ParseF64, f: Form)
    requires ReadsIntegers(pf) && f.Suffixed? && WellFormed(f)
    ensures forall current: nat, capacity: nat ::
              && (EvictionExceeded(pf, current, capacity, TextOf(f)) <==> current < EvictionLimit(f))
              && (ThresholdExceeded(pf, current, capacity, TextOf(f)) <==> current < NodeLimit(f))
  {
    DecDigits(f.n);
    forall current: nat, capacity: nat
      ensures EvictionExceeded(pf, current, capacity, TextOf(f)) <==> current < EvictionLimit(f)
      ensures ThresholdExceeded(pf, current, capacity, TextOf(f)) <==> current < NodeLimit(f)
    {
      EvictionReadsSuffix(pf, f, current, capacity);
      ConditionsReadSuffix(pf, Dec(f.n), f.n, f.suffix, f.factor, current, capacity);
    }
  }

  lemma LimitsAgree(pf: ParseF64, text: string, eviction: nat, node: nat)
    requires forall current: nat, capacity: nat ::
               && (EvictionExceeded(pf, current, capacity, text) <==> current < eviction)
               && (ThresholdExceeded(pf, current, capacity, text) <==> current < node)
    ensures Agree(pf, text) <==> eviction == node
  {
    if eviction != node {
      var c := if eviction < node then eviction else node;
      assert EvictionExceeded(pf, c, 0, text) != ThresholdExceeded(pf, c, 0, text);
    }
  }

  /** The eviction side takes white space off a text. */
  lemma EvictionIgnoresPadding(pf: ParseF64, before: string, text: string, after: string, current: nat, capacity: nat)
    requires AllSpace(before) && AllSpace(after) && Trimmed(text) && text != []
    ensures EvictionExceeded(pf, current, capacity, before + text + after)
       <==> EvictionExceeded(pf, current, capacity, text)
  {
    TrimPadded(before, text, after);
    assert "" + text + "" == text;
    TrimPadded("", text, "");
  }

  lemma SpacedStripped(text: string, suffix: string)
    requires text != [] && (IsSpace(text[0]) || IsSpace(text[|text| - 1])) && IsBinary(suffix)
    requires StripSuffix(text, suffix).Some?
    ensures ParseU64OrZero(StripSuffix(text, suffix).value) == 0
  {
    var rest := StripSuffix(text, suffix).value;
    assert text == rest + suffix && text[|rest|] == suffix[0] && text[|text| - 1] == suffix[1];
    assert rest != [] && rest[0] == text[0];
    NoNumber(rest);
  }

  /** The node-condition side does not: a text that begins or ends with white space counts for zero bytes. */
  lemma SpacedBytes(text: string)
    requires text != [] && (IsSpace(text[0]) || IsSpace(text[|text| - 1]))
    ensures ParseBytes(text) == 0
  {
    if StripSuffix(text, "Ki").Some? {
      SpacedStripped(text, "Ki");
    } else if StripSuffix(text, "Mi").Some? {
      SpacedStripped(text, "Mi");
    } else if StripSuffix(text, "Gi").Some? {
      SpacedStripped(text, "Gi");
    } else {
      NoNumber(text);
    }
  }

  lemma NoNumber(text: string)
    requires text != [] && (IsSpace(text[0]) || IsSpace(text[|text| - 1]))
    ensures ParseU64OrZero(text) == 0
  {
    var c := if IsSpace(text[0]) then text[0] else text[|text| - 1];
    assert !IsDigit(c) && c != '+';
    if text[0] == '+' {
      assert text[1..] != [] ==> text[1..][|text[1..]| - 1] == text[|text| - 1];
    }
  }

  /** So a padded text that is not a percentage is read alike exactly when its threshold can never be exceeded. */
  lemma PaddedTextsAgreeIff(pf: ParseF64, before: string, text: string, after: string)
    requires AllSpace(before) && AllSpace(after) && before + after != []
    requires Trimmed(text) && text != [] && text[|text| - 1] != '%'
    ensures Agree(pf, before + text + after) <==>
              forall current: nat, capacity: nat :: !EvictionExceeded(pf, current, capacity, text)
  {
    var padded := before + text + after;
    assert padded[0] == (if before != [] then before[0] else text[0]);
    assert padded[|padded| - 1] == (if after != [] then after[|after| - 1] else text[|text| - 1]);
    SpacedBytes(padded);
    StripsNothing(padded, "%");
    forall current: nat, capacity: nat
      ensures !ThresholdExceeded(pf, current, capacity, padded)
      ensures EvictionExceeded(pf, current, capacity, padded) <==> EvictionExceeded(pf, current, capacity, text)
    {
      EvictionIgnoresPadding(pf, before, text, after, current, capacity);
    }
  }

  /** A map that gives both evaluators only texts on which they agree. */
  ghost predicate CommonTexts(pf: ParseF64, hard: map<string, string>) {
    forall k :: k in hard && (k == "memory.available" || k == "nodefs.available") ==> Agree(pf, hard[k])
  }

  lemma ParsedExceeds(pf: ParseF64, hard: map<string, string>, key: string, current: nat, capacity: nat)
    ensures (exists t :: Parsed(pf, hard, t) && t.resource == key && IsExceeded(t, current, capacity))
       <==> (key in hard && EvictionExceeded(pf, current, capacity, hard[key]))
  {
    forall t | Parsed(pf, hard, t) && t.resource == key
      ensures key in hard && ParseValue(pf, hard[key]) == Some(t.value)
    {
      var k :| k in hard && ParseThreshold(pf, k, hard[k]) == Some(t);
    }
    if key in hard && ParseValue(pf, hard[key]).Some? {
      var t := Threshold(key, ParseValue(pf, hard[key]).value);
      assert ParseThreshold(pf, key, hard[key]) == Some(t);
      assert Parsed(pf, hard, t);
    }
  }

  /** The signals only the node-condition side knows are not in the map. */
  predicate OnlyCommonDisk(hard: map<string, string>) {
    "nodefs.inodesFree" !in hard && "imagefs.available" !in hard
  }

  predicate EvictionMemory(pf: ParseF64, hard: map<string, string>, s: Signals) {
    "memory.available" in hard && EvictionExceeded(pf, s.memoryAvailable, s.MemoryTotal(), hard["memory.available"])
  }

  predicate EvictionDisk(pf: ParseF64, hard: map<string, string>, s: Signals) {
    "nodefs.available" in hard && EvictionExceeded(pf, s.nodefsAvailable, s.nodefsTotal, hard["nodefs.available"])
  }

  predicate NodeMemory(pf: ParseF64, hard: map<string, string>, s: Signals) {
    "memory.available" in hard && SignalExceeded(pf, s, "memory.available", hard["memory.available"])
  }

  predicate NodeDisk(pf: ParseF64, hard: map<string, string>, s: Signals) {
    exists k :: k in hard && IsDiskSignal(k) && SignalExceeded(pf, s, k, hard[k])
  }

  /** Both sides report the same memory and disk pressure on these signals. */
  predicate SamePressure(pf: ParseF64, hard: map<string, string>, s: Signals) {
    && (EvictionMemory(pf, hard, s) <==> NodeMemory(pf, hard, s))
    && (EvictionDisk(pf, hard, s) <==> NodeDisk(pf, hard, s))
  }

  /**
   Both evaluators on the same signals, whatever order the hash maps are walked in: with texts on
   which they agree and only the common disk signal, memory and disk pressure are the same.
   */
  method EvaluateBoth(pf: ParseF64, hard: map<string, string>, s: Signals)
    returns (eviction: Conditions, node: Conditions)
    ensures eviction.memory == EvictionMemory(pf, hard, s) && eviction.disk == EvictionDisk(pf, hard, s)
    ensures node.memory == NodeMemory(pf, hard, s) && node.disk == NodeDisk(pf, hard, s)
    ensures eviction.pid <==>
              "pid.available" in hard && EvictionExceeded(pf, s.pidAvailable, s.pidAvailable, hard["pid.available"])
    ensures node.pid <==>
              "pid.available" in hard && SignalExceeded(pf, s, "pid.available", hard["pid.available"])
    ensures CommonTexts(pf, hard) && OnlyCommonDisk(hard) ==>
              eviction.memory == node.memory && eviction.disk == node.disk
  {
    var evaluator := new EvictionEvaluator(pf, hard);
    eviction := evaluator.Evaluate(ResourcesOf(s));
    node := EvaluatePressure(pf, s, hard);
    ParsedExceeds(pf, hard, "memory.available", s.memoryAvailable, s.MemoryTotal());
    ParsedExceeds(pf, hard, "nodefs.available", s.nodefsAvailable, s.nodefsTotal);
    ParsedExceeds(pf, hard, "pid.available", s.pidAvailable, s.pidAvailable);
    if CommonTexts(pf, hard) && OnlyCommonDisk(hard) {
      CommonTextsGiveSame(pf, hard, s);
    }
  }

  lemma CommonTextsGiveSame(pf: ParseF64, hard: map<string, string>, s: Signals)
    requires CommonTexts(pf, hard) && OnlyCommonDisk(hard)
    ensures SamePressure(pf, hard, s)
  {
  }

  /** `forms` says how each text of the map on a common key is written. */
  predicate Written(hard: map<string, string>, forms: map<string, Form>) {
    forall k :: k in hard && (k == "memory.available" || k == "nodefs.available") ==>
      k in forms && WellFormed(forms[k]) && hard[k] == TextOf(forms[k])
  }

  predicate AllReadAlike(hard: map<string, string>, forms: map<string, Form>)
    requires Written(hard, forms)
  {
    forall k :: k in hard && (k == "memory.available" || k == "nodefs.available") ==> ReadAlike(forms[k])
  }

  /** Signals that show this much memory and disk and no capacity. */
  function Left(n: nat): Signals {
    Signals(n, n, 0, 0, 0, 0, 0)
  }

  /** A threshold the two sides read differently is exceeded for the eviction side alone at the smaller limit. */
  lemma ReadDifferently(pf: ParseF64, f: Form) returns (n: nat)
    requires ReadsIntegers(pf) && WellFormed(f) && !ReadAlike(f)
    ensures forall capacity: nat ::
              EvictionExceeded(pf, n, capacity, TextOf(f)) && !ThresholdExceeded(pf, n, capacity, TextOf(f))
  {
    SuffixedReadings(pf, f);
    LimitsEqualIff(f);
    n := NodeLimit(f);
  }

  lemma OneTextDiffers(pf: ParseF64, hard: map<string, string>, k: string, n: nat)
    requires k in hard && (k == "memory.available" || k == "nodefs.available") && OnlyCommonDisk(hard)
    requires forall capacity: nat ::
               EvictionExceeded(pf, n, capacity, hard[k]) && !ThresholdExceeded(pf, n, capacity, hard[k])
    ensures !SamePressure(pf, hard, Left(n))
  {
    var s := Left(n);
    assert EvictionExceeded(pf, n, s.MemoryTotal(), hard[k]) && !ThresholdExceeded(pf, n, s.MemoryTotal(), hard[k]);
    assert EvictionExceeded(pf, n, s.nodefsTotal, hard[k]) && !ThresholdExceeded(pf, n, s.nodefsTotal, hard[k]);
  }

  lemma ReadAlikeIsCommon(pf: ParseF64, hard: map<string, string>, forms: map<string, Form>)
    requires ReadsIntegers(pf) && Written(hard, forms) && AllReadAlike(hard, forms)
    ensures CommonTexts(pf, hard)
  {
    forall k | k in hard && (k == "memory.available" || k == "nodefs.available")
      ensures Agree(pf, hard[k])
    {
      TextsAgreeIff(pf, forms[k]);
    }
  }

  /**
   On maps of well-formed texts both sides report the same memory and disk pressure for all
   signals if and only if no suffix other than Ki, Mi and Gi stands behind a non-zero number and
   no number with a suffix overflows.
   */
  lemma SamePressureIff(pf: ParseF64, hard: map<string, string>, forms: map<string, Form>)
    requires ReadsIntegers(pf) && Written(hard, forms) && OnlyCommonDisk(hard)
    ensures (forall s :: SamePressure(pf, hard, s)) <==> AllReadAlike(hard, forms)
  {
    if AllReadAlike(hard, forms) {
      ReadAlikeIsCommon(pf, hard, forms);
      forall s
        ensures SamePressure(pf, hard, s)
      {
        CommonTextsGiveSame(pf, hard, s);
      }
    } else {
      SomeTextDiffers(pf, hard, forms);
    }
  }

  lemma SomeTextDiffers(pf: ParseF64, hard: map<string, string>, forms: map<string, Form>)
    requires ReadsIntegers(pf) && Written(hard, forms) && OnlyCommonDisk(hard) && !AllReadAlike(hard, forms)
    ensures exists s :: !SamePressure(pf, hard, s)
  {
    var k :| k in hard && (k == "memory.available" || k == "nodefs.available") && !ReadAlike(forms[k]);
    var n := ReadDifferently(pf, forms[k]);
    OneTextDiffers(pf, hard, k, n);
  }

  /** The documented texts are common texts. */
  lemma DocumentedTextsAreCommon(pf: ParseF64, hard: map<string, string>, forms: map<string, Form>)
    requires ReadsIntegers(pf) && forms.Keys == hard.Keys
    requires forall k :: k in hard ==> hard[k] == TextOf(forms[k]) && WellFormed(forms[k])
    requires forall k :: k in hard && forms[k].Suffixed? ==>
               IsBinary(forms[k].suffix) && forms[k].n * forms[k].factor <= U64_MAX
    ensures CommonTexts(pf, hard)
  {
    ReadAlikeIsCommon(pf, hard, forms);
  }
}
