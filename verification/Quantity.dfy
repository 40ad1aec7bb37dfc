/** Printing and parsing of resource quantities. */
module Quantity {
  import opened Wrappers
  import opened Text

  const I64_MIN: int := -0x8000_0000_0000_0000
  const I64_MAX: int := 0x7FFF_FFFF_FFFF_FFFF

  datatype Unit = Bytes | Millicores | Count

  datatype Quantity = Quantity(value: int, unit: Unit)

  predicate IsI64(v: int) {
    I64_MIN <= v <= I64_MAX
  }

  function SatMulI64(a: int, b: int): int {
    if a * b > I64_MAX then I64_MAX else if a * b < I64_MIN then I64_MIN else a * b
  }

  /** The source divides only where the remainder is zero, so its truncating division is exact. */
  function Print(q: Quantity): string {
    match q.unit
    case Millicores => if q.value % 1000 == 0 then SignedDec(q.value / 1000) else SignedDec(q.value) + "m"
    case Bytes =>
      if q.value % 1073741824 == 0 then SignedDec(q.value / 1073741824) + "Gi"
      else if q.value % 1048576 == 0 then SignedDec(q.value / 1048576) + "Mi"
      else if q.value % 1024 == 0 then SignedDec(q.value / 1024) + "Ki"
      else SignedDec(q.value)
    case Count => SignedDec(q.value)
  }

  /** A text cut into its digits and the factor and unit its suffix stands for. */
  datatype Lexed = Lexed(digits: string, factor: int, unit: Unit)

  function Lex(s: string): Lexed {
    if StripSuffix(s, "Ki").Some? then Lexed(StripSuffix(s, "Ki").value, 1024, Bytes)
    else if StripSuffix(s, "Mi").Some? then Lexed(StripSuffix(s, "Mi").value, 1048576, Bytes)
    else if StripSuffix(s, "Gi").Some? then Lexed(StripSuffix(s, "Gi").value, 1073741824, Bytes)
    else if StripSuffix(s, "Ti").Some? then Lexed(StripSuffix(s, "Ti").value, 1099511627776, Bytes)
    else if StripSuffix(s, "k").Some? then Lexed(StripSuffix(s, "k").value, 1000, Bytes)
    else if StripSuffix(s, "M").Some? then Lexed(StripSuffix(s, "M").value, 1000000, Bytes)
    else if StripSuffix(s, "G").Some? then Lexed(StripSuffix(s, "G").value, 1000000000, Bytes)
    else if StripSuffix(s, "m").Some? then Lexed(StripSuffix(s, "m").value, 1, Millicores)
    else Lexed(s, 1, Count)
  }

  function Scaled(l: Lexed): Option<Quantity> {
    var v :- ParseSigned(l.digits, I64_MIN, I64_MAX);
    Some(Quantity(SatMulI64(v, l.factor), l.unit))
  }

  function Parse(raw: string): Option<Quantity> {
    Scaled(Lex(Trim(raw)))
  }

  function ParseForKey(key: string, s: string): Option<Quantity> {
    var q :- Parse(s);
    if key == "cpu" && q.unit == Count then Some(Quantity(SatMulI64(q.value, 1000), Millicores)) else Some(q)
  }

  /** A text that reads as the number `v` and ends in a digit. */
  predicate Numeral(text: string, v: int) {
    && NoSpace(text)
    && |text| > 0
    && IsDigit(text[|text| - 1])
    && ParseSigned(text, I64_MIN, I64_MAX) == Some(v)
  }

  lemma SignedDecIsNumeral(v: int)
    requires IsI64(v)
    ensures Numeral(SignedDec(v), v)
  {
    DecDigits(if v < 0 then -v else v);
    ParseSignedDec(v, I64_MIN, I64_MAX);
  }

  lemma LexPlain(s: string)
    requires |s| > 0 && IsDigit(s[|s| - 1])
    ensures Lex(s) == Lexed(s, 1, Count)
  {
    StripsNothing(s, "Ki");
    StripsNothing(s, "Mi");
    StripsNothing(s, "Gi");
    StripsNothing(s, "Ti");
    StripsNothing(s, "k");
    StripsNothing(s, "M");
    StripsNothing(s, "G");
    StripsNothing(s, "m");
  }

  lemma LexMilli(text: string)
    ensures Lex(text + "m") == Lexed(text, 1, Millicores)
  {
    var s := text + "m";
    StripAppended(text, "m");
    StripsNothing(s, "Ki");
    StripsNothing(s, "Mi");
    StripsNothing(s, "Gi");
    StripsNothing(s, "Ti");
    StripsNothing(s, "k");
    StripsNothing(s, "M");
    StripsNothing(s, "G");
  }

  /** The suffixes of byte quantities and their factors. */
  predicate IsByteSuffix(suffix: string, factor: int) {
    (suffix, factor) in {("Ki", 1024), ("Mi", 1048576), ("Gi", 1073741824), ("Ti", 1099511627776),
                         ("k", 1000), ("M", 1000000), ("G", 1000000000)}
  }

  lemma LexPair(text: string, suffix: string, factor: int)
    requires |text| > 0 && IsByteSuffix(suffix, factor) && |suffix| == 2
    ensures Lex(text + suffix) == Lexed(text, factor, Bytes)
  {
  }

  lemma LexSingle(text: string, suffix: string, factor: int)
    requires |text| > 0 && IsByteSuffix(suffix, factor) && |suffix| == 1
    ensures Lex(text + suffix) == Lexed(text, factor, Bytes)
  {
    var s := text + suffix;
    StripAppended(text, suffix);
    StripsNothing(s, "Ki");
    StripsNothing(s, "Mi");
    StripsNothing(s, "Gi");
    StripsNothing(s, "Ti");
    if suffix != "k" {
      StripsNothing(s, "k");
    }
    if suffix == "G" {
      StripsNothing(s, "M");
    }
  }

  lemma ParsePlain(text: string, v: int)
    requires Numeral(text, v) && IsI64(v)
    ensures Parse(text) == Some(Quantity(v, Count))
  {
    TrimNoSpace(text);
    LexPlain(text);
  }

  lemma ParseMilli(text: string, v: int)
    requires Numeral(text, v) && IsI64(v)
    ensures Parse(text + "m") == Some(Quantity(v, Millicores))
  {
    TrimNoSpace(text + "m");
    LexMilli(text);
  }

  /** Every byte suffix scales by its factor, saturating at the ends of i64. */
  lemma ParseSuffixed(text: string, v: int, suffix: string, factor: int)
    requires Numeral(text, v) && IsByteSuffix(suffix, factor)
    ensures Parse(text + suffix) == Some(Quantity(SatMulI64(v, factor), Bytes))
    ensures SatMulI64(v, factor) == if v * factor > 0x7FFF_FFFF_FFFF_FFFF then 0x7FFF_FFFF_FFFF_FFFF
                                    else if v * factor < -0x8000_0000_0000_0000 then -0x8000_0000_0000_0000
                                    else v * factor
  {
    SuffixChars(suffix, factor);
    TrimNoSpace(text + suffix);
    if |suffix| == 2 {
      LexPair(text, suffix, factor);
    } else {
      LexSingle(text, suffix, factor);
    }
  }

  lemma SuffixChars(suffix: string, factor: int)
    requires IsByteSuffix(suffix, factor)
    ensures 1 <= |suffix| <= 2 && NoSpace(suffix)
  {
  }

  lemma CpuPlain(text: string, n: int)
    requires Numeral(text, n) && IsI64(n * 1000)
    ensures ParseForKey("cpu", text) == Some(Quantity(n * 1000, Millicores))
  {
    ParsePlain(text, n);
  }

  lemma CpuMilli(text: string, v: int)
    requires Numeral(text, v) && IsI64(v)
    ensures ParseForKey("cpu", text + "m") == Some(Quantity(v, Millicores))
  {
    ParseMilli(text, v);
  }

  /** Under the key "cpu" a plain number is whole cores, saturating at the ends of i64. */
  lemma CoresRead(text: string, n: int)
    requires Numeral(text, n) && IsI64(n)
    ensures ParseForKey("cpu", text)
         == Some(Quantity(if n * 1000 > 0x7FFF_FFFF_FFFF_FFFF then 0x7FFF_FFFF_FFFF_FFFF
                          else if n * 1000 < -0x8000_0000_0000_0000 then -0x8000_0000_0000_0000
                          else n * 1000, Millicores))
  {
    ParsePlain(text, n);
  }

  /** White space around a quantity does not matter. */
  lemma PaddingIsIgnored(before: string, text: string, after: string)
    requires AllSpace(before) && AllSpace(after) && Trimmed(text) && text != []
    ensures Parse(before + text + after) == Parse(text)
  {
    TrimPadded(before, text, after);
    assert "" + text + "" == text;
    TrimPadded("", text, "");
  }

  lemma PrintWholeCores(v: int, n: int)
    requires v == n * 1000
    ensures Print(Quantity(v, Millicores)) == SignedDec(n)
  {
  }

  lemma WholeCoresRoundTrip(v: int, n: int)
    requires v == n * 1000 && IsI64(v)
    ensures ParseForKey("cpu", Print(Quantity(v, Millicores))) == Some(Quantity(v, Millicores))
  {
    PrintWholeCores(v, n);
    SignedDecIsNumeral(n);
    CpuPlain(SignedDec(n), n);
  }

  lemma PartCoresRoundTrip(v: int)
    requires IsI64(v) && v % 1000 != 0
    ensures ParseForKey("cpu", Print(Quantity(v, Millicores))) == Some(Quantity(v, Millicores))
  {
    SignedDecIsNumeral(v);
    CpuMilli(SignedDec(v), v);
  }

  /**
   For every i64, millicores come back unchanged exactly under the key "cpu" or when they are not
   whole cores; under any other key whole cores come back as a count.
   */
  lemma MillicoresRoundTrip(key: string, v: int)
    requires IsI64(v)
    ensures ParseForKey(key, Print(Quantity(v, Millicores))) == Some(Quantity(v, Millicores))
       <==> key == "cpu" || v % 1000 != 0
    ensures key != "cpu" && v % 1000 == 0 ==>
              ParseForKey(key, Print(Quantity(v, Millicores))) == Some(Quantity(v / 1000, Count))
  {
    if key == "cpu" {
      if v % 1000 == 0 {
        WholeCoresRoundTrip(v, v / 1000);
      } else {
        PartCoresRoundTrip(v);
      }
    } else if v % 1000 == 0 {
      WholeCoresElsewhere(key, v, v / 1000);
    } else {
      PartCoresElsewhere(key, v);
    }
  }

  lemma WholeCoresElsewhere(key: string, v: int, n: int)
    requires v == n * 1000 && IsI64(v) && key != "cpu"
    ensures ParseForKey(key, Print(Quantity(v, Millicores))) == Some(Quantity(n, Count))
  {
    PrintWholeCores(v, n);
    SignedDecIsNumeral(n);
    ParsePlain(SignedDec(n), n);
  }

  lemma PartCoresElsewhere(key: string, v: int)
    requires IsI64(v) && v % 1000 != 0 && key != "cpu"
    ensures ParseForKey(key, Print(Quantity(v, Millicores))) == Some(Quantity(v, Millicores))
  {
    SignedDecIsNumeral(v);
    ParseMilli(SignedDec(v), v);
  }

  lemma ParsePrintedUnit(v: int, suffix: string, factor: int)
    requires IsI64(v) && IsByteSuffix(suffix, factor) && factor > 0 && v % factor == 0
    ensures Parse(SignedDec(v / factor) + suffix) == Some(Quantity(v, Bytes))
  {
    var n := v / factor;
    assert n * factor == v;
    SignedDecIsNumeral(n);
    ParseSuffixed(SignedDec(n), n, suffix, factor);
  }

  lemma GiIsMi(v: int)
    requires v % 1073741824 == 0
    ensures v % 1048576 == 0
  {
    var q := v / 1073741824;
    assert v == (1024 * q) * 1048576;
  }

  lemma MiIsKi(v: int)
    requires v % 1048576 == 0
    ensures v % 1024 == 0
  {
    var q := v / 1048576;
    assert v == (1024 * q) * 1024;
  }

  lemma ParsePrintedBytes(v: int)
    requires IsI64(v)
    ensures Parse(Print(Quantity(v, Bytes))) == Some(Quantity(v, if v % 1024 == 0 then Bytes else Count))
    ensures v % 1024 != 0 ==> Print(Quantity(v, Bytes)) == SignedDec(v)
  {
    if v % 1073741824 == 0 {
      GiIsMi(v);
      MiIsKi(v);
      ParsePrintedUnit(v, "Gi", 1073741824);
    } else if v % 1048576 == 0 {
      MiIsKi(v);
      ParsePrintedUnit(v, "Mi", 1048576);
    } else if v % 1024 == 0 {
      ParsePrintedUnit(v, "Ki", 1024);
    } else {
      SignedDecIsNumeral(v);
      ParsePlain(SignedDec(v), v);
    }
  }

  /**
   Under every key but "cpu" a byte quantity keeps its value, keeps its unit exactly when
   1024 divides it, and prints to the same text again.
   */
  lemma BytesRoundTrip(key: string, v: int)
    requires IsI64(v) && key != "cpu"
    ensures var text := Print(Quantity(v, Bytes));
            var back := ParseForKey(key, text);
            && back.Some?
            && back.value.value == v
            && (back.value.unit == Bytes <==> v % 1024 == 0)
            && (back.value.unit == Count <==> v % 1024 != 0)
            && Print(back.value) == text
  {
    ParsePrintedBytes(v);
  }

  /** The suffixes byte quantities are printed with; the empty one for single bytes. */
  predicate IsPrintUnit(suffix: string, factor: int) {
    (suffix, factor) in {("", 1), ("Ki", 1024), ("Mi", 1048576), ("Gi", 1073741824)}
  }

  /** Byte quantities are printed in the largest unit that divides them. */
  lemma PrintsLargestUnit(v: int) returns (suffix: string, factor: int)
    ensures IsPrintUnit(suffix, factor) && factor > 0 && v % factor == 0
    ensures Print(Quantity(v, Bytes)) == SignedDec(v / factor) + suffix
    ensures forall s, f :: IsPrintUnit(s, f) && f > 0 && v % f == 0 ==> f <= factor
  {
    if v % 1073741824 == 0 {
      suffix, factor := "Gi", 1073741824;
    } else if v % 1048576 == 0 {
      suffix, factor := "Mi", 1048576;
    } else if v % 1024 == 0 {
      suffix, factor := "Ki", 1024;
    } else {
      suffix, factor := "", 1;
    }
  }

  /** Under "cpu" the same text is read in millicores when it carries no suffix. */
  lemma BytesUnderCpu(v: int)
    requires IsI64(v)
    ensures ParseForKey("cpu", Print(Quantity(v, Bytes))) == Some(Quantity(v, Bytes)) <==> v % 1024 == 0
  {
    ParsePrintedBytes(v);
  }

  /** Counts come back exactly under every key but "cpu". */
  lemma CountRoundTrip(key: string, v: int)
    requires IsI64(v)
    ensures ParseForKey(key, Print(Quantity(v, Count))) == Some(Quantity(v, Count)) <==> key != "cpu"
  {
    SignedDecIsNumeral(v);
    ParsePlain(SignedDec(v), v);
  }
}
