/** Human-readable durations: "500ms", "30s", "15m", "2h", "1d". A duration is a number of
    nanoseconds; numbers in the text are unsigned 64-bit. */
module Durations {
  import opened Wrappers
  import opened Radix
  import opened Text

  const MILLI: nat := 1000000

  datatype Unit = Ms | Sec | Min | Hour | Day

  datatype ParseError = MissingUnit | BadNumber | UnknownUnit

  function Millis(u: Unit): nat {
    match u
    case Ms => 1
    case Sec => 1000
    case Min => 60000
    case Hour => 3600000
    case Day => 86400000
  }

  function Suffix(u: Unit): string {
    match u
    case Ms => "ms"
    case Sec => "s"
    case Min => "m"
    case Hour => "h"
    case Day => "d"
  }

  // ----------------------------------------------------------------------- printing

  /** The coarsest unit that divides a number of milliseconds exactly; seconds for zero. */
  function UnitFor(ms: nat): Unit {
    if ms == 0 then Sec
    else if ms % 86400000 == 0 then Day
    else if ms % 3600000 == 0 then Hour
    else if ms % 60000 == 0 then Min
    else if ms % 1000 == 0 then Sec
    else Ms
  }

  /** Whole milliseconds, truncated to 64 bits, in their coarsest exact unit. */
  function Format(nanos: nat): string {
    var ms := nanos / MILLI % U64;
    Decimal(ms / Millis(UnitFor(ms))) + Suffix(UnitFor(ms))
  }

  // ------------------------------------------------------------------------ parsing

  predicate IsSpace(c: char) {
    c == ' ' || c == '\t' || c == '\n' || c == '\r' || c == '\U{0B}' || c == '\U{0C}'
  }

  predicate IsAlpha(c: char) {
    'a' <= c <= 'z' || 'A' <= c <= 'Z'
  }

  function TrimStart(s: string): string {
    if s != "" && IsSpace(s[0]) then TrimStart(s[1..]) else s
  }

  function TrimEnd(s: string): string {
    if s != "" && IsSpace(s[|s| - 1]) then TrimEnd(s[..|s| - 1]) else s
  }

  function Trim(s: string): string {
    TrimEnd(TrimStart(s))
  }

  /** Position of the first ASCII letter; the length when there is none. */
  function FirstAlpha(s: string): (k: nat)
    ensures k <= |s|
  {
    if s == "" || IsAlpha(s[0]) then 0 else 1 + FirstAlpha(s[1..])
  }

  function Unsigned(s: string): string {
    if s != "" && s[0] == '+' then s[1..] else s
  }

  function ParseU64(s: string): Option<nat> {
    var digits := Unsigned(s);
    if digits != "" && (forall i :: 0 <= i < |digits| ==> IsDigit(digits[i])) && Decode(DIGITS, digits) < U64
    then Some(Decode(DIGITS, digits)) else None
  }

  /** Seconds from a count of a unit; the 64-bit product wraps in release builds. */
  function FromSeconds(n: nat, unit: nat): Result<nat, ParseError> {
    Success(n * unit % U64 * 1000 * MILLI)
  }

  function InUnit(n: nat, suffix: string): Result<nat, ParseError> {
    if suffix == "ms" then Success(n * MILLI)
    else if suffix == "s" then FromSeconds(n, 1)
    else if suffix == "m" then FromSeconds(n, 60)
    else if suffix == "h" then FromSeconds(n, 3600)
    else if suffix == "d" then FromSeconds(n, 86400)
    else Failure(UnknownUnit)
  }

  function Parse(text: string): Result<nat, ParseError> {
    var s := Trim(text);
    var pos := FirstAlpha(s);
    if pos == |s| then Failure(MissingUnit)
    else
      var n := ParseU64(Trim(s[..pos]));
      if n.None? then Failure(BadNumber) else InUnit(n.value, Lower(s[pos..]))
  }

  // --------------------------------------------------------------------- round trip

  ghost predicate AllDigits(d: string) {
    d != "" && forall i :: 0 <= i < |d| ==> IsDigit(d[i])
  }

  lemma {:induction false} DecimalIsDigits(n: nat)
    ensures AllDigits(Decimal(n))
  {
    DigitSymbol(n % 10);
    if n >= 10 { DecimalIsDigits(n / 10); }
  }

  lemma {:induction false} FirstAlphaAfterDigits(d: string, rest: string)
    requires (forall i :: 0 <= i < |d| ==> IsDigit(d[i])) && rest != "" && IsAlpha(rest[0])
    ensures FirstAlpha(d + rest) == |d|
  {
    if d == "" {
      assert d + rest == rest;
    } else {
      assert (d + rest)[1..] == d[1..] + rest;
      FirstAlphaAfterDigits(d[1..], rest);
    }
  }

  lemma TrimNothing(s: string)
    requires s != "" && !IsSpace(s[0]) && !IsSpace(s[|s| - 1])
    ensures Trim(s) == s
  {
  }

  lemma SuffixLower(u: Unit)
    ensures Lower(Suffix(u)) == Suffix(u)
    ensures IsAlpha(Suffix(u)[0]) && !IsSpace(Suffix(u)[|Suffix(u)| - 1])
  {
    assert "ms"[1..] == "s" && "s"[1..] == "";
    match u
    case Ms =>
    case Sec =>
    case Min => assert "m"[1..] == "";
    case Hour => assert "h"[1..] == "";
    case Day => assert "d"[1..] == "";
  }

  lemma DigitsParse(d: string)
    requires AllDigits(d) && Decode(DIGITS, d) < U64
    ensures ParseU64(Trim(d)) == Some(Decode(DIGITS, d))
  {
    TrimNothing(d);
  }

  /** Digits followed by letters split where the letters begin. */
  lemma ParseSplits(d: string, suffix: string)
    requires AllDigits(d) && suffix != "" && IsAlpha(suffix[0]) && !IsSpace(suffix[|suffix| - 1])
    requires Decode(DIGITS, d) < U64
    ensures Parse(d + suffix) == InUnit(Decode(DIGITS, d), Lower(suffix))
  {
    var s := d + suffix;
    TrimNothing(s);
    FirstAlphaAfterDigits(d, suffix);
    assert s[..|d|] == d && s[|d|..] == suffix;
    DigitsParse(d);
  }

  /** A plain number followed by a unit parses to that many units. */
  lemma ParsePlain(n: nat, u: Unit)
    requires n < U64
    ensures Parse(Decimal(n) + Suffix(u)) == InUnit(n, Suffix(u))
  {
    DecimalReadsBack(n);
    DecimalIsDigits(n);
    SuffixLower(u);
    ParseSplits(Decimal(n), Suffix(u));
  }

  lemma InOwnUnit(n: nat, u: Unit)
    requires n * Millis(u) < U64
    ensures InUnit(n, Suffix(u)) == Success(n * Millis(u) * MILLI)
  {
    match u
    case Ms =>
    case Sec => ModIsSmall(n, U64);
    case Min => SmallProduct(n, 60);
    case Hour => SmallProduct(n, 3600);
    case Day => SmallProduct(n, 86400);
  }

  lemma SmallProduct(n: nat, unit: nat)
    requires n * (unit * 1000) < U64
    ensures n * unit < U64 && n * unit % U64 * 1000 == n * (unit * 1000)
  {
    assert n * (unit * 1000) == n * unit * 1000;
    ModIsSmall(n * unit, U64);
  }

  /** A number with a unit parses to that many units exactly when its seconds fit 64 bits; beyond
      that the product wraps to a shorter duration without an error. */
  lemma ParsedExactly(n: nat, u: Unit)
    requires n < U64
    ensures Parse(Decimal(n) + Suffix(u)) == Success(n * Millis(u) * MILLI) <==> u.Ms? || n * (Millis(u) / 1000) < U64
  {
    ParsePlain(n, u);
    InUnitExactly(n, u);
  }

  /** Minutes are counted modulo 2^64 seconds. */
  lemma MinutesWrap(n: nat, seconds: nat)
    requires n < U64 && n * 60 == U64 + seconds && seconds < U64
    ensures Parse(Decimal(n) + Suffix(Min)) == Success(seconds * 1000 * MILLI)
  {
    ParsePlain(n, Min);
    DivMod(n * 60, U64, 1, seconds);
  }

  /** "307445734561825861m" parses to 44 seconds. */
  lemma WrappedMinutes(n: nat)
    requires n == 307445734561825861
    ensures Parse(Decimal(n) + Suffix(Min)) == Success(44 * 1000 * MILLI)
  {
    MinutesWrap(n, 44);
  }

  lemma InUnitExactly(n: nat, u: Unit)
    requires n < U64
    ensures InUnit(n, Suffix(u)) == Success(n * Millis(u) * MILLI) <==> u.Ms? || n * (Millis(u) / 1000) < U64
  {
    match u
    case Ms =>
    case Sec => ProductExactly(n, 1);
    case Min => ProductExactly(n, 60);
    case Hour => ProductExactly(n, 3600);
    case Day => ProductExactly(n, 86400);
  }

  lemma ProductExactly(n: nat, unit: nat)
    ensures n * unit % U64 * 1000 * MILLI == n * (unit * 1000) * MILLI <==> n * unit < U64
  {
    assert n * (unit * 1000) == n * unit * 1000;
    ModIsSmall(n * unit, U64);
  }

  lemma UnitDivides(ms: nat)
    ensures ms / Millis(UnitFor(ms)) * Millis(UnitFor(ms)) == ms
  {
  }

  /** No rendering of the same milliseconds uses a coarser unit. */
  lemma UnitIsCoarsest(ms: nat, count: nat, u: Unit)
    requires ms > 0 && count * Millis(u) == ms
    ensures Millis(u) <= Millis(UnitFor(ms))
  {
    DivMod(ms, Millis(u), count, 0);
  }

  /** Printing then parsing never fails and no product wraps; it keeps the 64-bit milliseconds. */
  lemma ParseFormat(nanos: nat)
    ensures Parse(Format(nanos)) == Success(nanos / MILLI % U64 * MILLI)
    ensures var ms := nanos / MILLI % U64; ms / Millis(UnitFor(ms)) * Millis(UnitFor(ms)) < U64
  {
    var ms := nanos / MILLI % U64;
    var u := UnitFor(ms);
    var n := ms / Millis(u);
    UnitDivides(ms);
    assert n <= ms;
    ParsePlain(n, u);
    InOwnUnit(n, u);
  }

  /** The round trip is the identity exactly on whole milliseconds that fit 64 bits. */
  lemma RoundTripExactly(nanos: nat)
    ensures Parse(Format(nanos)) == Success(nanos) <==> nanos % MILLI == 0 && nanos / MILLI < U64
  {
    ParseFormat(nanos);
    var ms := nanos / MILLI;
    ModIsSmall(ms, U64);
    assert nanos == ms * MILLI + nanos % MILLI;
    assert ms % U64 <= ms;
  }

  // ------------------------------------------------------------ which texts are accepted

  ghost predicate Spaces(s: string) {
    forall i :: 0 <= i < |s| ==> IsSpace(s[i])
  }

  ghost predicate Trimmed(s: string) {
    s != "" ==> !IsSpace(s[0]) && !IsSpace(s[|s| - 1])
  }

  /** The unit's name, in any case. */
  ghost predicate IsSuffix(suffix: string, u: Unit) {
    match u
    case Ms => SameUpToCase(suffix, "ms")
    case Sec => SameUpToCase(suffix, "s")
    case Min => SameUpToCase(suffix, "m")
    case Hour => SameUpToCase(suffix, "h")
    case Day => SameUpToCase(suffix, "d")
  }

  ghost predicate Denary(digits: string, n: nat) {
    AllDigits(digits) && Decode(DIGITS, digits) == n
  }

  /** Digits below 2^64, perhaps after a plus sign. */
  ghost predicate IsNumber(number: string, n: nat) {
    && n < U64
    && (Denary(number, n) || (number != "" && number[0] == '+' && Denary(number[1..], n)))
  }

  /** A number and a unit, with white space before, between and after. */
  ghost predicate Spells(text: string, before: string, number: string, gap: string, suffix: string, after: string) {
    Spaces(before) && Spaces(gap) && Spaces(after) && text == before + (number + gap + suffix) + after
  }

  ghost predicate Denotes(text: string, n: nat, u: Unit) {
    exists before, number, gap, suffix, after ::
      Spells(text, before, number, gap, suffix, after) && IsNumber(number, n) && IsSuffix(suffix, u)
  }

  lemma {:induction false} TrimStartParts(s: string) returns (before: string)
    ensures Spaces(before) && s == before + TrimStart(s)
    ensures TrimStart(s) != "" ==> !IsSpace(TrimStart(s)[0])
  {
    before := "";
    if s != "" && IsSpace(s[0]) {
      before := TrimStartParts(s[1..]);
      assert s == [s[0]] + s[1..];
      before := [s[0]] + before;
    }
  }

  lemma {:induction false} TrimEndParts(s: string) returns (after: string)
    ensures Spaces(after) && s == TrimEnd(s) + after
    ensures TrimEnd(s) != "" ==> !IsSpace(TrimEnd(s)[|TrimEnd(s)| - 1]) && TrimEnd(s)[0] == s[0]
  {
    after := "";
    if s != "" && IsSpace(s[|s| - 1]) {
      var last := s[|s| - 1];
      after := TrimEndParts(s[..|s| - 1]);
      assert s == s[..|s| - 1] + [last];
      after := after + [last];
    }
  }

  lemma TrimParts(s: string) returns (before: string, after: string)
    ensures Spaces(before) && Spaces(after) && s == before + Trim(s) + after && Trimmed(Trim(s))
  {
    before := TrimStartParts(s);
    after := TrimEndParts(TrimStart(s));
    assert before + (Trim(s) + after) == before + Trim(s) + after;
  }

  lemma {:induction false} TrimStartOf(before: string, s: string)
    requires Spaces(before) && (s != "" ==> !IsSpace(s[0]))
    ensures TrimStart(before + s) == s
  {
    if before == "" {
      assert before + s == s;
    } else {
      assert (before + s)[1..] == before[1..] + s;
      TrimStartOf(before[1..], s);
    }
  }

  lemma {:induction false} TrimEndOf(s: string, after: string)
    requires Spaces(after) && (s != "" ==> !IsSpace(s[|s| - 1]))
    ensures TrimEnd(s + after) == s
  {
    if after == "" {
      assert s + after == s;
    } else {
      assert (s + after)[..|s + after| - 1] == s + after[..|after| - 1];
      TrimEndOf(s, after[..|after| - 1]);
    }
  }

  lemma TrimOf(before: string, s: string, after: string)
    requires Spaces(before) && Spaces(after) && s != "" && Trimmed(s)
    ensures Trim(before + s + after) == s
  {
    assert before + s + after == before + (s + after);
    TrimStartOf(before, s + after);
    TrimEndOf(s, after);
  }

  lemma {:induction false} FirstAlphaAt(prefix: string, rest: string)
    requires (forall i :: 0 <= i < |prefix| ==> !IsAlpha(prefix[i])) && rest != "" && IsAlpha(rest[0])
    ensures FirstAlpha(prefix + rest) == |prefix|
  {
    if prefix == "" {
      assert prefix + rest == rest;
    } else {
      assert (prefix + rest)[1..] == prefix[1..] + rest;
      FirstAlphaAt(prefix[1..], rest);
    }
  }

  /** A unit's name in any case folds to it. */
  lemma SuffixFolds(suffix: string, u: Unit)
    ensures IsSuffix(suffix, u) <==> Lower(suffix) == Suffix(u)
    ensures IsSuffix(suffix, u) ==> suffix != "" && IsAlpha(suffix[0]) && !IsSpace(suffix[|suffix| - 1])
  {
    SuffixLower(u);
    FoldAlikeExactly(suffix, Suffix(u));
  }

  lemma UnitsOnly(n: nat, suffix: string)
    ensures InUnit(n, suffix).Success? <==> exists u :: suffix == Suffix(u)
    ensures InUnit(n, suffix).Failure? ==> InUnit(n, suffix) == Failure(UnknownUnit)
  {
    if InUnit(n, suffix).Success? {
      var u := if suffix == "ms" then Ms else if suffix == "s" then Sec else if suffix == "m" then Min
               else if suffix == "h" then Hour else Day;
      assert suffix == Suffix(u);
    }
  }

  lemma NumberReads(number: string, n: nat)
    ensures IsNumber(number, n) <==> ParseU64(number) == Some(n)
    ensures IsNumber(number, n) ==>
      number != "" && Trimmed(number) && forall i :: 0 <= i < |number| ==> !IsAlpha(number[i])
  {
    if number != "" && number[0] == '+' {
      assert Unsigned(number) == number[1..] && !AllDigits(number);
      assert forall i :: 1 <= i < |number| ==> number[i] == number[1..][i - 1];
    } else {
      assert Unsigned(number) == number;
    }
  }

  lemma SpelledParses(text: string, before: string, number: string, gap: string, suffix: string, after: string,
          n: nat, u: Unit)
    requires Spells(text, before, number, gap, suffix, after) && IsNumber(number, n) && IsSuffix(suffix, u)
    ensures Parse(text) == InUnit(n, Suffix(u))
  {
    NumberReads(number, n);
    SuffixFolds(suffix, u);
    var lead := number + gap;
    assert Trimmed(lead + suffix) && lead + suffix != "";
    TrimOf(before, lead + suffix, after);
    FirstAlphaAt(lead, suffix);
    assert (lead + suffix)[..|lead|] == "" + number + gap && (lead + suffix)[|lead|..] == suffix;
    TrimOf("", number, gap);
  }

  lemma DenotedParses(text: string, n: nat, u: Unit)
    requires Denotes(text, n, u)
    ensures Parse(text) == InUnit(n, Suffix(u))
  {
    var before, number, gap, suffix, after :|
      Spells(text, before, number, gap, suffix, after) && IsNumber(number, n) && IsSuffix(suffix, u);
    SpelledParses(text, before, number, gap, suffix, after, n, u);
  }

  lemma ParsedDenotes(text: string) returns (n: nat, u: Unit)
    requires Parse(text).Success?
    ensures Denotes(text, n, u)
  {
    var s := Trim(text);
    var pos := FirstAlpha(s);
    var before, after := TrimParts(text);
    var lead, gap := TrimParts(s[..pos]);
    assert s == s[..pos] + s[pos..];
    n := ParseU64(Trim(s[..pos])).value;
    NumberReads(Trim(s[..pos]), n);
    u := UnitNamed(n, s[pos..]);
    Respell(text, before, lead, Trim(s[..pos]), gap, s[pos..], after);
  }

  lemma UnitNamed(n: nat, suffix: string) returns (u: Unit)
    requires InUnit(n, Lower(suffix)).Success?
    ensures IsSuffix(suffix, u)
  {
    UnitsOnly(n, Lower(suffix));
    u :| Lower(suffix) == Suffix(u);
    SuffixFolds(suffix, u);
  }

  lemma Respell(text: string, before: string, lead: string, number: string, gap: string, suffix: string, after: string)
    requires Spaces(before) && Spaces(lead) && Spaces(gap) && Spaces(after)
    requires text == before + ((lead + number + gap) + suffix) + after
    ensures Spells(text, before + lead, number, gap, suffix, after)
  {
    assert before + ((lead + number + gap) + suffix) == before + lead + (number + gap + suffix);
  }

  /** That many units in nanoseconds; the seconds of the larger units are a 64-bit product. */
  ghost function Amount(n: nat, u: Unit): nat {
    if u.Ms? then n * 1000000 else n * (Millis(u) / 1000) % U64 * 1000 * 1000000
  }

  lemma AmountInUnit(n: nat, u: Unit)
    ensures InUnit(n, Suffix(u)) == Success(Amount(n, u))
  {
  }

  /** Exactly the texts that are a number below 2^64 and a unit are accepted, in any case and spacing, and
      each is read as that many units. */
  lemma ParsesExactly(text: string)
    ensures Parse(text).Success? <==> exists n: nat, u :: Denotes(text, n, u)
    ensures forall n: nat, u :: Denotes(text, n, u) ==> Parse(text) == Success(Amount(n, u))
  {
    if Parse(text).Success? { var n, u := ParsedDenotes(text); }
    forall n: nat, u | Denotes(text, n, u) ensures Parse(text) == Success(Amount(n, u)) {
      DenotedParses(text, n, u);
      AmountInUnit(n, u);
    }
  }

  lemma {:induction false} FirstAlphaMeaning(s: string)
    ensures var k := FirstAlpha(s);
            (k < |s| ==> IsAlpha(s[k])) && forall i :: 0 <= i < k ==> !IsAlpha(s[i])
  {
    if s != "" && !IsAlpha(s[0]) {
      FirstAlphaMeaning(s[1..]);
      assert forall i :: 0 < i < |s| ==> s[i] == s[1..][i - 1];
    }
  }

  ghost predicate Letter(c: char) {
    'a' <= c <= 'z' || 'A' <= c <= 'Z'
  }

  /** The first letter, and the number that has to come before it. */
  ghost predicate Splits(text: string, k: nat) {
    k < |text| && Letter(text[k]) && forall i :: 0 <= i < k ==> !Letter(text[i])
  }

  lemma {:induction false} TrimStartSkips(before: string, s: string)
    requires Spaces(before)
    ensures TrimStart(before + s) == TrimStart(s)
  {
    if before == "" {
      assert before + s == s;
    } else {
      assert (before + s)[1..] == before[1..] + s;
      TrimStartSkips(before[1..], s);
    }
  }

  lemma LettersAreAlpha(c: char)
    ensures Letter(c) <==> IsAlpha(c)
    ensures Letter(c) ==> !IsSpace(c)
  {
  }

  /** The text and what is left of it when trimmed have the same first letter, and the same before it. */
  lemma SplitTrimmed(text: string) returns (before: string)
    ensures var s := Trim(text);
            && Spaces(before) && |before| + |s| <= |text|
            && (FirstAlpha(s) == |s| <==> forall i :: 0 <= i < |text| ==> !Letter(text[i]))
            && forall k: nat :: Splits(text, k) ==>
                 FirstAlpha(s) < |s| && k == |before| + FirstAlpha(s) && text[..k] == before + s[..FirstAlpha(s)]
  {
    var s, after;
    s := Trim(text);
    before, after := TrimParts(text);
    FirstAlphaMeaning(s);
    assert forall i :: 0 <= i < |s| ==> text[|before| + i] == s[i];
    forall i | 0 <= i < |text|
      ensures Letter(text[i]) <==> |before| <= i < |before| + |s| && IsAlpha(s[i - |before|])
    {
      LettersAreAlpha(text[i]);
    }
    if FirstAlpha(s) < |s| { assert Letter(text[|before| + FirstAlpha(s)]); }
  }

  /** What is wrong with a refused text: no letter in it, or no number before the first letter, or no unit
      from there on. */
  lemma RefusedFor(text: string)
    ensures Parse(text) == Failure(MissingUnit) <==> forall i :: 0 <= i < |text| ==> !Letter(text[i])
    ensures forall k: nat :: Splits(text, k) ==>
      (Parse(text) == Failure(BadNumber) <==> forall n: nat :: !IsNumber(Trim(text[..k]), n))
  {
    var s := Trim(text);
    var pos := FirstAlpha(s);
    var before := SplitTrimmed(text);
    TrimStartSkips(before, s[..pos]);
    var number := Trim(s[..pos]);
    assert forall k: nat :: Splits(text, k) ==> Trim(text[..k]) == number;
    forall n: nat ensures IsNumber(number, n) <==> ParseU64(number) == Some(n) { NumberReads(number, n); }
    assert ParseU64(number).None? <==> forall n: nat :: !IsNumber(number, n);
    if ParseU64(number).Some? { UnitsOnly(ParseU64(number).value, Lower(s[pos..])); }
  }
}
