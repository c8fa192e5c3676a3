/** Unix seconds to Gregorian dates and RFC 3339 text, in the two forms the program has. */
module Calendar {
  import opened Text
  import opened Radix

  datatype Date = Date(year: nat, month: nat, day: nat)

  predicate IsLeap(y: nat) {
    (y % 4 == 0 && y % 100 != 0) || y % 400 == 0
  }

  function YearDays(y: nat): nat {
    if IsLeap(y) then 366 else 365
  }

  function MonthDays(y: nat, m: nat): nat
    requires 1 <= m <= 12
  {
    if m == 2 then (if IsLeap(y) then 29 else 28)
    else if m == 4 || m == 6 || m == 9 || m == 11 then 30
    else 31
  }

  predicate ValidDate(d: Date) {
    d.year >= 1970 && 1 <= d.month <= 12 && 1 <= d.day <= MonthDays(d.year, d.month)
  }

  // ----------------------------------------------------- the Gregorian day count

  /** Days from 1970-01-01 to the first of January, by the 4/100/400 rule. */
  function YearStart(y: nat): int
    requires y >= 1970
  {
    365 * (y - 1970) + ((y - 1) / 4 - (y - 1) / 100 + (y - 1) / 400) - 477
  }

  /** Days in the year before the month, by the tabulated running totals. */
  function MonthStart(y: nat, m: nat): nat
    requires 1 <= m <= 13
  {
    [0, 31, 59, 90, 120, 151, 181, 212, 243, 273, 304, 334, 365][m - 1] + if m > 2 && IsLeap(y) then 1 else 0
  }

  /** The number of days from 1970-01-01 to a date. */
  function DayNumber(d: Date): int
    requires ValidDate(d)
  {
    YearStart(d.year) + MonthStart(d.year, d.month) + d.day - 1
  }

  lemma YearStep(y: nat)
    requires y >= 1970
    ensures YearStart(y + 1) == YearStart(y) + YearDays(y)
  {
    Every(y, 4);
    Every(y, 100);
    Every(y, 400);
    assert y % 400 == 0 ==> y % 100 == 0;
    assert y % 100 == 0 ==> y % 4 == 0;
  }

  lemma Every(y: nat, n: nat)
    requires y >= 1 && n > 1
    ensures y / n == (y - 1) / n + if y % n == 0 then 1 else 0
  {
    var q, r := y / n, y % n;
    assert y == n * q + r;
    if r == 0 {
      assert y - 1 == n * (q - 1) + (n - 1);
      DivMod(y - 1, n, q - 1, n - 1);
    } else {
      DivMod(y - 1, n, q, r - 1);
    }
  }

  lemma MonthStep(y: nat, m: nat)
    requires 1 <= m <= 12
    ensures MonthStart(y, m + 1) == MonthStart(y, m) + MonthDays(y, m)
    ensures MonthStart(y, 1) == 0 && MonthStart(y, 13) == YearDays(y)
  {
  }

  lemma {:induction false} MonthOrder(y: nat, m: nat, n: nat)
    requires 1 <= m < n <= 13
    ensures MonthStart(y, m) + MonthDays(y, m) <= MonthStart(y, n)
    decreases n
  {
    MonthStep(y, m);
    if m + 1 < n {
      MonthOrder(y, m, n - 1);
      MonthStep(y, n - 1);
    }
  }

  lemma {:induction false} YearOrder(y: nat, z: nat)
    requires 1970 <= y < z
    ensures YearStart(y) + YearDays(y) <= YearStart(z)
    decreases z
  {
    YearStep(z - 1);
    if y < z - 1 { YearOrder(y, z - 1); }
  }

  predicate DateLess(a: Date, b: Date) {
    a.year < b.year || (a.year == b.year && (a.month < b.month || (a.month == b.month && a.day < b.day)))
  }

  lemma WithinYear(d: Date)
    requires ValidDate(d)
    ensures YearStart(d.year) <= DayNumber(d) < YearStart(d.year) + YearDays(d.year)
  {
    MonthOrder(d.year, d.month, 13);
    MonthStep(d.year, 1);
  }

  /** Later dates have greater day numbers, so the day count is one-to-one. */
  lemma DayNumberOrder(a: Date, b: Date)
    requires ValidDate(a) && ValidDate(b)
    ensures DateLess(a, b) <==> DayNumber(a) < DayNumber(b)
    ensures a == b <==> DayNumber(a) == DayNumber(b)
  {
    DayNumberLess(a, b);
    DayNumberLess(b, a);
  }

  lemma DayNumberLess(a: Date, b: Date)
    requires ValidDate(a) && ValidDate(b)
    ensures DateLess(a, b) ==> DayNumber(a) < DayNumber(b)
  {
    if a.year < b.year {
      WithinYear(a);
      WithinYear(b);
      YearOrder(a.year, b.year);
    } else if a.year == b.year && a.month < b.month {
      MonthOrder(a.year, a.month, b.month);
    }
  }

  // ---------------------------------------------------------------- its inverse

  function MonthFrom(y: nat, m: nat, left: nat): (d: Date)
    requires y >= 1970 && 1 <= m <= 12 && MonthStart(y, m) + left < YearDays(y)
    ensures ValidDate(d) && DayNumber(d) == YearStart(y) + MonthStart(y, m) + left
    decreases 12 - m
  {
    MonthStep(y, m);
    if left < MonthDays(y, m) then Date(y, m, left + 1) else MonthFrom(y, m + 1, left - MonthDays(y, m))
  }

  function YearFrom(y: nat, left: nat): (d: Date)
    requires y >= 1970
    ensures ValidDate(d) && DayNumber(d) == YearStart(y) + left
    decreases left
  {
    YearStep(y);
    MonthStep(y, 1);
    if left < YearDays(y) then MonthFrom(y, 1, left) else YearFrom(y + 1, left - YearDays(y))
  }

  /** The date with a given day number: there is one for every day, and by the order above only one. */
  function DateOf(days: nat): (d: Date)
    ensures ValidDate(d) && DayNumber(d) == days
  {
    EpochStart();
    YearFrom(1970, days)
  }

  lemma EpochStart()
    ensures YearStart(1970) == 0
  {
  }

  // ------------------------------------------------------------- the two conversions

  /** Subtract whole years, then whole months (as the scheduler does). */
  method DaysToYmd(days: nat) returns (d: Date)
    ensures d == DateOf(days)
  {
    var year: nat, left: nat := 1970, days;
    while left >= YearDays(year)
      invariant year >= 1970 && YearStart(year) + left == days
      decreases left
    {
      YearStep(year);
      left := left - YearDays(year);
      year := year + 1;
    }
    var months := if IsLeap(year) then [31, 29, 31, 30, 31, 30, 31, 31, 30, 31, 30, 31]
                                  else [31, 28, 31, 30, 31, 30, 31, 31, 30, 31, 30, 31];
    var month, rest := PassMonths(year, left, months);
    d := Date(year, month, rest + 1);
    DayNumberOrder(d, DateOf(days));
  }

  /** The month loop: leave it at the first month that does not fit. */
  method PassMonths(year: nat, left: nat, months: seq<nat>) returns (month: nat, rest: nat)
    requires |months| == 12 && forall i :: 0 <= i < 12 ==> months[i] == MonthDays(year, i + 1)
    requires left < YearDays(year)
    ensures 1 <= month <= 12 && rest < MonthDays(year, month) && MonthStart(year, month) + rest == left
  {
    month, rest := 1, left;
    MonthStep(year, 1);
    while month <= 12 && rest >= months[month - 1]
      invariant 1 <= month <= 13 && MonthStart(year, month) + rest == left
      decreases 13 - month
    {
      MonthStep(year, month);
      rest := rest - months[month - 1];
      month := month + 1;
    }
  }

  /** The same with the leap test written inline (as the storage helpers do). */
  method DaysToYmdInline(days: nat) returns (d: Date)
    ensures d == DateOf(days)
  {
    var year, left := 1970, days;
    var leap := false;
    while true
      invariant year >= 1970 && YearStart(year) + left == days
      decreases left
    {
      leap := (year % 4 == 0 && year % 100 != 0) || year % 400 == 0;
      var ydays := if leap then 366 else 365;
      if left < ydays { break; }
      YearStep(year);
      left := left - ydays;
      year := year + 1;
    }
    var february := if leap then 29 else 28;
    var months := [31, february, 31, 30, 31, 30, 31, 31, 30, 31, 30, 31];
    var month, rest := PassMonths(year, left, months);
    d := Date(year, month, rest + 1);
    DayNumberOrder(d, DateOf(days));
  }

  // ----------------------------------------------------------------------- the text

  /** The clock fields of a number of seconds. */
  function Hour(secs: nat): nat { secs % 86400 / 3600 }
  function Minute(secs: nat): nat { secs % 3600 / 60 }
  function Second(secs: nat): nat { secs % 60 }

  /** At least four digits, more when the year needs them. */
  function YearText(y: nat): string {
    if y < 10000 then Padded(y, 4) else Decimal(y)
  }

  function ClockText(secs: nat): string {
    Padded(Hour(secs), 2) + (":" + (Padded(Minute(secs), 2) + (":" + (Padded(Second(secs), 2) + "Z"))))
  }

  function DateText(d: Date, rest: string): string {
    YearText(d.year) + ("-" + (Padded(d.month, 2) + ("-" + (Padded(d.day, 2) + ("T" + rest)))))
  }

  /** Section 5.6 of RFC 3339, in UTC with whole seconds. */
  function Stamp(secs: nat): string {
    DateText(DateOf(secs / 86400), ClockText(secs))
  }

  /** Composing the fields and taking them apart again, by either formatter's arithmetic. */
  lemma ClockParts(secs: nat, days: nat, h: nat, m: nat, s: nat)
    requires h < 24 && m < 60 && s < 60 && secs == 86400 * days + (3600 * h + (60 * m + s))
    ensures secs / 86400 == days && Hour(secs) == h && Minute(secs) == m && Second(secs) == s
    ensures secs % 86400 % 3600 / 60 == m && secs % 86400 % 60 == s
    ensures secs / 3600 % 24 == h && secs / 60 % 60 == m
  {
    var tod := 3600 * h + (60 * m + s);
    DivMod(secs, 86400, days, tod);
    DivMod(tod, 3600, h, 60 * m + s);
    DivMod(secs, 3600, 24 * days + h, 60 * m + s);
    DivMod(60 * m + s, 60, m, s);
    DivMod(tod, 60, 60 * h + m, s);
    DivMod(secs, 60, 60 * (24 * days + h) + m, s);
    DivMod(24 * days + h, 24, days, h);
    DivMod(60 * (24 * days + h) + m, 60, 24 * days + h, m);
  }

  lemma ClockFields(secs: nat)
    ensures Hour(secs) < 24 && Minute(secs) < 60 && Second(secs) < 60
    ensures secs == 86400 * (secs / 86400) + (3600 * Hour(secs) + (60 * Minute(secs) + Second(secs)))
    ensures Hour(secs) == secs / 3600 % 24
    ensures Minute(secs) == secs % 86400 % 3600 / 60 == secs / 60 % 60
    ensures Second(secs) == secs % 86400 % 60
  {
    var minutes := secs / 60;
    var hours := minutes / 60;
    ClockParts(secs, hours / 24, hours % 24, minutes % 60, secs % 60);
  }

  /** The scheduler's formatter. */
  method FormatRfc3339Secs(secs: nat) returns (text: string)
    ensures text == Stamp(secs)
  {
    var timeOfDay := secs % 86400;
    var days := secs / 86400;
    var hh, mm, ss := timeOfDay / 3600, timeOfDay % 3600 / 60, timeOfDay % 60;
    var d := DaysToYmd(days);
    ClockFields(secs);
    text := DateText(d, Padded(hh, 2) + (":" + (Padded(mm, 2) + (":" + (Padded(ss, 2) + "Z")))));
  }

  /** The storage helpers' formatter, given the clock reading. */
  method FormatNow(secs: nat) returns (text: string)
    ensures text == Stamp(secs)
  {
    var s, m, h := secs % 60, secs / 60 % 60, secs / 3600 % 24;
    var days := secs / 86400;
    var d := DaysToYmdInline(days);
    ClockFields(secs);
    text := DateText(d, Padded(h, 2) + (":" + (Padded(m, 2) + (":" + (Padded(s, 2) + "Z")))));
  }

  // ----------------------------------------------------------- the text keeps order

  lemma FieldLess(x: nat, y: nat, width: nat, u: string, v: string)
    requires (x < y < Power(10, width)) || (x == y && Less(u, v))
    ensures Less(Padded(x, width) + u, Padded(y, width) + v)
  {
    DigitsAreAlphabet();
    if x < y {
      EncodeOrder(DIGITS, x, y, width);
      LessByPrefix(Padded(x, width), Padded(y, width), u, v);
    } else {
      LessAfterPrefix(Padded(x, width), u, v);
    }
  }

  lemma Powers()
    ensures Power(10, 2) == 100 && Power(10, 4) == 10000
  {
    assert Power(10, 1) == 10;
  }

  lemma ClockOrder(a: nat, b: nat)
    requires a / 86400 == b / 86400 && a < b
    ensures Less(ClockText(a), ClockText(b))
  {
    ClockFields(a);
    ClockFields(b);
    Powers();
    var sa, sb := Padded(Second(a), 2) + "Z", Padded(Second(b), 2) + "Z";
    var ma, mb := Padded(Minute(a), 2) + (":" + sa), Padded(Minute(b), 2) + (":" + sb);
    if Hour(a) == Hour(b) {
      if Minute(a) == Minute(b) {
        FieldLess(Second(a), Second(b), 2, "Z", "Z");
        LessAfterPrefix(":", sa, sb);
      }
      FieldLess(Minute(a), Minute(b), 2, ":" + sa, ":" + sb);
      LessAfterPrefix(":", ma, mb);
    }
    FieldLess(Hour(a), Hour(b), 2, ":" + ma, ":" + mb);
  }

  lemma DateTextOrder(a: Date, b: Date, u: string, v: string)
    requires ValidDate(a) && ValidDate(b) && b.year <= 9999
    requires DateLess(a, b) || (a == b && Less(u, v))
    ensures Less(DateText(a, u), DateText(b, v))
  {
    Powers();
    var da, db := Padded(a.day, 2) + ("T" + u), Padded(b.day, 2) + ("T" + v);
    var ma, mb := Padded(a.month, 2) + ("-" + da), Padded(b.month, 2) + ("-" + db);
    if a.year == b.year {
      if a.month == b.month {
        LessAfterPrefix("T", u, v);
        FieldLess(a.day, b.day, 2, "T" + u, "T" + v);
        LessAfterPrefix("-", da, db);
      }
      FieldLess(a.month, b.month, 2, "-" + da, "-" + db);
      LessAfterPrefix("-", ma, mb);
    }
    FieldLess(a.year, b.year, 4, "-" + ma, "-" + mb);
  }

  /** The first second of the year 10000. */
  const END_OF_9999: nat := 253402300800

  /** The seconds before it are exactly those of four-digit years. */
  lemma FourDigitYears(secs: nat)
    ensures secs < END_OF_9999 <==> DateOf(secs / 86400).year <= 9999
  {
    var days := secs / 86400;
    var d := DateOf(days);
    assert YearStart(10000) * 86400 == END_OF_9999;
    WithinYear(d);
    if d.year < 10000 { YearOrder(d.year, 10000); } else if d.year > 10000 { YearOrder(10000, d.year); }
    assert secs == 86400 * days + secs % 86400;
  }

  lemma StampLess(a: nat, b: nat)
    requires a < b < END_OF_9999
    ensures Less(Stamp(a), Stamp(b))
  {
    FourDigitYears(b);
    var da, db := DateOf(a / 86400), DateOf(b / 86400);
    DayNumberOrder(da, db);
    if a / 86400 == b / 86400 { ClockOrder(a, b); }
    DateTextOrder(da, db, ClockText(a), ClockText(b));
  }

  /** Up to the year 9999 the texts sort as the seconds do. */
  lemma StampOrder(a: nat, b: nat)
    requires a < END_OF_9999 && b < END_OF_9999
    ensures Less(Stamp(a), Stamp(b)) <==> a < b
  {
    if a < b { StampLess(a, b); }
    if b < a { StampLess(b, a); }
    OrderFollows(Stamp(a), Stamp(b), a, b);
  }

  lemma OrderFollows(x: string, y: string, a: nat, b: nat)
    requires (a < b ==> Less(x, y)) && (b < a ==> Less(y, x)) && (a == b ==> x == y)
    ensures Less(x, y) <==> a < b
  {
    LessIrreflexive(x);
    if b < a { LessAsymmetric(y, x); }
  }

  // --------------------------------------------------------- the text reads back

  function Field(text: string, from: nat, width: nat): nat
    requires from + width <= |text|
  {
    Decode(DIGITS, text[from..from + width])
  }

  /** The separators of section 5.6 of RFC 3339 between the fields, and the mark of UTC. */
  predicate Punctuated(text: string) {
    && |text| == 20 && text[4] == '-' && text[7] == '-' && text[10] == 'T' && text[13] == ':' && text[16] == ':'
    && text[19] == 'Z'
  }

  /** Read a twenty-character stamp by position. */
  ghost function ReadStamp(text: string): Reading
  {
    if !Punctuated(text) then Bad
    else
      var d := Date(Field(text, 0, 4), Field(text, 5, 2), Field(text, 8, 2));
      if ValidDate(d) then
        Seconds(86400 * DayNumber(d) + (3600 * Field(text, 11, 2) + (60 * Field(text, 14, 2) + Field(text, 17, 2))))
      else Bad
  }

  datatype Reading = Bad | Seconds(secs: int)

  lemma PaddedReadsBack(n: nat, width: nat)
    requires n < Power(10, width)
    ensures Decode(DIGITS, Padded(n, width)) == n
  {
    DigitsAreAlphabet();
    ReadBack(DIGITS, n, width);
  }

  /** The year reads back whatever its length. */
  lemma YearReadsBack(y: nat)
    ensures |YearText(y)| >= 4 && Decode(DIGITS, YearText(y)) == y
  {
    Powers();
    if y < 10000 {
      PaddedReadsBack(y, 4);
    } else {
      DecimalReadsBack(y);
      assert |Decimal(y / 10)| >= 1;
      var a, b := y / 10, y / 100;
      assert a >= 10 && b >= 10 && a / 10 == b && |Decimal(b)| == |Decimal(b / 10)| + 1;
      assert |Decimal(a)| == |Decimal(b)| + 1;
    }
  }

  lemma StampParts(d: Date, secs: nat)
    requires d.year <= 9999
    ensures var t := DateText(d, ClockText(secs));
            && Punctuated(t)
            && t[0..4] == Padded(d.year, 4) && t[5..7] == Padded(d.month, 2) && t[8..10] == Padded(d.day, 2)
            && t[11..13] == Padded(Hour(secs), 2) && t[14..16] == Padded(Minute(secs), 2)
            && t[17..19] == Padded(Second(secs), 2)
  {
    Slices(Padded(d.year, 4), Padded(d.month, 2), Padded(d.day, 2),
           Padded(Hour(secs), 2), Padded(Minute(secs), 2), Padded(Second(secs), 2));
  }

  lemma Slices(y: string, m: string, d: string, h: string, n: string, s: string)
    requires |y| == 4 && |m| == |d| == |h| == |n| == |s| == 2
    ensures var t := y + ("-" + (m + ("-" + (d + ("T" + (h + (":" + (n + (":" + (s + "Z"))))))))));
            && Punctuated(t) && t[0..4] == y && t[5..7] == m && t[8..10] == d
            && t[11..13] == h && t[14..16] == n && t[17..19] == s
  {
    var clock := h + (":" + (n + (":" + (s + "Z"))));
    var r2 := d + ("T" + clock);
    var r1 := m + ("-" + r2);
    var t := y + ("-" + r1);
    Peel(y, "-", r1, t, 0);
    Peel(m, "-", r2, t, 5);
    Peel(d, "T", clock, t, 8);
    ClockSlices(h, n, s, t, 11);
  }

  lemma ClockSlices(h: string, n: string, s: string, t: string, at: nat)
    requires |h| == |n| == |s| == 2 && at <= |t| && t[at..] == h + (":" + (n + (":" + (s + "Z"))))
    ensures |t| == at + 9 && t[at + 2] == ':' && t[at + 5] == ':' && t[at + 8] == 'Z'
    ensures t[at..at + 2] == h && t[at + 3..at + 5] == n && t[at + 6..at + 8] == s
  {
    Peel(h, ":", n + (":" + (s + "Z")), t, at);
    Peel(n, ":", s + "Z", t, at + 3);
    assert t[at + 6..] == s + ("Z" + "");
    Peel(s, "Z", "", t, at + 6);
  }

  /** A field, a separator and the rest, found at a position of a text. */
  lemma Peel(field: string, mark: string, rest: string, t: string, at: nat)
    requires |mark| == 1 && at <= |t| && t[at..] == field + (mark + rest)
    ensures at + |field| + 1 <= |t| && t[at..at + |field|] == field && t[at + |field| + 1..] == rest
    ensures t[at + |field|] == mark[0]
  {
    var tail := t[at..];
    assert |tail| == |field| + 1 + |rest|;
    assert t[at..at + |field|] == tail[..|field|];
    assert t[at + |field| + 1..] == tail[|field| + 1..];
    assert t[at + |field|] == tail[|field|];
  }

  lemma DateFieldsReadBack(d: Date, secs: nat)
    requires ValidDate(d) && d.year <= 9999
    ensures var t := DateText(d, ClockText(secs));
            Punctuated(t) && Field(t, 0, 4) == d.year && Field(t, 5, 2) == d.month && Field(t, 8, 2) == d.day
  {
    StampParts(d, secs);
    Powers();
    PaddedReadsBack(d.year, 4);
    PaddedReadsBack(d.month, 2);
    PaddedReadsBack(d.day, 2);
  }

  lemma ClockFieldsReadBack(d: Date, secs: nat)
    requires d.year <= 9999
    ensures var t := DateText(d, ClockText(secs));
            && Punctuated(t) && Field(t, 11, 2) == Hour(secs)
            && Field(t, 14, 2) == Minute(secs) && Field(t, 17, 2) == Second(secs)
  {
    StampParts(d, secs);
    ClockFields(secs);
    Powers();
    PaddedReadsBack(Hour(secs), 2);
    PaddedReadsBack(Minute(secs), 2);
    PaddedReadsBack(Second(secs), 2);
  }

  /** Up to the year 9999 reading the text gives back the seconds. */
  lemma StampReadsBack(secs: nat)
    requires secs < END_OF_9999
    ensures ReadStamp(Stamp(secs)) == Seconds(secs)
  {
    FourDigitYears(secs);
    var d := DateOf(secs / 86400);
    DateFieldsReadBack(d, secs);
    ClockFieldsReadBack(d, secs);
    ClockFields(secs);
  }
}
