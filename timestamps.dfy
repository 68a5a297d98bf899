/** java.time.Instant and the "yyyy-MM-dd'T'HH:mm:ss.SSS'Z'" rendering (UTC,
    proleptic Gregorian calendar) that EsDocumentDto.eventTimestamp uses. */
module Timestamps {
  import opened Wrappers

  type Nano = n: int | 0 <= n < 1_000_000_000

  /** An Instant: seconds from 1970-01-01T00:00:00Z plus a nanosecond part. */
  datatype Instant = Instant(epochSecond: int, nano: Nano)

  /** The calendar fields of an instant in UTC, to the millisecond. */
  datatype DateTime = DateTime(year: int, month: int, day: int,
                               hour: int, minute: int, second: int, milli: int)

  predicate IsLeap(y: int) {
    y % 4 == 0 && (y % 100 != 0 || y % 400 == 0)
  }

  function DaysInYear(y: int): int {
    if IsLeap(y) then 366 else 365
  }

  function DaysInMonth(y: int, m: int): int
    requires 1 <= m <= 12
  {
    if m == 2 then (if IsLeap(y) then 29 else 28)
    else if m == 4 || m == 6 || m == 9 || m == 11 then 30
    else 31
  }

  /** Days in the months of year y before month m. */
  function DaysBeforeMonth(y: int, m: int): (r: int)
    requires 1 <= m <= 13
    ensures r >= 0
  {
    if m == 1 then 0 else DaysBeforeMonth(y, m - 1) + DaysInMonth(y, m - 1)
  }

  /** The month lengths add up to the year length. */
  lemma MonthsMakeYear(y: int)
    ensures DaysBeforeMonth(y, 13) == DaysInYear(y)
  {
    var leap := if IsLeap(y) then 1 else 0;
    assert DaysBeforeMonth(y, 2) == 31;
    assert DaysBeforeMonth(y, 3) == 59 + leap;
    assert DaysBeforeMonth(y, 4) == 90 + leap;
    assert DaysBeforeMonth(y, 5) == 120 + leap;
    assert DaysBeforeMonth(y, 6) == 151 + leap;
    assert DaysBeforeMonth(y, 7) == 181 + leap;
    assert DaysBeforeMonth(y, 8) == 212 + leap;
    assert DaysBeforeMonth(y, 9) == 243 + leap;
    assert DaysBeforeMonth(y, 10) == 273 + leap;
    assert DaysBeforeMonth(y, 11) == 304 + leap;
    assert DaysBeforeMonth(y, 12) == 334 + leap;
  }

  lemma {:induction false} DaysBeforeMonthMonotone(y: int, m: int)
    requires 1 <= m <= 13
    ensures DaysBeforeMonth(y, m) <= DaysBeforeMonth(y, 13) == DaysInYear(y)
    decreases 13 - m
  {
    MonthsMakeYear(y);
    if m < 13 {
      DaysBeforeMonthMonotone(y, m + 1);
    }
  }

  /** Days from 1970-01-01 to January 1st of year y. */
  function DaysBeforeYear(y: int): int
    decreases if y >= 1970 then y - 1970 else 1970 - y
  {
    if y == 1970 then 0
    else if y > 1970 then DaysBeforeYear(y - 1) + DaysInYear(y - 1)
    else DaysBeforeYear(y + 1) - DaysInYear(y)
  }

  lemma DaysBeforeNextYear(y: int)
    ensures DaysBeforeYear(y + 1) == DaysBeforeYear(y) + DaysInYear(y)
  {
  }

  /** The year holding day d of year y, counted forwards or backwards, and the
      day's index within it. */
  function YearWalk(y: int, d: int): (r: (int, int))
    ensures 0 <= r.1 < DaysInYear(r.0)
    decreases if d < 0 then 1 else 0, if d < 0 then -d else d
  {
    if d < 0 then YearWalk(y - 1, d + DaysInYear(y - 1))
    else if d < DaysInYear(y) then (y, d)
    else YearWalk(y + 1, d - DaysInYear(y))
  }

  lemma {:induction false} YearWalkSound(y: int, d: int)
    ensures DaysBeforeYear(YearWalk(y, d).0) + YearWalk(y, d).1 == DaysBeforeYear(y) + d
    decreases if d < 0 then 1 else 0, if d < 0 then -d else d
  {
    if d < 0 {
      YearWalkSound(y - 1, d + DaysInYear(y - 1));
      DaysBeforeNextYear(y - 1);
    } else if d >= DaysInYear(y) {
      YearWalkSound(y + 1, d - DaysInYear(y));
      DaysBeforeNextYear(y);
    }
  }

  /** The month holding day-of-year doy (0-based), searching down from m. */
  function MonthOf(y: int, doy: int, m: int): (r: int)
    requires 1 <= m <= 12 && 0 <= doy < DaysBeforeMonth(y, m + 1)
    ensures 1 <= r <= m
    ensures DaysBeforeMonth(y, r) <= doy < DaysBeforeMonth(y, r + 1)
  {
    if m == 1 || doy >= DaysBeforeMonth(y, m) then m else MonthOf(y, doy, m - 1)
  }

  /** The UTC calendar fields of an instant; the millisecond is the nanosecond
      part truncated, as the SSS field does. */
  function ToDateTime(i: Instant): (dt: DateTime)
    ensures 1 <= dt.month <= 12 && 1 <= dt.day <= DaysInMonth(dt.year, dt.month)
    ensures 0 <= dt.hour < 24 && 0 <= dt.minute < 60 && 0 <= dt.second < 60 && 0 <= dt.milli < 1000
  {
    var days := i.epochSecond / 86400;
    var secs := i.epochSecond % 86400;
    var yd := YearWalk(1970, days);
    DaysBeforeMonthMonotone(yd.0, 13);
    var m := MonthOf(yd.0, yd.1, 12);
    DateTime(yd.0, m, yd.1 - DaysBeforeMonth(yd.0, m) + 1,
             secs / 3600, (secs / 60) % 60, secs % 60, i.nano / 1_000_000)
  }

  /** Milliseconds since the epoch that the calendar fields denote. */
  function EpochMilli(dt: DateTime): int
    requires 1 <= dt.month <= 12
  {
    var days := DaysBeforeYear(dt.year) + DaysBeforeMonth(dt.year, dt.month) + dt.day - 1;
    ((days * 86400 + dt.hour * 3600 + dt.minute * 60 + dt.second) * 1000) + dt.milli
  }

  /** Instant.truncatedTo(MILLIS). */
  function TruncateToMillis(i: Instant): Instant {
    Instant(i.epochSecond, (i.nano / 1_000_000) * 1_000_000)
  }

  /** Instant.ofEpochMilli. */
  function OfEpochMilli(ms: int): Instant {
    Instant(ms / 1000, (ms % 1000) * 1_000_000)
  }

  /** The calendar fields denote the instant, truncated to the millisecond. */
  lemma ToDateTimeSound(i: Instant)
    ensures EpochMilli(ToDateTime(i)) == i.epochSecond * 1000 + i.nano / 1_000_000
    ensures OfEpochMilli(EpochMilli(ToDateTime(i))) == TruncateToMillis(i)
  {
    var days := i.epochSecond / 86400;
    var secs := i.epochSecond % 86400;
    YearWalkSound(1970, days);
    var dt := ToDateTime(i);
    assert secs / 3600 * 3600 + (secs / 60) % 60 * 60 + secs % 60 == secs;
    assert days * 86400 + secs == i.epochSecond;
    var ms := i.epochSecond * 1000 + i.nano / 1_000_000;
    assert ms / 1000 == i.epochSecond && ms % 1000 == i.nano / 1_000_000;
  }

  function Digit(n: int): char
    requires 0 <= n < 10
  {
    ('0' as int + n) as char
  }

  predicate IsDigit(c: char) {
    '0' <= c <= '9'
  }

  function Pow10(w: nat): nat {
    if w == 0 then 1 else 10 * Pow10(w - 1)
  }

  /** The last w decimal digits of n, zero-padded: a fixed-width field. */
  function FixedDigits(n: nat, w: nat): (s: string)
    ensures |s| == w
    ensures AllDigits(s)
  {
    if w == 0 then "" else FixedDigits(n / 10, w - 1) + [Digit(n % 10)]
  }

  /** All decimal digits of n, without leading zeros. */
  function DecimalDigits(n: nat): (s: string)
    ensures |s| >= 1
  {
    if n < 10 then [Digit(n)] else DecimalDigits(n / 10) + [Digit(n % 10)]
  }

  function DigitValue(c: char): (n: int)
    requires IsDigit(c)
    ensures 0 <= n < 10
  {
    c as int - '0' as int
  }

  predicate AllDigits(s: string) {
    forall k :: 0 <= k < |s| ==> IsDigit(s[k])
  }

  /** The number a run of decimal digits denotes. */
  function DecimalValue(s: string): (n: int)
    requires AllDigits(s)
    ensures n >= 0
  {
    if s == [] then 0 else 10 * DecimalValue(s[..|s| - 1]) + DigitValue(s[|s| - 1])
  }

  lemma {:induction false} FixedDigitsValue(n: nat, w: nat)
    requires n < Pow10(w)
    ensures DecimalValue(FixedDigits(n, w)) == n
  {
    if w > 0 {
      FixedDigitsValue(n / 10, w - 1);
      var s := FixedDigits(n, w);
      assert s[..|s| - 1] == FixedDigits(n / 10, w - 1);
    }
  }

  /** The year-of-era as "yyyy" prints it: four digits, or all of them after a
      '+' when the value needs more than four. The era itself is not printed. */
  function YearText(year: int): string {
    var yoe := if year >= 1 then year else 1 - year;
    if yoe <= 9999 then FixedDigits(yoe, 4) else "+" + DecimalDigits(yoe)
  }

  /** Fields each followed by one literal character. */
  function Render(fields: seq<string>, seps: seq<char>): string
    requires |fields| == |seps|
  {
    if fields == [] then "" else fields[0] + [seps[0]] + Render(fields[1..], seps[1..])
  }

  /** Reads fields of the given widths, each followed by its literal. */
  function ParseFields(s: string, widths: seq<nat>, seps: seq<char>): Option<seq<nat>>
    requires |widths| == |seps|
  {
    if widths == [] then (if s == [] then Some([]) else None)
    else if |s| <= widths[0] || !AllDigits(s[..widths[0]]) || s[widths[0]] != seps[0] then None
    else
      match ParseFields(s[widths[0] + 1..], widths[1..], seps[1..])
      case None => None
      case Some(rest) => Some([DecimalValue(s[..widths[0]])] + rest)
  }

  function Values(fields: seq<string>): (r: seq<nat>)
    requires forall i :: 0 <= i < |fields| ==> AllDigits(fields[i])
    ensures |r| == |fields|
    ensures forall i :: 0 <= i < |fields| ==> r[i] == DecimalValue(fields[i])
  {
    if fields == [] then [] else [DecimalValue(fields[0])] + Values(fields[1..])
  }

  /** Rendering digit fields of the expected widths and reading them back gives
      their values. */
  lemma {:induction false} ParseRender(fields: seq<string>, widths: seq<nat>, seps: seq<char>)
    requires |fields| == |widths| == |seps|
    requires forall i :: 0 <= i < |fields| ==> |fields[i]| == widths[i] && AllDigits(fields[i])
    ensures ParseFields(Render(fields, seps), widths, seps) == Some(Values(fields))
  {
    if fields != [] {
      var s := Render(fields, seps);
      var rest := Render(fields[1..], seps[1..]);
      assert s == fields[0] + ([seps[0]] + rest);
      assert s[..widths[0]] == fields[0];
      assert s[widths[0] + 1..] == rest;
      ParseRender(fields[1..], widths[1..], seps[1..]);
    }
  }

  /** The literal after each field of "yyyy-MM-dd'T'HH:mm:ss.SSS'Z'". */
  const Separators: seq<char> := ['-', '-', 'T', ':', ':', '.', 'Z']

  /** The widths of the fields when the year has four digits. */
  const Widths: seq<nat> := [4, 2, 2, 2, 2, 2, 3]

  /** The seven rendered fields of "yyyy-MM-dd'T'HH:mm:ss.SSS'Z'". */
  function DateFields(dt: DateTime): (fields: seq<string>)
    requires 1 <= dt.month <= 12 && 1 <= dt.day <= 31
    requires 0 <= dt.hour < 24 && 0 <= dt.minute < 60 && 0 <= dt.second < 60 && 0 <= dt.milli < 1000
    ensures |fields| == 7
  {
    [YearText(dt.year), FixedDigits(dt.month, 2), FixedDigits(dt.day, 2), FixedDigits(dt.hour, 2),
     FixedDigits(dt.minute, 2), FixedDigits(dt.second, 2), FixedDigits(dt.milli, 3)]
  }

  /** The rendering of the calendar fields. */
  function FormatDateTime(dt: DateTime): string
    requires 1 <= dt.month <= 12 && 1 <= dt.day <= 31
    requires 0 <= dt.hour < 24 && 0 <= dt.minute < 60 && 0 <= dt.second < 60 && 0 <= dt.milli < 1000
  {
    Render(DateFields(dt), Separators)
  }

  /** Jackson's rendering of an Instant with the pattern above in UTC. */
  function Format(i: Instant): string {
    FormatDateTime(ToDateTime(i))
  }

  function FromValues(v: seq<int>): DateTime
    requires |v| == 7
  {
    DateTime(v[0], v[1], v[2], v[3], v[4], v[5], v[6])
  }

  /** Reads a rendering with a four-digit year back into calendar fields. */
  function ParseTimestamp(s: string): Option<DateTime> {
    match ParseFields(s, Widths, Separators)
    case Some(v) => if |v| == 7 then Some(FromValues(v)) else None
    case None => None
  }

  /** Calendar fields with a year from 1 to 9999 render as text that reads
      back as the same fields. */
  lemma FormatDateTimeRoundTrip(dt: DateTime)
    requires 1 <= dt.year <= 9999 && 1 <= dt.month <= 12 && 1 <= dt.day <= 31
    requires 0 <= dt.hour < 24 && 0 <= dt.minute < 60 && 0 <= dt.second < 60 && 0 <= dt.milli < 1000
    ensures ParseTimestamp(FormatDateTime(dt)) == Some(dt)
  {
    assert Pow10(2) == 100 && Pow10(3) == 1000 && Pow10(4) == 10000;
    var fields := DateFields(dt);
    FixedDigitsValue(dt.year, 4);
    FixedDigitsValue(dt.month, 2);
    FixedDigitsValue(dt.day, 2);
    FixedDigitsValue(dt.hour, 2);
    FixedDigitsValue(dt.minute, 2);
    FixedDigitsValue(dt.second, 2);
    FixedDigitsValue(dt.milli, 3);
    ParseRender(fields, Widths, Separators);
    var v := Values(fields);
    assert FromValues(v) == dt;
  }

  /** For years 1 to 9999 the rendering of an instant reads back as its
      calendar fields, which denote the instant truncated to the millisecond:
      two instants in that range render alike only when they agree to the
      millisecond. */
  lemma FormatRoundTrip(i: Instant)
    requires 1 <= ToDateTime(i).year <= 9999
    ensures ParseTimestamp(Format(i)) == Some(ToDateTime(i))
    ensures OfEpochMilli(EpochMilli(ToDateTime(i))) == TruncateToMillis(i)
  {
    FormatDateTimeRoundTrip(ToDateTime(i));
    ToDateTimeSound(i);
  }

  /** "yyyy" prints the year of the era without the era, so a year before 1 AD
      prints like its mirror image after it: the rendering is ambiguous there. */
  lemma YearOfEraAmbiguity(dt: DateTime)
    requires dt.year <= 0
    requires 1 <= dt.month <= 12 && 1 <= dt.day <= 31
    requires 0 <= dt.hour < 24 && 0 <= dt.minute < 60 && 0 <= dt.second < 60 && 0 <= dt.milli < 1000
    ensures FormatDateTime(dt) == FormatDateTime(dt.(year := 1 - dt.year))
    ensures dt != dt.(year := 1 - dt.year)
  {
  }
}
