/**
 `unix_to_iso8601` (src/alerts.rs): Unix seconds to a UTC timestamp, by walking years and
 months. Its inverse is a closed form over the Gregorian calendar that walks nothing.
 */
module Calendar {
  import opened Basics
  import opened Decimal

  datatype Stamp = Stamp(year: nat, month: nat, day: nat, hour: nat, minute: nat, second: nat)

  predicate IsLeap(y: nat) {
    (y % 4 == 0 && y % 100 != 0) || y % 400 == 0
  }

  function YearLength(y: nat): nat {
    if IsLeap(y) then 366 else 365
  }

  function MonthDays(y: nat): (days: seq<nat>)
    ensures |days| == 12
  {
    [31, if IsLeap(y) then 29 else 28, 31, 30, 31, 30, 31, 31, 30, 31, 30, 31]
  }

  predicate ValidStamp(t: Stamp) {
    && 1 <= t.year && 1 <= t.month <= 12 && 1 <= t.day <= MonthDays(t.year)[t.month - 1]
    && t.hour < 24 && t.minute < 60 && t.second < 60
  }

  // ----- the closed form -----

  /** How many of the first `past` years are leap. */
  function LeapDays(past: nat): int {
    past / 4 - past / 100 + past / 400
  }

  /** Days from the start of the Gregorian calendar to a date in it, counting it. */
  function DayNumber(y: nat, m: nat, d: nat): int
    requires 1 <= y && 1 <= m <= 12
  {
    365 * (y - 1) + LeapDays(y - 1)
    + (367 * m - 362) / 12 + (if m <= 2 then 0 else if IsLeap(y) then -1 else -2) + d
  }

  const EPOCH_DAY := DayNumber(1970, 1, 1)

  function SecondsOf(t: Stamp): int
    requires ValidStamp(t)
  {
    (DayNumber(t.year, t.month, t.day) - EPOCH_DAY) * 86400 + t.hour * 3600 + t.minute * 60 + t.second
  }

  /** How `y / n` moves in one year, for the leap rule's three periods. */
  lemma QuotientStep(y: nat, n: nat)
    requires 1 <= y && n in {4, 100, 400}
    ensures y / n == (y - 1) / n + if y % n == 0 then 1 else 0
  {
    if n == 4 {
      assert y == 4 * (y / 4) + y % 4;
    } else if n == 100 {
      assert y == 100 * (y / 100) + y % 100;
    } else {
      assert y == 400 * (y / 400) + y % 400;
    }
  }

  lemma MultipleOf4(k: nat)
    ensures 4 * k % 4 == 0
  {
  }

  lemma MultipleOf100(k: nat)
    ensures 100 * k % 100 == 0
  {
  }

  lemma LeapByRemainders(y: nat)
    ensures y % 400 == 0 ==> y % 100 == 0
    ensures y % 100 == 0 ==> y % 4 == 0
  {
    if y % 400 == 0 {
      MultipleOf100(4 * (y / 400));
    }
    if y % 100 == 0 {
      MultipleOf4(25 * (y / 100));
    }
  }

  lemma LeapStep(y: nat)
    requires 1 <= y
    ensures LeapDays(y) == LeapDays(y - 1) + if IsLeap(y) then 1 else 0
  {
    QuotientStep(y, 4);
    QuotientStep(y, 100);
    QuotientStep(y, 400);
    LeapByRemainders(y);
  }

  lemma YearStep(y: nat)
    requires 1 <= y
    ensures DayNumber(y + 1, 1, 1) == DayNumber(y, 1, 1) + YearLength(y)
  {
    LeapStep(y);
  }

  /** The first day of month `m`, or of the next year when `m` is 13. */
  function MonthStart(y: nat, m: nat): int
    requires 1 <= y && 1 <= m <= 13
  {
    if m == 13 then DayNumber(y + 1, 1, 1) else DayNumber(y, m, 1)
  }

  lemma MonthOffsets(m: nat)
    requires 1 <= m <= 11
    ensures (367 * (m + 1) - 362) / 12 == (367 * m - 362) / 12 + if m in {2, 4, 6, 9, 11} then 30 else 31
  {
    if m <= 6 {
      assert m == 1 || m == 2 || m == 3 || m == 4 || m == 5 || m == 6;
    } else {
      assert m == 7 || m == 8 || m == 9 || m == 10 || m == 11;
    }
  }

  lemma MonthStep(y: nat, m: nat)
    requires 1 <= y && 1 <= m <= 12
    ensures MonthStart(y, m + 1) == MonthStart(y, m) + MonthDays(y)[m - 1]
  {
    if m == 12 {
      YearStep(y);
    } else {
      MonthOffsets(m);
    }
  }

  lemma {:induction false} MonthsAscend(y: nat, m: nat, n: nat)
    requires 1 <= y && 1 <= m <= n <= 13
    ensures MonthStart(y, m) + 28 * (n - m) <= MonthStart(y, n)
    decreases n - m
  {
    if m < n {
      MonthStep(y, m);
      MonthsAscend(y, m + 1, n);
    }
  }

  lemma {:induction false} YearsAscend(y: nat, z: nat)
    requires 1 <= y <= z
    ensures DayNumber(y, 1, 1) + 365 * (z - y) <= DayNumber(z, 1, 1)
    decreases z - y
  {
    if y < z {
      YearStep(y);
      YearsAscend(y + 1, z);
    }
  }

  // ----- the agent's walk -----

  method YearOf(days: nat) returns (y: nat, d: nat)
    ensures 1970 <= y && d < YearLength(y)
    ensures DayNumber(y, 1, 1) + d == EPOCH_DAY + days
  {
    y, d := 1970, days;
    while d >= YearLength(y)
      invariant 1970 <= y
      invariant DayNumber(y, 1, 1) + d == EPOCH_DAY + days
      decreases d
    {
      YearStep(y);
      d := d - YearLength(y);
      y := y + 1;
    }
  }

  method MonthOf(y: nat, dayOfYear: nat) returns (m: nat, d: nat)
    requires 1 <= y && dayOfYear < YearLength(y)
    ensures 1 <= m <= 12 && d < MonthDays(y)[m - 1]
    ensures DayNumber(y, m, 1) + d == DayNumber(y, 1, 1) + dayOfYear
  {
    YearStep(y);
    m, d := 1, dayOfYear;
    var monthDays := MonthDays(y);
    for k := 0 to 12
      invariant m == k + 1
      invariant MonthStart(y, m) + d == DayNumber(y, 1, 1) + dayOfYear
    {
      if d < monthDays[k] {
        return;
      }
      MonthStep(y, m);
      d := d - monthDays[k];
      m := m + 1;
    }
    assert false;
  }

  lemma DayOfMonth(y: nat, m: nat, d: nat)
    requires 1 <= y && 1 <= m <= 12
    ensures DayNumber(y, m, d + 1) == DayNumber(y, m, 1) + d
  {
  }

  lemma TimeFields(timeOfDay: nat)
    requires timeOfDay < 86400
    ensures timeOfDay / 3600 < 24
    ensures timeOfDay / 3600 * 3600 + timeOfDay % 3600 / 60 * 60 + timeOfDay % 60 == timeOfDay
  {
  }

  method UnixToStamp(secs: nat) returns (t: Stamp)
    ensures ValidStamp(t) && 1970 <= t.year
    ensures SecondsOf(t) == secs
  {
    var days, timeOfDay := secs / 86400, secs % 86400;
    var y, dayOfYear := YearOf(days);
    var m, d := MonthOf(y, dayOfYear);
    DayOfMonth(y, m, d);
    TimeFields(timeOfDay);
    t := Stamp(y, m, d + 1, timeOfDay / 3600, timeOfDay % 3600 / 60, timeOfDay % 60);
  }

  // ----- order -----

  predicate DateBefore(a: Stamp, b: Stamp) {
    a.year < b.year || (a.year == b.year && (a.month < b.month || (a.month == b.month && a.day < b.day)))
  }

  predicate TimeBefore(a: Stamp, b: Stamp) {
    a.hour < b.hour || (a.hour == b.hour && (a.minute < b.minute || (a.minute == b.minute && a.second < b.second)))
  }

  predicate SameDate(a: Stamp, b: Stamp) {
    a.year == b.year && a.month == b.month && a.day == b.day
  }

  /** Field by field, year first. */
  predicate Before(a: Stamp, b: Stamp) {
    DateBefore(a, b) || (SameDate(a, b) && TimeBefore(a, b))
  }

  lemma WithinItsMonth(t: Stamp)
    requires ValidStamp(t)
    ensures MonthStart(t.year, t.month) <= DayNumber(t.year, t.month, t.day) < MonthStart(t.year, t.month + 1)
  {
    MonthStep(t.year, t.month);
  }

  lemma WithinItsYear(t: Stamp)
    requires ValidStamp(t)
    ensures DayNumber(t.year, 1, 1) <= DayNumber(t.year, t.month, t.day) < DayNumber(t.year + 1, 1, 1)
  {
    WithinItsMonth(t);
    MonthsAscend(t.year, 1, t.month);
    MonthsAscend(t.year, t.month + 1, 13);
  }

  lemma YearDecides(a: Stamp, b: Stamp)
    requires ValidStamp(a) && ValidStamp(b) && a.year < b.year
    ensures DayNumber(a.year, a.month, a.day) < DayNumber(b.year, b.month, b.day)
  {
    WithinItsYear(a);
    YearsAscend(a.year + 1, b.year);
    WithinItsYear(b);
  }

  lemma MonthDecides(a: Stamp, b: Stamp)
    requires ValidStamp(a) && ValidStamp(b) && a.year == b.year && a.month < b.month
    ensures DayNumber(a.year, a.month, a.day) < DayNumber(b.year, b.month, b.day)
  {
    WithinItsMonth(a);
    MonthsAscend(a.year, a.month + 1, b.month);
    WithinItsMonth(b);
  }

  lemma DatesAscend(a: Stamp, b: Stamp)
    requires ValidStamp(a) && ValidStamp(b) && DateBefore(a, b)
    ensures DayNumber(a.year, a.month, a.day) < DayNumber(b.year, b.month, b.day)
  {
    if a.year < b.year {
      YearDecides(a, b);
    } else if a.month < b.month {
      MonthDecides(a, b);
    }
  }

  /** Valid timestamps are ordered as the seconds they stand for: none is skipped or shared. */
  lemma SecondsOrderStamps(a: Stamp, b: Stamp)
    requires ValidStamp(a) && ValidStamp(b)
    ensures Before(a, b) <==> SecondsOf(a) < SecondsOf(b)
    ensures a == b <==> SecondsOf(a) == SecondsOf(b)
  {
    if DateBefore(a, b) {
      DatesAscend(a, b);
    } else if DateBefore(b, a) {
      DatesAscend(b, a);
    }
  }

  // ----- the text -----

  function Format(t: Stamp): string {
    "" + Padded(4, t.year) + FromMonth(t)
  }

  function FromMonth(t: Stamp): string {
    "-" + Padded(2, t.month) + FromDay(t)
  }

  function FromDay(t: Stamp): string {
    "-" + Padded(2, t.day) + FromHour(t)
  }

  function FromHour(t: Stamp): string {
    "T" + Padded(2, t.hour) + FromMinute(t)
  }

  function FromMinute(t: Stamp): string {
    ":" + Padded(2, t.minute) + FromSecond(t)
  }

  function FromSecond(t: Stamp): string {
    ":" + Padded(2, t.second) + "Z"
  }

  /** Reads a separator and two digits off the front of `s`. */
  function ReadField(separator: char, s: string): Option<(nat, string)> {
    if |s| >= 3 && s[0] == separator && AllDigits(s[1..3]) then Some((Value(s[1..3]), s[3..])) else None
  }

  /** Reads a timestamp back: a year, then two digits for each other field, then `Z`. */
  function Parse(s: string): Option<Stamp> {
    if |s| < 20 || !AllDigits(s[..|s| - 16]) then None
    else
      match ReadField('-', s[|s| - 16..]) case None => None case Some((month, s1)) =>
      match ReadField('-', s1) case None => None case Some((day, s2)) =>
      match ReadField('T', s2) case None => None case Some((hour, s3)) =>
      match ReadField(':', s3) case None => None case Some((minute, s4)) =>
      match ReadField(':', s4) case None => None case Some((second, s5)) =>
      if s5 == "Z" then Some(Stamp(Value(s[..|s| - 16]), month, day, hour, minute, second)) else None
  }

  lemma FieldRoundTrip(separator: char, n: nat, after: string)
    requires n < 100
    ensures var s := [separator] + Padded(2, n) + after;
      ReadField(separator, s) == Some((n, after)) && |s| == 3 + |after|
  {
    assert Pow10(1) == 10 && Pow10(2) == 100;
    PaddedRoundTrip(2, n);
    var s := [separator] + Padded(2, n) + after;
    assert s[1..3] == Padded(2, n) && s[3..] == after;
  }

  lemma TextRoundTrip(t: Stamp)
    requires ValidStamp(t)
    ensures Parse(Format(t)) == Some(t)
  {
    FieldRoundTrip(':', t.second, "Z");
    FieldRoundTrip(':', t.minute, FromSecond(t));
    FieldRoundTrip('T', t.hour, FromMinute(t));
    FieldRoundTrip('-', t.day, FromHour(t));
    FieldRoundTrip('-', t.month, FromDay(t));
    PaddedRoundTrip(4, t.year);
    var s := Format(t);
    assert s[..|s| - 16] == Padded(4, t.year) && s[|s| - 16..] == FromMonth(t);
  }

  method UnixToIso8601(secs: nat) returns (s: string)
    ensures Parse(s).Some? && ValidStamp(Parse(s).value) && SecondsOf(Parse(s).value) == secs
    ensures s == Format(Parse(s).value)
  {
    var t := UnixToStamp(secs);
    s := Format(t);
    TextRoundTrip(t);
  }

  lemma PaddedOrder(width: nat, m: nat, n: nat)
    requires m < n < Pow10(width) && 0 < width
    ensures LexLess(Padded(width, m), Padded(width, n))
  {
    PaddedRoundTrip(width, m);
    PaddedRoundTrip(width, n);
    ValueOrdersDigits(Padded(width, m), Padded(width, n));
  }

  /** One field and what follows it: the field decides, unless it is the same. */
  lemma FieldOrder(separator: string, width: nat, m: nat, n: nat, after: string, after': string)
    requires 0 < width && m <= n < Pow10(width)
    requires m < n || LexLess(after, after')
    ensures LexLess(separator + Padded(width, m) + after, separator + Padded(width, n) + after')
  {
    if m < n {
      PaddedOrder(width, m, n);
      LexLessInContext(separator, Padded(width, m), Padded(width, n), after, after');
    } else {
      var prefix := separator + Padded(width, m);
      LexLessInContext(prefix, after, after', "", "");
      assert prefix + after + "" == prefix + after && prefix + after' + "" == prefix + after';
    }
  }

  lemma TimeTextOrder(a: Stamp, b: Stamp)
    requires ValidStamp(a) && ValidStamp(b) && TimeBefore(a, b)
    ensures LexLess(FromHour(a), FromHour(b))
  {
    assert Pow10(1) == 10 && Pow10(2) == 100;
    if a.hour == b.hour {
      if a.minute == b.minute {
        FieldOrder(":", 2, a.second, b.second, "Z", "Z");
      }
      FieldOrder(":", 2, a.minute, b.minute, FromSecond(a), FromSecond(b));
    }
    FieldOrder("T", 2, a.hour, b.hour, FromMinute(a), FromMinute(b));
  }

  lemma MonthTextOrder(a: Stamp, b: Stamp)
    requires ValidStamp(a) && ValidStamp(b) && a.year == b.year && Before(a, b)
    ensures LexLess(FromMonth(a), FromMonth(b))
  {
    assert Pow10(1) == 10 && Pow10(2) == 100;
    if a.month == b.month {
      if a.day == b.day {
        TimeTextOrder(a, b);
      }
      FieldOrder("-", 2, a.day, b.day, FromHour(a), FromHour(b));
    }
    FieldOrder("-", 2, a.month, b.month, FromDay(a), FromDay(b));
  }

  /** Up to the year 9999, later seconds have the later text. */
  lemma TextOrdersSeconds(a: Stamp, b: Stamp)
    requires ValidStamp(a) && ValidStamp(b) && b.year <= 9999 && SecondsOf(a) < SecondsOf(b)
    ensures LexLess(Format(a), Format(b))
  {
    SecondsOrderStamps(a, b);
    if a.year == b.year {
      MonthTextOrder(a, b);
    }
    assert Pow10(4) == 10000 by { assert Pow10(2) == 100; }
    FieldOrder("", 4, a.year, b.year, FromMonth(a), FromMonth(b));
  }

  lemma PaddedAround9999()
    ensures Padded(4, 9999) == "9999" && Padded(4, 10000) == "10000"
  {
    assert Digits(9) == "9" && Digits(99) == "99" && Digits(999) == "999";
    assert Digits(1) == "1" && Digits(10) == "10" && Digits(100) == "100" && Digits(1000) == "1000";
  }

  lemma FirstCharacterDecides(s: string, t: string)
    requires s != "" && t != "" && t[0] < s[0]
    ensures !LexLess(s, t)
  {
    forall k | 0 < k < |s| && k < |t| ensures s[..k] != t[..k] {
      assert s[..k][0] == s[0] && t[..k][0] == t[0];
    }
  }

  lemma FormatStartsWithYear(t: Stamp)
    ensures Padded(4, t.year) != "" && Format(t) != "" && Format(t)[0] == Padded(4, t.year)[0]
  {
    PaddedRoundTrip(4, t.year);
  }

  const END_OF_9999 := Stamp(9999, 12, 31, 23, 59, 59)
  const START_OF_10000 := Stamp(10000, 1, 1, 0, 0, 0)

  lemma OneSecondApart()
    ensures ValidStamp(END_OF_9999) && ValidStamp(START_OF_10000) && SecondsOf(START_OF_10000) == SecondsOf(END_OF_9999) + 1
  {
  }

  /** Past it, the text no longer sorts: the last second of 9999 is followed by a year of five digits. */
  lemma TextStopsSortingAfter9999()
    ensures ValidStamp(END_OF_9999) && ValidStamp(START_OF_10000)
    ensures SecondsOf(START_OF_10000) == SecondsOf(END_OF_9999) + 1
    ensures !LexLess(Format(END_OF_9999), Format(START_OF_10000))
  {
    OneSecondApart();
    PaddedAround9999();
    FormatStartsWithYear(END_OF_9999);
    FormatStartsWithYear(START_OF_10000);
    FirstCharacterDecides(Format(END_OF_9999), Format(START_OF_10000));
  }
}
