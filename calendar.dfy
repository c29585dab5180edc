/**
 * Week keys of mood-entry timestamps (`getWeekKey`, `getWeekNumber`).
 *
 * A timestamp is a count of milliseconds since 1970-01-01T00:00Z and a day
 * is a count of whole days since that date, both in UTC. Years follow the
 * proleptic Gregorian calendar. The week number is the ISO 8601 one (the
 * week holding the year's first Thursday is week 1, weeks start on
 * Monday), but the key pairs it with the calendar year of the date itself,
 * so the last days of December can share a key with the first week of the
 * same calendar year.
 */
module Calendar {

  const MsPerDay: int := 86400000

  /** The UTC day a timestamp falls on (rounding down, also before 1970). */
  function DayOf(ms: int): (d: int)
    ensures d * 86400000 <= ms < d * 86400000 + 86400000
  {
    ms / MsPerDay
  }

  predicate IsLeapYear(y: int)
  {
    y % 4 == 0 && (y % 100 != 0 || y % 400 == 0)
  }

  /** How many leap years precede year `y`, counted from an arbitrary origin. */
  function LeapsBefore(y: int): int
  {
    (y - 1) / 4 - (y - 1) / 100 + (y - 1) / 400
  }

  /** `LeapsBefore(1970)`: 477 leap years of the proleptic calendar precede 1970. */
  const LeapsBeforeEpoch: int := 477

  /** The day number of January 1st of year `y` (`Date.UTC(y, 0, 1)` in days). */
  function YearStart(y: int): (s: int)
    ensures y == 1970 ==> s == 0
  {
    365 * (y - 1970) + LeapsBefore(y) - LeapsBeforeEpoch
  }

  lemma QuotientSteps(y: int)
    ensures y / 4 - (y - 1) / 4 == if y % 4 == 0 then 1 else 0
    ensures y / 100 - (y - 1) / 100 == if y % 100 == 0 then 1 else 0
    ensures y / 400 - (y - 1) / 400 == if y % 400 == 0 then 1 else 0
  {
  }

  /** A year has 366 days when it is a leap year and 365 otherwise. */
  lemma YearLength(y: int)
    ensures YearStart(y + 1) - YearStart(y) == if IsLeapYear(y) then 366 else 365
  {
    QuotientSteps(y);
  }

  lemma {:induction false} YearStartAbove(y: int)
    requires y >= 1970
    ensures YearStart(y) <= 366 * (y - 1970)
    decreases y - 1970
  {
    if y > 1970 {
      YearStartAbove(y - 1);
      YearLength(y - 1);
    }
  }

  lemma {:induction false} YearStartBelow(y: int)
    requires y <= 1970
    ensures YearStart(y) <= 365 * (y - 1970)
    decreases 1970 - y
  {
    if y < 1970 {
      YearStartBelow(y + 1);
      YearLength(y);
    }
  }

  /** Later years start later. */
  lemma {:induction false} YearStartIncreasing(y: int, z: int)
    requires y < z
    ensures YearStart(y) < YearStart(z)
    decreases z - y
  {
    YearLength(y);
    if y + 1 < z {
      YearStartIncreasing(y + 1, z);
    }
  }

  lemma YearStartMonotone(y: int, z: int)
    requires y <= z
    ensures YearStart(y) <= YearStart(z)
  {
    if y < z {
      YearStartIncreasing(y, z);
    }
  }

  /** The year holding day `d`, searched upwards from a year that starts no later. */
  function YearFrom(y: int, d: int): (r: int)
    requires YearStart(y) <= d
    ensures YearStart(r) <= d < YearStart(r + 1)
    decreases d - YearStart(y)
  {
    YearLength(y);
    if d < YearStart(y + 1) then y else YearFrom(y + 1, d)
  }

  /** A year that starts on or before day `d`. */
  function EarlyYear(d: int): (y: int)
    ensures YearStart(y) <= d
  {
    if d >= 0 then
      YearStartAbove(1970 + d / 366);
      1970 + d / 366
    else
      YearStartBelow(1970 + d / 365);
      1970 + d / 365
  }

  /** `getUTCFullYear`: the calendar year day `d` falls in. */
  function YearOf(d: int): (y: int)
    ensures YearStart(y) <= d < YearStart(y + 1)
  {
    YearFrom(EarlyYear(d), d)
  }

  /** Each day lies in exactly one year. */
  lemma YearOfUnique(d: int, y: int)
    requires YearStart(y) <= d < YearStart(y + 1)
    ensures YearOf(d) == y
  {
    YearsContainingDayAgree(YearOf(d), y, d);
  }

  lemma YearsContainingDayAgree(x: int, y: int, d: int)
    requires YearStart(x) <= d < YearStart(x + 1)
    requires YearStart(y) <= d < YearStart(y + 1)
    ensures x == y
  {
    if x < y {
      YearStartMonotone(x + 1, y);
    } else if y < x {
      YearStartMonotone(y + 1, x);
    }
  }

  /** `getUTCDay() || 7`: Monday is 1, Sunday is 7; day 0 was a Thursday. */
  function IsoWeekday(d: int): (w: int)
    ensures 1 <= w <= 7
  {
    var u := (d + 4) % 7;
    if u == 0 then 7 else u
  }

  /** The Thursday of the Monday-to-Sunday week holding `d` (the `setUTCDate` step). */
  function ThursdayOf(d: int): (t: int)
    ensures d - 3 <= t <= d + 3
    ensures IsoWeekday(t) == 4
  {
    d + 4 - IsoWeekday(d)
  }

  /** `Math.ceil(a / 7)` for an integer `a`. */
  function CeilWeeks(a: int): (q: int)
    ensures 7 * q - 7 < a <= 7 * q
  {
    (a + 6) / 7
  }

  /** Days from January 1st of the Thursday's year to that Thursday. */
  function DayInWeekYear(d: int): (k: int)
    ensures 0 <= k
  {
    ThursdayOf(d) - YearStart(YearOf(ThursdayOf(d)))
  }

  /** `getWeekNumber`: the ISO 8601 week number of day `d`. */
  function WeekNumber(d: int): int
  {
    CeilWeeks(DayInWeekYear(d) + 1)
  }

  /**
   * `getWeekNumber` step by step: the date's day, moved by `setUTCDate` to
   * the Thursday of its week, counted in weeks from January 1st of that
   * Thursday's year.
   */
  method GetWeekNumber(ms: int) returns (week: int)
    ensures week == WeekNumber(DayOf(ms))
    ensures 1 <= week <= 53
  {
    var d := DayOf(ms);
    var dayNum := IsoWeekday(d);
    WeekNumberRange(d);
    d := d + 4 - dayNum;
    var yearStart := YearStart(YearOf(d));
    week := CeilWeeks(d - yearStart + 1);
  }

  /** Week numbers run from 1 to 53. */
  lemma WeekNumberRange(d: int)
    ensures 1 <= WeekNumber(d) <= 53
  {
    var t := ThursdayOf(d);
    YearLength(YearOf(t));
  }

  /** Week 1 is the week whose Thursday is among the first seven days of its year. */
  lemma WeekOneHoldsFirstThursday(d: int)
    ensures WeekNumber(d) == 1 <==> DayInWeekYear(d) < 7
  {
  }

  /** Monday to Sunday share one week number. */
  lemma SameWeekSameNumber(d: int)
    requires IsoWeekday(d) != 7
    ensures IsoWeekday(d + 1) == IsoWeekday(d) + 1
    ensures ThursdayOf(d + 1) == ThursdayOf(d) && WeekNumber(d + 1) == WeekNumber(d)
  {
  }

  /** The weekday repeats every seven days. */
  lemma WeekdayPeriodic(d: int)
    ensures IsoWeekday(d + 7) == IsoWeekday(d)
  {
    var q, r := (d + 4) / 7, (d + 4) % 7;
    assert d + 11 == 7 * (q + 1) + r;
  }

  /** Seven days later is the next week number, unless the week year has ended. */
  lemma NextWeek(d: int)
    requires YearOf(ThursdayOf(d + 7)) == YearOf(ThursdayOf(d))
    ensures WeekNumber(d + 7) == WeekNumber(d) + 1
  {
    WeekdayPeriodic(d);
    assert ThursdayOf(d + 7) == ThursdayOf(d) + 7;
    assert DayInWeekYear(d + 7) == DayInWeekYear(d) + 7;
  }

  function DigitChar(n: int): char
    requires 0 <= n < 10
  {
    "0123456789"[n]
  }

  predicate IsDigits(s: string)
  {
    forall i :: 0 <= i < |s| ==> '0' <= s[i] <= '9'
  }

  /** The decimal digits of `n` (JavaScript's number-to-string for integers). */
  function NatToString(n: nat): (s: string)
    ensures s != [] && IsDigits(s)
  {
    if n < 10 then [DigitChar(n)] else NatToString(n / 10) + [DigitChar(n % 10)]
  }

  function IntToString(n: int): string
  {
    if n < 0 then "-" + NatToString(-n) else NatToString(n)
  }

  /** The value of a string of decimal digits. */
  function DigitsValue(s: string): int
  {
    if s == [] then 0 else 10 * DigitsValue(s[..|s| - 1]) + (s[|s| - 1] as int - '0' as int)
  }

  /** Reading the digits back gives the number: the decimal form names one number. */
  lemma {:induction false} NatToStringRoundTrip(n: nat)
    ensures DigitsValue(NatToString(n)) == n
  {
    if n >= 10 {
      NatToStringRoundTrip(n / 10);
      var s := NatToString(n);
      assert s[..|s| - 1] == NatToString(n / 10);
    }
  }

  /** `${year}-W${week}` */
  function Key(year: int, week: int): string
  {
    IntToString(year) + "-W" + IntToString(week)
  }

  /** The key of day `d`: its calendar year with its ISO week number. */
  function DayKey(d: int): string
  {
    Key(YearOf(d), WeekNumber(d))
  }

  /** `getWeekKey`: the key of the UTC day of a timestamp. */
  function WeekKey(ms: int): string
  {
    DayKey(DayOf(ms))
  }

  /** In digits followed by a dash, the dash is the first one. */
  lemma FirstDash(a: string, t: string)
    requires IsDigits(a) && t != [] && t[0] == '-'
    ensures (a + t)[|a|] == '-'
    ensures forall i :: 0 <= i < |a| ==> (a + t)[i] != '-'
  {
    assert forall i :: 0 <= i < |a| ==> (a + t)[i] == a[i];
  }

  /** A digit string is cut off by the first dash that follows it. */
  lemma DigitsBeforeDash(a: string, t: string, b: string, u: string)
    requires IsDigits(a) && IsDigits(b)
    requires a + t == b + u
    requires t != [] && t[0] == '-' && u != [] && u[0] == '-'
    ensures a == b && t == u
  {
    FirstDash(a, t);
    FirstDash(b, u);
    assert |a| == |b|;
    assert a == (a + t)[..|a|] == (b + u)[..|b|] == b;
    assert t == (a + t)[|a|..] == (b + u)[|b|..] == u;
  }

  lemma KeyOfNaturals(y: nat, w: nat)
    ensures Key(y, w) == NatToString(y) + ("-W" + NatToString(w))
  {
  }

  /** Two keys of years after 0 are equal only for equal years and week numbers. */
  lemma KeyInjective(y1: nat, w1: nat, y2: nat, w2: nat)
    requires Key(y1, w1) == Key(y2, w2)
    ensures y1 == y2 && w1 == w2
  {
    var a, b := NatToString(y1), NatToString(y2);
    var c, e := NatToString(w1), NatToString(w2);
    KeyOfNaturals(y1, w1);
    KeyOfNaturals(y2, w2);
    DigitsBeforeDash(a, "-W" + c, b, "-W" + e);
    assert c == ("-W" + c)[2..] == ("-W" + e)[2..] == e;
    NatToStringRoundTrip(y1);
    NatToStringRoundTrip(y2);
    NatToStringRoundTrip(w1);
    NatToStringRoundTrip(w2);
  }

  /** Days of one Monday-to-Sunday week and one calendar year share a key. */
  lemma SameWeekSameKey(d1: int, d2: int)
    requires ThursdayOf(d1) == ThursdayOf(d2) && YearOf(d1) == YearOf(d2)
    ensures DayKey(d1) == DayKey(d2)
  {
    SameThursdaySameWeekNumber(d1, d2);
  }

  lemma SameThursdaySameWeekNumber(d1: int, d2: int)
    requires ThursdayOf(d1) == ThursdayOf(d2)
    ensures WeekNumber(d1) == WeekNumber(d2)
  {
    assert DayInWeekYear(d1) == DayInWeekYear(d2);
  }

  /** The day of a midnight timestamp is that day. */
  lemma DayOfMidnight(d: int)
    ensures DayOf(d * MsPerDay) == d
  {
  }

  lemma YearStartsAroundNewYear2025()
    ensures YearStart(2024) == 19723 && YearStart(2025) == 20089 && YearStart(2026) == 20454
  {
  }

  lemma YearsAroundNewYear2025()
    ensures YearOf(19726) == 2024 && YearOf(20090) == 2025
    ensures YearOf(19723) == 2024 && YearOf(20087) == 2024
  {
    YearStartsAroundNewYear2025();
    YearOfUnique(19723, 2024);
    YearOfUnique(19726, 2024);
    YearOfUnique(20087, 2024);
    YearOfUnique(20090, 2025);
  }

  /** Monday 1 January 2024 is in week 1 of 2024. */
  lemma WeekOfFirstJanuary2024()
    ensures WeekNumber(19723) == 1
  {
    assert IsoWeekday(19723) == 1;
    assert ThursdayOf(19723) == 19726;
    YearsAroundNewYear2025();
    YearStartsAroundNewYear2025();
    assert DayInWeekYear(19723) == 3;
  }

  /** Monday 30 December 2024 is in week 1 of 2025. */
  lemma WeekOfThirtiethDecember2024()
    ensures WeekNumber(20087) == 1
  {
    ThirtiethDecember2024InWeekYear();
  }

  /** The Thursday after Monday 30 December 2024 is 2 January 2025, day 1 of 2025. */
  lemma ThirtiethDecember2024InWeekYear()
    ensures DayInWeekYear(20087) == 1
  {
    assert IsoWeekday(20087) == 1;
    assert ThursdayOf(20087) == 20090;
    YearsAroundNewYear2025();
    YearStartsAroundNewYear2025();
  }

  lemma KeyOfWeekOne2024()
    ensures Key(2024, 1) == "2024-W1"
  {
    assert NatToString(2) == "2";
    assert NatToString(20) == "20";
    assert NatToString(202) == "202";
    assert NatToString(2024) == "2024";
    KeyOfNaturals(2024, 1);
  }

  /**
   * The calendar-year key collides across a year: Monday 1 January 2024
   * (day 19723) and Monday 30 December 2024 (day 20087) are a year apart,
   * yet both get the key `2024-W1`, since the week of 30 December 2024 is
   * week 1 of 2025.
   */
  lemma CalendarYearCollision()
    ensures WeekKey(19723 * MsPerDay) == "2024-W1"
    ensures WeekKey(20087 * MsPerDay) == "2024-W1"
  {
    DayOfMidnight(19723);
    DayOfMidnight(20087);
    YearsAroundNewYear2025();
    WeekOfFirstJanuary2024();
    WeekOfThirtiethDecember2024();
    KeyOfWeekOne2024();
  }
}
