/**
 The log time stamp (quantra/src/logging.rs): seconds since the epoch to a
 Gregorian date by counting down years and months.  The source's comment vouches
 for it up to 2099; it is exact for every number of seconds.
 */
module Calendar {

  predicate IsLeap(year: nat) { (year % 4 == 0 && year % 100 != 0) || year % 400 == 0 }

  function DaysInYear(year: nat): nat { if IsLeap(year) then 366 else 365 }

  function MonthDays(year: nat): (r: seq<nat>)
    ensures |r| == 12
  {
    [31, if IsLeap(year) then 29 else 28, 31, 30, 31, 30, 31, 31, 30, 31, 30, 31]
  }

  datatype DateTime = DateTime(year: nat, month: nat, day: nat, hour: nat, minute: nat, second: nat)

  predicate Valid(d: DateTime) {
    && d.year >= 1970 && 1 <= d.month <= 12
    && 1 <= d.day <= MonthDays(d.year)[d.month - 1]
    && d.hour < 24 && d.minute < 60 && d.second < 60
  }

  // ----------------------------------------------- the Gregorian day count

  /** Leap days in the years 1 to y. */
  function LeapsThrough(y: nat): int { y / 4 - y / 100 + y / 400 }

  /** Days from 1970-01-01 to the first of January of a year, in closed form. */
  function DaysBeforeYear(year: nat): int
    requires year >= 1970
  {
    365 * (year - 1970) + LeapsThrough(year - 1) - LeapsThrough(1969)
  }

  function DaysBeforeMonth(year: nat, month: nat): (r: nat)
    requires 1 <= month <= 13
  {
    if month == 1 then 0 else DaysBeforeMonth(year, month - 1) + MonthDays(year)[month - 2]
  }

  function DayNumber(d: DateTime): int
    requires Valid(d)
  {
    DaysBeforeYear(d.year) + DaysBeforeMonth(d.year, d.month) + d.day - 1
  }

  function Seconds(d: DateTime): int
    requires Valid(d)
  {
    86400 * DayNumber(d) + 3600 * d.hour + 60 * d.minute + d.second
  }

  lemma YearStep(year: nat)
    requires year >= 1970
    ensures DaysBeforeYear(year + 1) == DaysBeforeYear(year) + DaysInYear(year)
  {
    LeapStep(year);
    hide LeapsThrough, IsLeap;
  }

  /** Each year adds its leap day. */
  lemma LeapStep(year: nat)
    requires year >= 1
    ensures LeapsThrough(year) - LeapsThrough(year - 1) == if IsLeap(year) then 1 else 0
  {
    Quotient4(year);
    Quotient100(year);
    Quotient400(year);
    Multiples(year);
    LeapSum(year);
    hide Added, Multiple, LeapsThrough, IsLeap;
  }

  predicate Multiple(y: nat, k: nat)
    requires k > 0
  {
    y % k == 0
  }

  /** How many multiples of k the year y adds. */
  function Added(y: nat, k: nat): int
    requires y >= 1 && k > 0
  {
    y / k - (y - 1) / k
  }

  lemma Quotient4(y: nat)
    requires y >= 1
    ensures Added(y, 4) == if Multiple(y, 4) then 1 else 0
  {
  }

  lemma Quotient100(y: nat)
    requires y >= 1
    ensures Added(y, 100) == if Multiple(y, 100) then 1 else 0
  {
  }

  lemma Quotient400(y: nat)
    requires y >= 1
    ensures Added(y, 400) == if Multiple(y, 400) then 1 else 0
  {
  }

  lemma Multiples(y: nat)
    ensures Multiple(y, 400) ==> Multiple(y, 100)
    ensures Multiple(y, 100) ==> Multiple(y, 4)
    ensures IsLeap(y) <==> (Multiple(y, 4) && !Multiple(y, 100)) || Multiple(y, 400)
  {
    if y % 400 == 0 { assert y == 100 * (4 * (y / 400)); }
    if y % 100 == 0 { assert y == 4 * (25 * (y / 100)); }
  }

  lemma LeapSum(y: nat)
    requires y >= 1
    ensures LeapsThrough(y) - LeapsThrough(y - 1) == Added(y, 4) - Added(y, 100) + Added(y, 400)
  {
  }

  lemma EpochIsDayZero()
    ensures DaysBeforeYear(1970) == 0
  {
  }

  lemma YearLength(year: nat)
    ensures DaysBeforeMonth(year, 13) == DaysInYear(year)
  {
    var feb := MonthDays(year)[1];
    assert DaysBeforeMonth(year, 2) == 31;
    assert DaysBeforeMonth(year, 3) == 31 + feb && DaysBeforeMonth(year, 4) == 62 + feb;
    assert DaysBeforeMonth(year, 5) == 92 + feb && DaysBeforeMonth(year, 6) == 123 + feb;
    assert DaysBeforeMonth(year, 7) == 153 + feb && DaysBeforeMonth(year, 8) == 184 + feb;
    assert DaysBeforeMonth(year, 9) == 215 + feb && DaysBeforeMonth(year, 10) == 245 + feb;
    assert DaysBeforeMonth(year, 11) == 276 + feb && DaysBeforeMonth(year, 12) == 306 + feb;
  }

  // ------------------------------------------------- the same without a month table

  /** Days from the first of January of year 1 to a date, the first being day 1, in closed form. */
  function FixedDay(year: nat, month: nat, day: nat): int
    requires year >= 1
  {
    var leap := LeapsThrough(year) - LeapsThrough(year - 1);
    365 * (year - 1) + LeapsThrough(year - 1) + (367 * month - 362) / 12
    + (if month <= 2 then 0 else leap - 2) + day
  }

  /** The first day of the month after. */
  function NextMonth(year: nat, month: nat): int
    requires year >= 1
  {
    if month == 12 then FixedDay(year + 1, 1, 1) else FixedDay(year, month + 1, 1)
  }

  /** The day number of 1970-01-01. */
  const EPOCH := 719163

  lemma {:induction false} MonthsClosedForm(year: nat, month: nat)
    requires 1 <= month <= 12
    ensures DaysBeforeMonth(year, month) ==
            (367 * month - 362) / 12 + (if month <= 2 then 0 else if IsLeap(year) then -1 else -2)
    decreases month
  {
    if month > 1 {
      MonthsClosedForm(year, month - 1);
      Lengths(year, month - 1);
      hide MonthDays;
    }
  }

  lemma Lengths(year: nat, month: nat)
    requires 1 <= month <= 11
    ensures MonthDays(year)[month - 1] == (367 * month + 5) / 12 - (367 * month - 362) / 12 -
            (if month != 2 then 0 else if IsLeap(year) then 1 else 2)
  {
    hide IsLeap;
  }

  lemma MonthEnds(year: nat, month: nat)
    requires year >= 1970 && 1 <= month <= 12
    ensures NextMonth(year, month) - FixedDay(year, month, 1) == MonthDays(year)[month - 1]
  {
    LeapStep(year);
    MonthsClosedForm(year, month);
    if month == 12 {
      YearStep(year);
      YearLength(year);
      assert DaysBeforeMonth(year, 13) == DaysBeforeMonth(year, 12) + MonthDays(year)[11];
    } else {
      MonthsClosedForm(year, month + 1);
      assert DaysBeforeMonth(year, month + 1) == DaysBeforeMonth(year, month) + MonthDays(year)[month - 1];
    }
  }

  /** The day count by table and the closed form agree. */
  lemma DayNumberIsFixed(d: DateTime)
    requires Valid(d)
    ensures DayNumber(d) == FixedDay(d.year, d.month, d.day) - EPOCH
    ensures FixedDay(d.year, d.month, d.day) < NextMonth(d.year, d.month)
  {
    LeapStep(d.year);
    MonthsClosedForm(d.year, d.month);
    MonthEnds(d.year, d.month);
  }

  // ------------------------------------------------------------ the algorithm

  /** The year loop. */
  method CountYears(days: nat) returns (year: nat, remaining: nat)
    ensures year >= 1970 && remaining < DaysInYear(year)
    ensures days == DaysBeforeYear(year) + remaining
    ensures FixedDay(year, 1, 1) - 719163 + remaining == days < FixedDay(year + 1, 1, 1) - 719163
  {
    year := 1970;
    remaining := days;
    EpochIsDayZero();
    while true
      invariant year >= 1970 && days == DaysBeforeYear(year) + remaining
      decreases remaining
    {
      var daysInYear := if IsLeap(year) then 366 else 365;
      if remaining < daysInYear { break; }
      YearStep(year);
      remaining := remaining - daysInYear;
      year := year + 1;
    }
    YearStep(year);
  }

  /** The month loop: twelve entries, left at the first that is long enough. */
  method CountMonths(year: nat, dayOfYear: nat) returns (month: nat, remaining: nat)
    requires dayOfYear < DaysInYear(year)
    ensures 1 <= month <= 12 && remaining < MonthDays(year)[month - 1]
    ensures dayOfYear == DaysBeforeMonth(year, month) + remaining
    ensures year >= 1970 ==>
              FixedDay(year, month, 1) - FixedDay(year, 1, 1) + remaining == dayOfYear
              < NextMonth(year, month) - FixedDay(year, 1, 1)
  {
    var monthDays := MonthDays(year);
    month := 1;
    remaining := dayOfYear;
    YearLength(year);
    for i := 0 to 12
      invariant month == i + 1 && dayOfYear == DaysBeforeMonth(year, month) + remaining
    {
      if remaining < monthDays[i] {
        if year >= 1970 { MonthOfYear(year, month, remaining); }
        return;
      }
      remaining := remaining - monthDays[i];
      month := month + 1;
    }
    assert false;
  }

  lemma MonthOfYear(year: nat, month: nat, remaining: nat)
    requires year >= 1970 && 1 <= month <= 12 && remaining < MonthDays(year)[month - 1]
    ensures FixedDay(year, month, 1) - FixedDay(year, 1, 1) == DaysBeforeMonth(year, month)
    ensures FixedDay(year, month, 1) + remaining < NextMonth(year, month)
  {
    LeapStep(year);
    MonthsClosedForm(year, month);
    MonthEnds(year, month);
  }

  /** The fields: a date of the month it names, and a clock, that together are the given second. */
  method Rfc3339(secs: nat) returns (d: DateTime)
    ensures Valid(d) && Seconds(d) == secs
    ensures d.year >= 1970 && 1 <= d.month <= 12 && 1 <= d.day
    ensures FixedDay(d.year, d.month, d.day) < NextMonth(d.year, d.month)
    ensures FixedDay(d.year, d.month, d.day) - 719163 == secs / 86400
    ensures d.hour < 24 && d.minute < 60 && d.second < 60
    ensures 3600 * d.hour + 60 * d.minute + d.second == secs % 86400
  {
    var s := secs % 60;
    var m := (secs / 60) % 60;
    var h := (secs / 3600) % 24;
    var days := secs / 86400;
    var year, dayOfYear := CountYears(days);
    var month, remaining := CountMonths(year, dayOfYear);
    d := DateTime(year, month, remaining + 1, h, m, s);
    ClockSum(secs);
    DayNumberIsFixed(d);
    assert DayNumber(d) == secs / 86400;
  }

  lemma ClockSum(secs: nat)
    ensures 86400 * (secs / 86400) + 3600 * (secs / 3600 % 24) + 60 * (secs / 60 % 60) + secs % 60 == secs
  {
    var minutes := secs / 60;
    var hours := minutes / 60;
    assert hours == secs / 3600 && hours / 24 == secs / 86400;
    assert secs == 60 * minutes + secs % 60 && minutes == 60 * hours + minutes % 60
        && hours == 24 * (hours / 24) + hours % 24;
  }

  // ------------------------------------------------------- order and uniqueness

  predicate Earlier(a: DateTime, b: DateTime) {
    a.year < b.year || (a.year == b.year &&
    (a.month < b.month || (a.month == b.month &&
    (a.day < b.day || (a.day == b.day &&
    (a.hour < b.hour || (a.hour == b.hour &&
    (a.minute < b.minute || (a.minute == b.minute && a.second < b.second)))))))))
  }

  lemma {:induction false} YearsMonotone(y1: nat, y2: nat)
    requires 1970 <= y1 < y2
    ensures DaysBeforeYear(y1) + DaysInYear(y1) <= DaysBeforeYear(y2)
    decreases y2
  {
    if y1 + 1 == y2 {
      YearStep(y1);
    } else {
      YearsMonotone(y1, y2 - 1);
      YearStep(y2 - 1);
    }
  }

  lemma {:induction false} MonthsMonotone(year: nat, m1: nat, m2: nat)
    requires 1 <= m1 < m2 <= 13
    ensures DaysBeforeMonth(year, m1) + MonthDays(year)[m1 - 1] <= DaysBeforeMonth(year, m2)
    decreases m2
  {
    if m1 + 1 < m2 { MonthsMonotone(year, m1, m2 - 1); }
  }

  lemma DayNumberOrder(a: DateTime, b: DateTime)
    requires Valid(a) && Valid(b)
    requires a.year < b.year || (a.year == b.year && (a.month < b.month || (a.month == b.month && a.day < b.day)))
    ensures DayNumber(a) < DayNumber(b)
  {
    if a.year < b.year {
      MonthsMonotone(a.year, a.month, 13);
      YearLength(a.year);
      YearsMonotone(a.year, b.year);
    } else if a.month < b.month {
      MonthsMonotone(a.year, a.month, b.month);
    }
  }

  /** Later dates have more seconds. */
  lemma OrderPreserved(a: DateTime, b: DateTime)
    requires Valid(a) && Valid(b) && Earlier(a, b)
    ensures Seconds(a) < Seconds(b)
  {
    hide DayNumber;
    if a.year == b.year && a.month == b.month && a.day == b.day {
      SameDay(a, b);
    } else {
      DayNumberOrder(a, b);
    }
  }

  lemma SameDay(a: DateTime, b: DateTime)
    requires Valid(a) && Valid(b) && a.year == b.year && a.month == b.month && a.day == b.day
    ensures DayNumber(a) == DayNumber(b)
  {
  }

  /** So the printed tuple grows strictly with the clock, and one number has one date. */
  lemma StampsIncrease(s1: nat, d1: DateTime, s2: nat, d2: DateTime)
    requires Valid(d1) && Seconds(d1) == s1 && Valid(d2) && Seconds(d2) == s2
    ensures s1 < s2 <==> Earlier(d1, d2)
    ensures s1 == s2 <==> d1 == d2
  {
    hide Seconds;
    if Earlier(d1, d2) { OrderPreserved(d1, d2); }
    else if Earlier(d2, d1) { OrderPreserved(d2, d1); }
    else { assert d1 == d2; }
  }
}
