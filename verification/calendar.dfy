/** Billing periods in calendar months.

    Models `_next_month` and the rollover loop of `_reconcile` of `commercial.py`. A moment is a
    UTC date with the microseconds of its day; years beyond 9999 are not modelled. */
module Calendar {

  const DAY := 86_400_000_000

  predicate LeapYear(year: nat) { year % 4 == 0 && (year % 100 != 0 || year % 400 == 0) }

  function MonthDays(year: nat, month: nat): (d: nat)
    requires 1 <= month <= 12
    ensures 28 <= d <= 31
  {
    if month == 2 then (if LeapYear(year) then 29 else 28)
    else if month in {4, 6, 9, 11} then 30 else 31
  }

  datatype Date = Date(year: nat, month: nat, day: nat, micro: nat)

  predicate Proper(s: Date) {
    1 <= s.month <= 12 && 1 <= s.day <= MonthDays(s.year, s.month) && s.micro < DAY
  }

  type Moment = s: Date | Proper(s) witness Date(1, 1, 1, 0)

  /** Days before a month, counting months from January of year 0. */
  function DaysBefore(index: nat): nat {
    if index == 0 then 0 else DaysBefore(index - 1) + MonthDays((index - 1) / 12, (index - 1) % 12 + 1)
  }

  function MonthIndex(s: Moment): nat { 12 * s.year + s.month - 1 }

  /** Position on the time line, in microseconds. */
  function Instant(s: Moment): nat { (DaysBefore(MonthIndex(s)) + s.day - 1) * DAY + s.micro }

  function Min(a: nat, b: nat): nat { if a <= b then a else b }

  /** `_next_month`: the same day of the next month, or its last day. */
  function NextMonth(s: Moment): Moment {
    var year := if s.month == 12 then s.year + 1 else s.year;
    var month := s.month % 12 + 1;
    Date(year, month, Min(s.day, MonthDays(year, month)), s.micro)
  }

  /** Leap days in the years before this one: one for each divisible by 4, but not by 100 unless by 400. */
  function LeapDays(year: nat): int { (year + 3) / 4 - (year + 99) / 100 + (year + 399) / 400 }

  predicate HasLeapDay(year: nat) { year % 400 == 0 || (year % 4 == 0 && year % 100 != 0) }

  lemma LeapYearIs(year: nat)
    ensures LeapYear(year) <==> HasLeapDay(year)
  {
    Centuries(year);
  }

  lemma Fours(year: nat)
    ensures (year + 4) / 4 == (year + 3) / 4 + if year % 4 == 0 then 1 else 0
  {
  }

  lemma Hundreds(year: nat)
    ensures (year + 100) / 100 == (year + 99) / 100 + if year % 100 == 0 then 1 else 0
  {
  }

  lemma FourHundreds(year: nat)
    ensures (year + 400) / 400 == (year + 399) / 400 + if year % 400 == 0 then 1 else 0
  {
  }

  lemma Centuries(year: nat)
    ensures year % 400 == 0 ==> year % 100 == 0 && year % 4 == 0
    ensures year % 100 == 0 ==> year % 4 == 0
  {
    if year % 400 == 0 {
      assert year == 100 * (4 * (year / 400));
    }
    if year % 100 == 0 {
      assert year == 4 * (25 * (year / 100));
    }
  }

  lemma NextYear(year: nat)
    ensures LeapDays(year + 1) == LeapDays(year) + if HasLeapDay(year) then 1 else 0
  {
    Fours(year);
    Hundreds(year);
    FourHundreds(year);
    Centuries(year);
  }

  /** Days from the start of a common year to the start of its months. */
  function MonthStart(month: nat): nat
    requires month < 12
  {
    [0, 31, 59, 90, 120, 151, 181, 212, 243, 273, 304, 334][month]
  }

  lemma MonthEnds(year: nat, month: nat)
    requires 1 <= month < 12
    ensures MonthDays(year, month) == MonthStart(month) - MonthStart(month - 1) + if month == 2 && LeapYear(year) then 1 else 0
  {
    hide LeapYear;
  }

  lemma Split(year: nat, month: nat)
    requires month < 12
    ensures (12 * year + month) / 12 == year && (12 * year + month) % 12 == month
  {
  }

  lemma NextMonthBegins(year: nat, month: nat)
    requires 1 <= month < 12
    ensures DaysBefore(12 * year + month) == DaysBefore(12 * year + month - 1) + MonthDays(year, month)
  {
    hide MonthDays, DaysBefore;
    Split(year, month - 1);
    OneMoreMonth(12 * year + (month - 1), year, month);
  }

  lemma OneMoreMonth(index: nat, year: nat, month: nat)
    requires index / 12 == year && index % 12 == month - 1
    ensures DaysBefore(index + 1) == DaysBefore(index) + MonthDays(year, month)
  {
    hide MonthDays;
  }

  lemma NextYearBegins(year: nat)
    ensures DaysBefore(12 * (year + 1)) == DaysBefore(12 * year + 11) + 31
  {
    Split(year, 11);
  }

  /** Days before the first of a month: 365 for each year, their leap days, and the months before it. */
  function Begins(year: nat, month: nat): int
    requires month < 12
  {
    365 * year + LeapDays(year) + MonthStart(month) + if month >= 2 && LeapYear(year) then 1 else 0
  }

  lemma BeginsNextMonth(year: nat, month: nat)
    requires 1 <= month < 12
    ensures Begins(year, month) == Begins(year, month - 1) + MonthDays(year, month)
  {
    MonthEnds(year, month);
    hide MonthDays, MonthStart, LeapDays, LeapYear;
  }

  lemma BeginsNextYear(year: nat)
    ensures Begins(year + 1, 0) == Begins(year, 11) + 31
  {
    LeapYearIs(year);
    NextYear(year);
    hide LeapDays, LeapYear, HasLeapDay;
  }

  lemma Origin()
    ensures DaysBefore(0) == 0 == Begins(0, 0)
  {
  }

  /** The calendar is the Gregorian one. */
  lemma {:induction false} MonthBegins(year: nat, month: nat)
    requires month < 12
    ensures DaysBefore(12 * year + month) == Begins(year, month)
    decreases year, month
  {
    hide *;
    if month > 0 {
      MonthBegins(year, month - 1);
      NextMonthBegins(year, month);
      BeginsNextMonth(year, month);
    } else if year > 0 {
      MonthBegins(year - 1, 11);
      NextYearBegins(year - 1);
      BeginsNextYear(year - 1);
    } else {
      Origin();
    }
  }

  lemma NextIndex(s: Moment)
    ensures MonthIndex(NextMonth(s)) == MonthIndex(s) + 1
    ensures DaysBefore(MonthIndex(s) + 1) == DaysBefore(MonthIndex(s)) + MonthDays(s.year, s.month)
  {
    assert MonthIndex(s) / 12 == s.year && MonthIndex(s) % 12 + 1 == s.month;
  }

  /** A period is 28 to 31 days long and ends at the same time of day. */
  lemma NextMonthAdvances(s: Moment)
    ensures NextMonth(s).micro == s.micro
    ensures exists days :: 28 <= days <= 31 && Instant(NextMonth(s)) == Instant(s) + days * DAY
  {
    NextIndex(s);
    var days := MonthDays(s.year, s.month) + NextMonth(s).day - s.day;
    assert Instant(NextMonth(s)) == Instant(s) + days * DAY;
  }

  lemma NextMonthIsLater(s: Moment)
    ensures Instant(NextMonth(s)) >= Instant(s) + 28 * DAY
  {
    NextMonthAdvances(s);
  }

  datatype Period = Period(start: Moment, end: Moment)

  /** The period around `clock`, rolled forward from a boundary. */
  function Roll(p: Period, clock: int): (r: Period)
    ensures Instant(r.end) > clock
    ensures Instant(p.end) > clock ==> r == p
    ensures Instant(p.end) <= clock ==> Instant(r.start) <= clock && r.end == NextMonth(r.start)
    decreases clock - Instant(p.end)
  {
    NextMonthIsLater(p.end);
    if Instant(p.end) <= clock then Roll(Period(p.end, NextMonth(p.end)), clock) else p
  }

  /** Rolling twice is rolling once. */
  lemma {:induction false} RollTwice(p: Period, early: int, late: int)
    requires early <= late
    ensures Roll(Roll(p, early), late) == Roll(p, late)
    decreases early - Instant(p.end)
  {
    NextMonthIsLater(p.end);
    if Instant(p.end) <= early {
      RollTwice(Period(p.end, NextMonth(p.end)), early, late);
    }
  }

  /** The rollover loop: it ends with the clock inside the period. */
  method RollForward(boundary: Moment, clock: int) returns (start: Moment, end: Moment)
    requires Instant(boundary) <= clock
    ensures Instant(start) <= clock < Instant(end) && end == NextMonth(start)
    ensures forall before: Moment :: Period(start, end) == Roll(Period(before, boundary), clock)
  {
    start, end := boundary, NextMonth(boundary);
    NextMonthIsLater(boundary);
    while Instant(end) <= clock
      invariant Instant(start) <= clock && end == NextMonth(start)
      invariant Roll(Period(start, end), clock) == Roll(Period(boundary, NextMonth(boundary)), clock)
      decreases clock - Instant(end)
    {
      NextMonthIsLater(end);
      start, end := end, NextMonth(end);
    }
  }
}
