/**
 UTC calendar arithmetic of the trial helpers (src/subscription/trial-helpers.ts) and of verifySession.

 A Date is its time value in milliseconds. Year, month and date, MakeDay and Date.UTC follow section 21.4.1 of
 ECMA-262 (and 21.4.3.4 for Date.UTC). Dafny's `/` and `%` are floor division and the non-negative remainder for
 a positive divisor, as in that text.
 */
module Calendar {
  import opened Common

  const MS_PER_DAY: int := 24 * 60 * 60 * 1000

  function Day(t: int): int {
    t / MS_PER_DAY
  }

  function TimeWithinDay(t: int): int {
    t % MS_PER_DAY
  }

  // ---------- Civil dates ----------

  predicate Leap(y: int) {
    y % 4 == 0 && (y % 100 != 0 || y % 400 == 0)
  }

  function DayFromYear(y: int): int {
    365 * (y - 1970) + (y - 1969) / 4 - (y - 1901) / 100 + (y - 1601) / 400
  }

  function DaysInYear(y: int): int {
    if Leap(y) then 366 else 365
  }

  lemma NextQuarter(y: int)
    ensures (y - 1968) / 4 == (y - 1969) / 4 + (if y % 4 == 0 then 1 else 0)
  {
  }

  lemma NextCentury(y: int)
    ensures (y - 1900) / 100 == (y - 1901) / 100 + (if y % 100 == 0 then 1 else 0)
  {
  }

  lemma NextFourCenturies(y: int)
    ensures (y - 1600) / 400 == (y - 1601) / 400 + (if y % 400 == 0 then 1 else 0)
  {
  }

  lemma LeapByCount(y: int)
    ensures DaysInYear(y) == 365 + (if y % 4 == 0 then 1 else 0) - (if y % 100 == 0 then 1 else 0)
                                 + (if y % 400 == 0 then 1 else 0)
  {
  }

  lemma NextYear(y: int)
    ensures DayFromYear(y + 1) == DayFromYear(y) + DaysInYear(y)
  {
    NextQuarter(y);
    NextCentury(y);
    NextFourCenturies(y);
    LeapByCount(y);
  }

  /** YearFromTime: the largest year that starts on or before the day (see YearContainsDay). */
  function YearOfDay(d: int): int {
    if d >= 0 then YearUp(d, 1970) else YearDown(d, 1970)
  }

  function YearUp(d: int, y: int): int
    decreases d - DayFromYear(y)
  {
    NextYear(y);
    if d < DayFromYear(y + 1) then y else YearUp(d, y + 1)
  }

  function YearDown(d: int, y: int): int
    decreases DayFromYear(y) - d
  {
    NextYear(y - 1);
    if DayFromYear(y - 1) <= d then y - 1 else YearDown(d, y - 1)
  }

  lemma {:induction false} YearUpContains(d: int, y: int)
    requires DayFromYear(y) <= d
    ensures DayFromYear(YearUp(d, y)) <= d < DayFromYear(YearUp(d, y) + 1)
    decreases d - DayFromYear(y)
  {
    NextYear(y);
    if d < DayFromYear(y + 1) {
    } else {
      YearUpContains(d, y + 1);
    }
  }

  lemma {:induction false} YearDownContains(d: int, y: int)
    requires d < DayFromYear(y)
    ensures DayFromYear(YearDown(d, y)) <= d < DayFromYear(YearDown(d, y) + 1)
    decreases DayFromYear(y) - d
  {
    NextYear(y - 1);
    if DayFromYear(y - 1) <= d {
    } else {
      YearDownContains(d, y - 1);
    }
  }

  lemma YearContainsDay(d: int)
    ensures DayFromYear(YearOfDay(d)) <= d < DayFromYear(YearOfDay(d) + 1)
  {
    if d >= 0 {
      YearUpContains(d, 1970);
    } else {
      YearDownContains(d, 1970);
    }
  }

  function DaysBeforeMonth(m: int, leap: bool): int
    requires 0 <= m <= 12
  {
    var common := [0, 31, 59, 90, 120, 151, 181, 212, 243, 273, 304, 334, 365];
    common[m] + (if leap && m >= 2 then 1 else 0)
  }

  /** MonthFromTime, from the day within the year: the last month, from m on, that starts on or before it. */
  function MonthOfDayInYear(dy: int, leap: bool, m: int): (r: int)
    requires 0 <= m <= 11
    ensures m <= r <= 11
    decreases 12 - m
  {
    if m == 11 || dy < DaysBeforeMonth(m + 1, leap) then m else MonthOfDayInYear(dy, leap, m + 1)
  }

  function Year(t: int): int {
    YearOfDay(Day(t))
  }

  /** getUTCMonth: January is 0. */
  function Month(t: int): (m: int)
    ensures 0 <= m <= 11
  {
    MonthOfDayInYear(Day(t) - DayFromYear(Year(t)), Leap(Year(t)), 0)
  }

  /** getUTCDate: the first of the month is 1. */
  function DateInMonth(t: int): int {
    Day(t) - DayFromYear(Year(t)) - DaysBeforeMonth(Month(t), Leap(Year(t))) + 1
  }

  function MakeDay(year: int, month: int, date: int): int {
    var y, m := year + month / 12, month % 12;
    DayFromYear(y) + DaysBeforeMonth(m, Leap(y)) + date - 1
  }

  lemma {:induction false} YearsIncrease(x: int, y: int)
    requires x <= y
    ensures DayFromYear(x) <= DayFromYear(y)
    decreases y - x
  {
    if x == y {
    } else {
      NextYear(x);
      YearsIncrease(x + 1, y);
    }
  }

  lemma YearIsUnique(d: int, y: int)
    requires DayFromYear(y) <= d < DayFromYear(y + 1)
    ensures YearOfDay(d) == y
  {
    var r := YearOfDay(d);
    YearContainsDay(d);
    if r < y {
      YearsIncrease(r + 1, y);
    } else if y < r {
      YearsIncrease(y + 1, r);
    }
  }

  lemma MakeDayInYear(y: int, m: int, date: int)
    requires 0 <= m <= 11
    ensures MakeDay(y, m, date) == DayFromYear(y) + DaysBeforeMonth(m, Leap(y)) + date - 1
  {
  }

  /** Reading the date of a time and making a day from it gives the day of the time back. */
  lemma MakeDayOfRead(t: int)
    ensures MakeDay(Year(t), Month(t), DateInMonth(t)) == Day(t)
  {
    MakeDayInYear(Year(t), Month(t), DateInMonth(t));
  }

  lemma MonthFitsYear(month: int, leap: bool)
    requires 0 <= month <= 11
    ensures 0 <= DaysBeforeMonth(month, leap) < DaysBeforeMonth(month + 1, leap) <= DaysBeforeMonth(12, leap)
  {
  }

  /** Making a day from a valid date and reading it gives the date back, over all leap years. */
  lemma ReadOfMakeDay(t: int, year: int, month: int, date: int)
    requires 0 <= month <= 11 && Day(t) == MakeDay(year, month, date)
    requires 1 <= date <= DaysBeforeMonth(month + 1, Leap(year)) - DaysBeforeMonth(month, Leap(year))
    ensures Year(t) == year && Month(t) == month && DateInMonth(t) == date
  {
    MakeDayInYear(year, month, date);
    MonthFitsYear(month, Leap(year));
    NextYear(year);
    YearIsUnique(Day(t), year);
    MonthIsUnique(Day(t) - DayFromYear(year), Leap(year), 0, month);
  }

  lemma {:induction false} MonthContainsDay(dy: int, leap: bool, from: int)
    requires 0 <= from <= 11 && DaysBeforeMonth(from, leap) <= dy < DaysBeforeMonth(12, leap)
    ensures var m := MonthOfDayInYear(dy, leap, from);
            DaysBeforeMonth(m, leap) <= dy < DaysBeforeMonth(m + 1, leap)
    decreases 12 - from
  {
    if from == 11 || dy < DaysBeforeMonth(from + 1, leap) {
    } else {
      MonthContainsDay(dy, leap, from + 1);
    }
  }

  lemma {:induction false} MonthIsUnique(dy: int, leap: bool, from: int, m: int)
    requires 0 <= from <= m <= 11
    requires DaysBeforeMonth(m, leap) <= dy < DaysBeforeMonth(m + 1, leap)
    ensures MonthOfDayInYear(dy, leap, from) == m
    decreases m - from
  {
    if from == m {
    } else {
      MonthsIncrease(from + 1, m, leap);
      MonthIsUnique(dy, leap, from + 1, m);
    }
  }

  lemma MonthsIncrease(m1: int, m2: int, leap: bool)
    requires 0 <= m1 <= m2 <= 12
    ensures DaysBeforeMonth(m1, leap) <= DaysBeforeMonth(m2, leap)
  {
  }

  // ---------- The helpers ----------

  /** Date.UTC(year, month, date): years 0 to 99 stand for 1900 to 1999. */
  function DateUtc(year: int, month: int, date: int): int {
    MakeDay(if 0 <= year <= 99 then 1900 + year else year, month, date) * MS_PER_DAY
  }

  /** Math.round(x / MS_PER_DAY), that is, floor(x / MS_PER_DAY + 1/2). */
  function RoundToDays(x: int): int {
    (2 * x + MS_PER_DAY) / (2 * MS_PER_DAY)
  }

  function AddDaysUtc(date: int, days: int): int {
    MakeDay(Year(date), Month(date), DateInMonth(date) + days) * MS_PER_DAY + TimeWithinDay(date)
  }

  function DifferenceInCalendarDaysUtc(future: int, base: int): int {
    RoundToDays(DateUtc(Year(future), Month(future), DateInMonth(future))
                - DateUtc(Year(base), Month(base), DateInMonth(base)))
  }

  function ComputeTrialDaysRemaining(trialEndsAt: Option<int>, now: int): nat {
    match trialEndsAt
    case None => 0
    case Some(end) =>
      var diff := DifferenceInCalendarDaysUtc(end, now);
      if diff > 0 then diff else 0
  }

  /** Math.max(0, Math.ceil((end - now) / MS_PER_DAY)) of verifySession. */
  function VerifySessionDaysRemaining(end: int, now: int): nat {
    var ceiling := -((now - end) / MS_PER_DAY);
    if ceiling > 0 then ceiling else 0
  }

  // ---------- The calendar ----------

  /** The year 1970 begins with day 0, and every month has its length: 31, 30, or for February 28 and in leap years 29. */
  lemma MonthsHaveTheirLengths(y: int, m: int)
    requires 0 <= m <= 11
    ensures MakeDay(1970, 0, 1) == 0
    ensures MakeDay(y, m + 1, 1) - MakeDay(y, m, 1) ==
            if m == 1 then (if (y % 4 == 0 && y % 100 != 0) || y % 400 == 0 then 29 else 28)
            else if m == 3 || m == 5 || m == 8 || m == 10 then 30
            else 31
  {
    MakeDayInYear(1970, 0, 1);
    MakeDayInYear(y, m, 1);
    LeapYearRule(y);
    if m == 11 {
      NextYear(y);
      MakeDayInYear(y + 1, 0, 1);
      NextJanuary(y);
    } else {
      MakeDayInYear(y, m + 1, 1);
      MonthLength(m, Leap(y));
    }
  }

  lemma NextJanuary(y: int)
    ensures MakeDay(y, 12, 1) == MakeDay(y + 1, 0, 1)
  {
  }

  lemma LeapYearRule(y: int)
    ensures Leap(y) <==> (y % 4 == 0 && y % 100 != 0) || y % 400 == 0
  {
  }

  lemma MonthLength(m: int, leap: bool)
    requires 0 <= m <= 11
    ensures DaysBeforeMonth(m + 1, leap) - DaysBeforeMonth(m, leap) ==
            if m == 1 then (if leap then 29 else 28) else if m == 3 || m == 5 || m == 8 || m == 10 then 30 else 31
  {
  }

  /** A day has 86400000 ms, and a time lies in its day. */
  lemma TimesLieInDays(t: int)
    ensures 86400000 * Day(t) <= t < 86400000 * (Day(t) + 1) && TimeWithinDay(t) == t - 86400000 * Day(t)
  {
  }

  // ---------- What they compute ----------

  /** How many days Date.UTC moves a date: nothing outside years 0 to 99; inside, the distance to the same date 1900
      years later, one day more in January and February of year 0, which is a leap year while 1900 is not. */
  function ShiftOf(year: int, month: int): int {
    if !(0 <= year <= 99) then 0
    else if year == 0 && month <= 1 then 693961
    else 693960
  }

  function Shift(t: int): int {
    ShiftOf(Year(t), Month(t))
  }

  lemma YearShift(y: int)
    requires 0 <= y <= 99
    ensures DayFromYear(1900 + y) == DayFromYear(y) + (if y == 0 then 693961 else 693960)
    ensures Leap(1900 + y) == (y != 0 && Leap(y)) && (y == 0 ==> Leap(y))
  {
    assert (y - 69) / 4 == (y - 1969) / 4 + 475;
    assert (y - 1) / 100 == (y - 1901) / 100 + 19;
    assert (1900 + y) % 4 == y % 4 && (1900 + y) % 100 == y % 100;
    assert (1900 + y) % 400 == 0 ==> y == 100;
  }

  lemma DateUtcShifts(y: int, m: int, date: int)
    requires 0 <= m <= 11
    ensures DateUtc(y, m, date) == (MakeDay(y, m, date) + ShiftOf(y, m)) * MS_PER_DAY
  {
    if 0 <= y <= 99 {
      YearShift(y);
      MakeDayInYear(y, m, date);
      MakeDayInYear(1900 + y, m, date);
      MonthOfLeapYear(m);
    }
  }

  lemma DateUtcIsShiftedDay(t: int)
    ensures DateUtc(Year(t), Month(t), DateInMonth(t)) == (Day(t) + Shift(t)) * MS_PER_DAY
  {
    DateUtcShifts(Year(t), Month(t), DateInMonth(t));
    MakeDayOfRead(t);
  }

  lemma MonthOfLeapYear(m: int)
    requires 0 <= m <= 11
    ensures DaysBeforeMonth(m, true) == DaysBeforeMonth(m, false) + (if m >= 2 then 1 else 0)
  {
  }

  lemma RoundWholeDays(a: int, b: int)
    ensures RoundToDays(a * MS_PER_DAY - b * MS_PER_DAY) == a - b
  {
  }

  lemma DifferenceIsShifted(future: int, base: int)
    ensures DifferenceInCalendarDaysUtc(future, base) == Day(future) + Shift(future) - Day(base) - Shift(base)
  {
    DateUtcIsShiftedDay(future);
    DateUtcIsShiftedDay(base);
    RoundWholeDays(Day(future) + Shift(future), Day(base) + Shift(base));
  }

  /** The calendar difference is the difference of day numbers exactly when Date.UTC moves both dates alike; in
      particular for all dates outside years 0 to 99. */
  lemma CalendarDifferenceIsDayDifference(future: int, base: int)
    ensures DifferenceInCalendarDaysUtc(future, base) == Day(future) - Day(base) <==> Shift(future) == Shift(base)
    ensures !(0 <= Year(future) <= 99) && !(0 <= Year(base) <= 99) ==>
              DifferenceInCalendarDaysUtc(future, base) == Day(future) - Day(base)
  {
    DifferenceIsShifted(future, base);
  }

  /** The claim for all times is false: from the last day of year 99 to the next day is minus 693959 days. */
  lemma DifferenceAcrossYear100(t: int)
    requires Day(t) == MakeDay(100, 0, 1)
    ensures Day(t - MS_PER_DAY) == Day(t) - 1
    ensures DifferenceInCalendarDaysUtc(t, t - MS_PER_DAY) == -693959
  {
    DaysAndTime(t, -1);
    NextYear(99);
    MakeDayInYear(100, 0, 1);
    MakeDayInYear(99, 11, 31);
    ReadOfMakeDay(t, 100, 0, 1);
    ReadOfMakeDay(t - MS_PER_DAY, 99, 11, 31);
    DifferenceIsShifted(t, t - MS_PER_DAY);
  }

  /** Adding calendar days is adding whole days, whatever months and leap years lie between. */
  lemma AddDaysIsExact(t: int, days: int)
    ensures AddDaysUtc(t, days) == t + days * MS_PER_DAY
    ensures Day(AddDaysUtc(t, days)) == Day(t) + days
    ensures TimeWithinDay(AddDaysUtc(t, days)) == TimeWithinDay(t)
  {
    MakeDayOfRead(t);
    MakeDayInYear(Year(t), Month(t), DateInMonth(t));
    MakeDayInYear(Year(t), Month(t), DateInMonth(t) + days);
    DaysAndTime(t, days);
  }

  lemma DaysAndTime(t: int, days: int)
    ensures (Day(t) + days) * MS_PER_DAY + TimeWithinDay(t) == t + days * MS_PER_DAY
    ensures Day(t + days * MS_PER_DAY) == Day(t) + days
    ensures TimeWithinDay(t + days * MS_PER_DAY) == TimeWithinDay(t)
  {
  }

  /** A trial of n days has exactly n days remaining at its start (iff Date.UTC moves start and end alike). */
  lemma DaysRemainingAtGrant(t: int, n: nat)
    ensures ComputeTrialDaysRemaining(Some(AddDaysUtc(t, n)), t) == n <==> Shift(AddDaysUtc(t, n)) == Shift(t)
  {
    AddDaysIsExact(t, n);
    DifferenceIsShifted(AddDaysUtc(t, n), t);
  }

  /** The clock passes from years 0 to 99, whose dates Date.UTC moves forward, to a later year, by too little to make
      up for the move. */
  predicate FallsBack(now1: int, now2: int) {
    0 <= Year(now1) <= 99 && Year(now2) >= 100 && Day(now2) - Day(now1) < Shift(now1)
  }

  /** Days remaining never increase as time passes, for every end, exactly when the clock does not fall back. */
  lemma DaysRemainingNeverIncrease(now1: int, now2: int)
    requires now1 <= now2
    ensures (forall end ::
               ComputeTrialDaysRemaining(Some(end), now2) <= ComputeTrialDaysRemaining(Some(end), now1))
            <==> !FallsBack(now1, now2)
  {
    ShiftedDaysOrdered(now1, now2);
    if FallsBack(now1, now2) {
      DifferenceIsShifted(now1, now1);
      DifferenceIsShifted(now1, now2);
      assert ComputeTrialDaysRemaining(Some(now1), now2) > ComputeTrialDaysRemaining(Some(now1), now1);
    } else {
      forall end
        ensures ComputeTrialDaysRemaining(Some(end), now2) <= ComputeTrialDaysRemaining(Some(end), now1)
      {
        DifferenceIsShifted(end, now1);
        DifferenceIsShifted(end, now2);
      }
    }
  }

  /** Dates are ordered like their times. */
  lemma DatesOrdered(t1: int, t2: int)
    requires t1 <= t2
    ensures Day(t1) <= Day(t2) && Year(t1) <= Year(t2)
    ensures Year(t1) == Year(t2) == 0 ==> Month(t1) <= Month(t2)
  {
    DaysOrdered(t1, t2);
    YearContainsDay(Day(t1));
    YearContainsDay(Day(t2));
    YearsOrdered(Day(t1), Year(t1), Day(t2), Year(t2));
    if Year(t1) == 0 && Year(t2) == 0 {
      MonthOfTimeContains(t1);
      MonthOfTimeContains(t2);
      MonthsOrdered(Day(t1) - DayFromYear(0), Month(t1), Day(t2) - DayFromYear(0), Month(t2));
    }
  }

  lemma ShiftedDaysOrdered(t1: int, t2: int)
    requires t1 <= t2
    ensures Day(t1) + Shift(t1) <= Day(t2) + Shift(t2) <==> !FallsBack(t1, t2)
  {
    DatesOrdered(t1, t2);
    if Year(t1) == 0 && Month(t1) <= 1 && (Year(t2) != 0 || Month(t2) > 1) {
      FirstMonthsOfYear0(t1, t2);
    }
    ShiftsOrdered(Day(t1), Year(t1), Month(t1), Day(t2), Year(t2), Month(t2));
  }

  lemma ShiftsOrdered(d1: int, y1: int, m1: int, d2: int, y2: int, m2: int)
    requires d1 <= d2 && y1 <= y2 && (y1 == y2 == 0 ==> m1 <= m2)
    requires y1 == 0 && m1 <= 1 && (y2 != 0 || m2 > 1) ==> d1 < d2
    ensures d1 + ShiftOf(y1, m1) <= d2 + ShiftOf(y2, m2) <==>
            !(0 <= y1 <= 99 && y2 >= 100 && d2 - d1 < ShiftOf(y1, m1))
  {
  }

  lemma MonthOfTimeContains(t: int)
    ensures var dy, leap := Day(t) - DayFromYear(Year(t)), Leap(Year(t));
            DaysBeforeMonth(Month(t), leap) <= dy < DaysBeforeMonth(Month(t) + 1, leap)
  {
    YearContainsDay(Day(t));
    NextYear(Year(t));
    MonthContainsDay(Day(t) - DayFromYear(Year(t)), Leap(Year(t)), 0);
  }

  lemma DaysOrdered(t1: int, t2: int)
    requires t1 <= t2
    ensures Day(t1) <= Day(t2)
  {
  }

  lemma YearsOrdered(d1: int, y1: int, d2: int, y2: int)
    requires d1 <= d2 && DayFromYear(y1) <= d1 && d2 < DayFromYear(y2 + 1)
    ensures y1 <= y2
  {
    if y2 < y1 {
      YearsIncrease(y2 + 1, y1);
    }
  }

  lemma MonthsOrdered(dy1: int, m1: int, dy2: int, m2: int)
    requires dy1 <= dy2 && 0 <= m1 <= 11 && 0 <= m2 <= 11
    requires DaysBeforeMonth(m1, true) <= dy1 && dy2 < DaysBeforeMonth(m2 + 1, true)
    ensures m1 <= m2
  {
  }

  /** January and February of year 0 come before everything later. */
  lemma FirstMonthsOfYear0(t1: int, t2: int)
    requires t1 <= t2 && Year(t1) == 0 && Month(t1) <= 1 && (Year(t2) != 0 || Month(t2) > 1)
    ensures Day(t1) < Day(t2)
  {
    DaysOrdered(t1, t2);
  }

  /** For every end that is not past: the ceil formula of verifySession is the calendar formula, one larger when the trial
      ends later in its day than it is now, exactly when Date.UTC moves both dates alike. Hence the two agree exactly when
      it does and the trial ends no later in its day. */
  lemma VerifySessionAgrees(end: int, now: int)
    requires now <= end
    ensures VerifySessionDaysRemaining(end, now) ==
            ComputeTrialDaysRemaining(Some(end), now) + (if TimeWithinDay(end) > TimeWithinDay(now) then 1 else 0)
            <==> Shift(end) == Shift(now)
    ensures VerifySessionDaysRemaining(end, now) == ComputeTrialDaysRemaining(Some(end), now) <==>
              Shift(end) == Shift(now) && TimeWithinDay(end) <= TimeWithinDay(now)
  {
    DifferenceIsShifted(end, now);
    CeilingOfDays(end, now);
    ShiftNeverGrowsByOne(now, end);
    if Day(end) == Day(now) {
      SameDaySameShift(end, now);
    }
  }

  lemma SameDaySameShift(t1: int, t2: int)
    requires Day(t1) == Day(t2)
    ensures Shift(t1) == Shift(t2)
  {
  }

  lemma ShiftNeverGrowsByOne(t1: int, t2: int)
    requires t1 <= t2
    ensures Shift(t2) != Shift(t1) + 1
  {
    DatesOrdered(t1, t2);
    LaterShift(Year(t1), Month(t1), Year(t2), Month(t2));
  }

  lemma LaterShift(y1: int, m1: int, y2: int, m2: int)
    requires y1 <= y2 && (y1 == y2 == 0 ==> m1 <= m2)
    ensures ShiftOf(y2, m2) != ShiftOf(y1, m1) + 1
  {
  }

  lemma CeilingOfDays(end: int, now: int)
    requires now <= end
    ensures VerifySessionDaysRemaining(end, now) ==
            Day(end) - Day(now) + (if TimeWithinDay(end) > TimeWithinDay(now) then 1 else 0)
    ensures Day(end) >= Day(now)
  {
  }
}
