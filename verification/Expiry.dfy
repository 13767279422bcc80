/**
 Extending an account's expiry by whole months, on a mutable JavaScript `Date` in local time.
 A date is a day number and a time of day; months are numbered year × 12 + month, from month 0 of year 0.
 */
module Expiry {
  import opened Text

  // ---------------------------------------------------------------- the calendar

  predicate Leap(year: int)
  {
    year % 4 == 0 && (year % 100 != 0 || year % 400 == 0)
  }

  /** The number of days in a month. */
  function Length(month: int): (n: int)
    ensures 28 <= n <= 31
  {
    var m := month % 12;
    if m == 1 then (if Leap(month / 12) then 29 else 28)
    else if m == 3 || m == 5 || m == 8 || m == 10 then 30
    else 31
  }

  /** The day number of the first of a month. */
  function First(month: int): int
    decreases if month >= 0 then month else -month
  {
    if month == 0 then 0
    else if month > 0 then First(month - 1) + Length(month - 1)
    else First(month + 1) - Length(month)
  }

  lemma FirstNext(month: int)
    ensures First(month + 1) == First(month) + Length(month)
  {
  }

  /** Days from 1970 to the start of a year, as section 21.4.1.3 of ECMA-262 counts them. */
  function DayFromYear(year: int): int
  {
    365 * (year - 1970) + (year - 1969) / 4 - (year - 1901) / 100 + (year - 1601) / 400
  }

  /** The months of a year, and the days before each. */
  function LengthIn(m: int, leap: bool): int
  {
    if m == 1 then (if leap then 29 else 28) else if m in {3, 5, 8, 10} then 30 else 31
  }

  lemma MonthLength(year: int, m: int)
    requires 0 <= m < 12
    ensures Length(12 * year + m) == LengthIn(m, Leap(year))
  {
  }

  /** The twelve months, one by one. */
  lemma MonthLengths(year: int, m: nat)
    requires m < 12
    ensures Length(12 * year + m) == [31, if Leap(year) then 29 else 28, 31, 30, 31, 30, 31, 31, 30, 31, 30, 31][m]
  {
    MonthLength(year, m);
  }

  function DaysBefore(m: nat, leap: bool): int
  {
    if m == 0 then 0 else DaysBefore(m - 1, leap) + LengthIn(m - 1, leap)
  }

  lemma {:induction false} FirstInYear(year: int, m: nat)
    requires m <= 12
    ensures First(12 * year + m) == First(12 * year) + DaysBefore(m, Leap(year))
  {
    if m > 0 {
      FirstInYear(year, m - 1);
      FirstNext(12 * year + m - 1);
      MonthLength(year, m - 1);
    }
  }

  lemma WholeYear(leap: bool)
    ensures DaysBefore(12, leap) == if leap then 366 else 365
  {
    if leap {
      assert DaysBefore(12, true) == 366;
    } else {
      assert DaysBefore(12, false) == 365;
    }
  }

  lemma YearLength(year: int)
    ensures First(12 * (year + 1)) == First(12 * year) + if Leap(year) then 366 else 365
  {
    FirstInYear(year, 12);
    WholeYear(Leap(year));
    assert 12 * (year + 1) == 12 * year + 12;
  }

  lemma Fours(year: int)
    ensures (year - 1968) / 4 == (year - 1969) / 4 + if year % 4 == 0 then 1 else 0
  {
  }

  lemma Hundreds(year: int)
    ensures (year - 1900) / 100 == (year - 1901) / 100 + if year % 100 == 0 then 1 else 0
  {
  }

  lemma FourHundreds(year: int)
    ensures (year - 1600) / 400 == (year - 1601) / 400 + if year % 400 == 0 then 1 else 0
  {
  }

  lemma LeapRule(year: int)
    ensures year % 400 == 0 ==> year % 100 == 0
    ensures year % 100 == 0 ==> year % 4 == 0
  {
  }

  lemma YearNumbers(year: int)
    ensures DayFromYear(year + 1) == DayFromYear(year) + if Leap(year) then 366 else 365
  {
    Fours(year);
    Hundreds(year);
    FourHundreds(year);
    LeapRule(year);
  }

  /** The month lengths add up to the calendar of ECMA-262, between any two years. */
  lemma {:induction false} CalendarAgrees(a: int, b: int)
    requires a <= b
    ensures First(12 * b) - First(12 * a) == DayFromYear(b) - DayFromYear(a)
    decreases b - a
  {
    if a < b {
      CalendarAgrees(a, b - 1);
      YearLength(b - 1);
      YearNumbers(b - 1);
    }
  }

  lemma {:induction false} FirstRises(a: int, b: int)
    requires a < b
    ensures First(a) + Length(a) <= First(b)
    decreases b - a
  {
    FirstNext(a);
    if a + 1 < b {
      FirstRises(a + 1, b);
    }
  }

  ghost predicate Within(day: int, month: int)
  {
    First(month) <= day < First(month) + Length(month)
  }

  lemma OneMonth(day: int, a: int, b: int)
    requires Within(day, a) && Within(day, b)
    ensures a == b
  {
    if a < b {
      FirstRises(a, b);
    } else if b < a {
      FirstRises(b, a);
    }
  }

  function MonthFrom(day: int, month: int): (k: int)
    ensures Within(day, k)
    decreases if day < First(month) then First(month) - day else if day < First(month) + Length(month) then 0
      else day - First(month) + 1
  {
    FirstNext(month);
    FirstNext(month - 1);
    if day < First(month) then MonthFrom(day, month - 1)
    else if day < First(month) + Length(month) then month
    else MonthFrom(day, month + 1)
  }

  /** The month a day falls in. */
  function MonthOf(day: int): (k: int)
    ensures Within(day, k)
  {
    MonthFrom(day, 0)
  }

  /** The day of the month, from 1. */
  function DateOf(day: int): (d: int)
    ensures 1 <= d <= Length(MonthOf(day))
  {
    day - First(MonthOf(day)) + 1
  }

  // ---------------------------------------------------------------- Date and extendBy

  datatype Moment = Moment(day: int, ms: int)

  predicate Before(a: Moment, b: Moment)
  {
    a.day < b.day || (a.day == b.day && a.ms < b.ms)
  }

  /** `setDate`: a date beyond the month's end rolls over, as `MakeDay` of ECMA-262 has it. */
  function OnDate(m: Moment, date: int): Moment
  {
    Moment(First(MonthOf(m.day)) + date - 1, m.ms)
  }

  /** `setMonth`, with the month counted from year 0; a date the month does not have rolls over. */
  function InMonth(m: Moment, month: int): Moment
  {
    Moment(First(month) + DateOf(m.day) - 1, m.ms)
  }

  /** A JavaScript `Date`. */
  class Date {
    var at: Moment

    constructor (at: Moment)
      ensures this.at == at
    {
      this.at := at;
    }

    /** `new Date(year, month, date)` with the month counted from year 0. */
    constructor Civil(month: int, date: int)
      ensures at == Moment(First(month) + date - 1, 0)
    {
      at := Moment(First(month) + date - 1, 0);
    }

    method SetDate(date: int)
      modifies this
      ensures at == OnDate(old(at), date)
    {
      at := Moment(First(MonthOf(at.day)) + date - 1, at.ms);
    }

    method SetMonth(month: int)
      modifies this
      ensures at == InMonth(old(at), month)
    {
      at := Moment(First(month) + DateOf(at.day) - 1, at.ms);
    }
  }

  function Min(a: int, b: int): int
  {
    if a <= b then a else b
  }

  /** The same time on the same day of the month, `months` later, or on that month's last day. */
  function Extended(base: Moment, months: int): Moment
  {
    var month := MonthOf(base.day) + months;
    Moment(First(month) + Min(DateOf(base.day), Length(month)) - 1, base.ms)
  }

  lemma DateAt(month: int, date: int)
    requires 1 <= date <= Length(month)
    ensures MonthOf(First(month) + date - 1) == month && DateOf(First(month) + date - 1) == date
  {
    OneMonth(First(month) + date - 1, month, MonthOf(First(month) + date - 1));
  }

  /** The dates the code passes through: the first of a month, and the day before the first of the next. */
  lemma Waypoints(month: int)
    ensures MonthOf(First(month)) == month && DateOf(First(month)) == 1
    ensures DateOf(First(month + 1) - 1) == Length(month)
  {
    DateAt(month, 1);
    DateAt(month, Length(month));
    FirstNext(month);
  }

  lemma FirstOfTarget(base: Moment, months: int)
    ensures var first := OnDate(base, 1);
      InMonth(first, MonthOf(first.day) + months) == Moment(First(MonthOf(base.day) + months), base.ms)
  {
    Waypoints(MonthOf(base.day));
  }

  lemma OnDateOf(month: int, ms: int, date: int)
    ensures OnDate(Moment(First(month), ms), date) == Moment(First(month) + date - 1, ms)
  {
    Waypoints(month);
  }

  lemma LastOfTarget(base: Moment, month: int)
    ensures DateOf(First(MonthOf(First(month)) + 1) - 1) == Length(month)
    ensures OnDate(Moment(First(month), base.ms), Min(DateOf(base.day), Length(month)))
         == Moment(First(month) + Min(DateOf(base.day), Length(month)) - 1, base.ms)
  {
    Waypoints(month);
    OnDateOf(month, base.ms, Min(DateOf(base.day), Length(month)));
  }

  /** The last day of the month a date is in, as the code finds it: the day before the first of the next month. */
  function LastDay(m: Moment): int
  {
    DateOf(First(MonthOf(m.day) + 1) - 1)
  }

  /** The first of the target month. */
  function FirstOf(base: Moment, months: int): Moment
  {
    InMonth(OnDate(base, 1), MonthOf(OnDate(base, 1).day) + months)
  }

  lemma StepsExtend(base: Moment, months: int)
    ensures OnDate(FirstOf(base, months), Min(DateOf(base.day), LastDay(FirstOf(base, months)))) == Extended(base,
      months)
  {
    FirstOfTarget(base, months);
    LastOfTarget(base, MonthOf(base.day) + months);
  }

  method ExtendBy(expiresAt: Option<Moment>, months: int, now: Moment) returns (r: Moment)
    ensures expiresAt.Some? && Before(now, expiresAt.value) ==> r == Extended(expiresAt.value, months)
    ensures expiresAt.Some? && !Before(now, expiresAt.value) ==> r == Extended(now, months)
    ensures expiresAt.None? ==> r == Extended(now, months)
    ensures months > 0 ==> Before(now, r) && (expiresAt.Some? ==> Before(expiresAt.value, r))
  {
    var base := now;
    if expiresAt.Some? && Before(now, expiresAt.value) {
      base := expiresAt.value;
    }
    var day := DateOf(base.day);
    var next := new Date(base);
    next.SetDate(1);
    next.SetMonth(MonthOf(next.at.day) + months);
    assert next.at == FirstOf(base, months);
    var lastOfMonth := new Date.Civil(MonthOf(next.at.day) + 1, 0);
    var lastDay := DateOf(lastOfMonth.at.day);
    assert lastDay == LastDay(FirstOf(base, months));
    next.SetDate(Min(day, lastDay));
    StepsExtend(base, months);
    if months > 0 {
      StrictlyLater(base, months);
    }
    r := next.at;
  }

  // ---------------------------------------------------------------- what the extension promises

  /** Exactly the months asked for, and the same day unless the month is too short for it. */
  lemma AdvancesExactly(base: Moment, months: int)
    ensures MonthOf(Extended(base, months).day) == MonthOf(base.day) + months
    ensures DateOf(Extended(base, months).day) == Min(DateOf(base.day), Length(MonthOf(base.day) + months))
  {
    var month := MonthOf(base.day) + months;
    DateAt(month, Min(DateOf(base.day), Length(month)));
  }

  lemma StrictlyLater(base: Moment, months: int)
    requires months > 0
    ensures Before(base, Extended(base, months))
  {
    FirstRises(MonthOf(base.day), MonthOf(base.day) + months);
  }

  lemma LaterMonth(a: int, b: int)
    requires a <= b
    ensures MonthOf(a) <= MonthOf(b)
  {
    if MonthOf(b) < MonthOf(a) {
      FirstRises(MonthOf(b), MonthOf(a));
    }
  }

  /** A base on a later day never gives an expiry on an earlier day. */
  lemma MonotoneInDays(a: Moment, b: Moment, months: int)
    requires a.day <= b.day
    ensures Extended(a, months).day <= Extended(b, months).day
  {
    LaterMonth(a.day, b.day);
    if MonthOf(a.day) < MonthOf(b.day) {
      FirstRises(MonthOf(a.day) + months, MonthOf(b.day) + months);
    }
  }

  /** Both fall on the last day of the same target month, from different days. */
  predicate BothClamped(a: Moment, b: Moment, months: int)
  {
    && MonthOf(a.day) == MonthOf(b.day)
    && Length(MonthOf(a.day) + months) <= DateOf(a.day) < DateOf(b.day)
  }

  lemma SameDayIff(a: Moment, b: Moment, months: int)
    requires a.day < b.day
    ensures Extended(a, months).day == Extended(b, months).day <==> BothClamped(a, b, months)
  {
    AdvancesExactly(a, months);
    AdvancesExactly(b, months);
  }

  /**
   To the millisecond a later base can give an earlier expiry: exactly when both are clamped to one day and the later
   base is earlier in its day.
   */
  lemma MonotoneIff(a: Moment, b: Moment, months: int)
    requires Before(a, b)
    ensures !Before(Extended(b, months), Extended(a, months)) <==> !(BothClamped(a, b, months) && b.ms < a.ms)
  {
    MonotoneInDays(a, b, months);
    if a.day < b.day {
      SameDayIff(a, b, months);
    }
  }

  lemma January(year: int, date: int)
    requires 1 <= date <= 31
    ensures MonthOf(First(12 * year) + date - 1) == 12 * year && DateOf(First(12 * year) + date - 1) == date
    ensures Length(12 * year + 1) <= 29
  {
    MonthLength(year, 0);
    MonthLength(year, 1);
    DateAt(12 * year, date);
  }

  /** Noon on 30 January and midnight at the start of 31 January, a month on. */
  lemma LaterBaseEarlierExpiry(year: int, a: Moment, b: Moment)
    requires a == Moment(First(12 * year) + 29, 43_200_000) && b == Moment(First(12 * year) + 30, 0)
    ensures Before(a, b) && Before(Extended(b, 1), Extended(a, 1))
  {
    January(year, 30);
    January(year, 31);
    MonotoneIff(a, b, 1);
  }

  /**
   Two extensions are never later than one, and equal exactly when the month between cut no day the last one keeps.
   */
  lemma TwiceIsNotLater(base: Moment, m: int, n: int)
    ensures var once, twice := Extended(base, m + n), Extended(Extended(base, m), n);
      && !Before(once, twice)
      && (once == twice <==> Length(MonthOf(base.day) + m) >= Min(DateOf(base.day), Length(MonthOf(base.day) + m + n)))
  {
    AdvancesExactly(base, m);
  }

  lemma TwiceIsOnceForShortDays(base: Moment, m: int, n: int)
    requires DateOf(base.day) <= 28
    ensures Extended(Extended(base, m), n) == Extended(base, m + n)
  {
    TwiceIsNotLater(base, m, n);
  }

  /** 31 January and 1 month, then 1 month more, falls short of 31 March in every year. */
  lemma TwiceCanBeEarlier(year: int, base: Moment)
    requires base.day == First(12 * year) + 30
    ensures Extended(Extended(base, 1), 1) != Extended(base, 2)
  {
    January(year, 31);
    MonthLength(year, 2);
    TwiceIsNotLater(base, 1, 1);
  }
}
