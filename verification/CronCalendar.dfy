/** The broken-down time that the cron search mutates: a Gregorian calendar without
    daylight-saving jumps, in which `mktime` normalises overflowing fields. Years are full
    years, months count from 0 and days of the month from 1, as in `std::tm`. */
module CronCalendar {
  datatype Date = Date(year: int, mon: int, mday: int, hour: int, min: int, sec: int)

  predicate Leap(year: int) { year % 4 == 0 && (year % 100 != 0 || year % 400 == 0) }

  function DaysIn(year: int, mon: int): (n: int)
    requires 0 <= mon < 12
    ensures 28 <= n <= 31
  {
    if mon == 1 then (if Leap(year) then 29 else 28)
    else if mon == 3 || mon == 5 || mon == 8 || mon == 10 then 30
    else 31
  }

  predicate ValidDay(year: int, mon: int, mday: int) { 0 <= mon < 12 && 1 <= mday <= DaysIn(year, mon) }

  predicate Valid(d: Date) {
    ValidDay(d.year, d.mon, d.mday) && 0 <= d.hour < 24 && 0 <= d.min < 60 && 0 <= d.sec < 60
  }

  // ---- Days and seconds since 1 January of the year 1 -------------------------

  function DaysBeforeYear(year: int): int {
    365 * (year - 1) + (year - 1) / 4 - (year - 1) / 100 + (year - 1) / 400
  }

  function DaysBeforeMonth(year: int, mon: int): (n: int)
    requires 0 <= mon < 12
  {
    var leapDay := if mon > 1 && Leap(year) then 1 else 0;
    [0, 31, 59, 90, 120, 151, 181, 212, 243, 273, 304, 334][mon] + leapDay
  }

  /** `mday` may run past the end of the month. */
  function DayNumber(year: int, mon: int, mday: int): int
    requires 0 <= mon < 12
  {
    DaysBeforeYear(year) + DaysBeforeMonth(year, mon) + mday - 1
  }

  function Day(d: Date): int
    requires 0 <= d.mon < 12
  {
    DayNumber(d.year, d.mon, d.mday)
  }

  /** 0 for Sunday; 1 January of the year 1 was a Monday. */
  function Weekday(d: Date): (w: int)
    requires 0 <= d.mon < 12
    ensures 0 <= w < 7
  {
    (Day(d) + 1) % 7
  }

  function SecondOfDay(d: Date): int { (d.hour * 60 + d.min) * 60 + d.sec }

  function Instant(d: Date): int
    requires 0 <= d.mon < 12
  {
    Day(d) * 86400 + SecondOfDay(d)
  }

  // ---- mktime ------------------------------------------------------------------

  /** The year, month and day of a day counted from the first of a month. */
  function CarryDays(year: int, mon: int, mday: int): (r: (int, int, int))
    requires 0 <= mon < 12 && mday >= 1
    ensures ValidDay(r.0, r.1, r.2)
    decreases mday
  {
    if mday <= DaysIn(year, mon) then (year, mon, mday)
    else if mon < 11 then CarryDays(year, mon + 1, mday - DaysIn(year, mon))
    else CarryDays(year + 1, 0, mday - DaysIn(year, mon))
  }

  /** Fields that may overflow but not underflow; the search never produces others. */
  predicate Raw(d: Date) { d.mon >= 0 && d.mday >= 1 && d.hour >= 0 && d.min >= 0 && d.sec >= 0 }

  function Mktime(d: Date): (r: Date)
    requires Raw(d)
    ensures Valid(r)
  {
    var min := d.min + d.sec / 60;
    var hour := d.hour + min / 60;
    var mday := d.mday + hour / 24;
    var day := CarryDays(d.year + d.mon / 12, d.mon % 12, mday);
    Date(day.0, day.1, day.2, hour % 24, min % 60, d.sec % 60)
  }

  /** Twelve months more are a year more. */
  lemma {:induction false} MonthsCarry(d: Date)
    requires Raw(d)
    ensures Mktime(d.(mon := d.mon + 12)) == Mktime(d.(year := d.year + 1))
  {
    var n := d.mon / 12;
    assert d.mon + 12 == 12 * (n + 1) + d.mon % 12;
  }

  // ---- Facts about the calendar ---------------------------------------------------

  function YearDays(year: int): int { if Leap(year) then 366 else 365 }

  lemma {:induction false} YearLength(year: int)
    ensures DaysBeforeYear(year + 1) == DaysBeforeYear(year) + YearDays(year)
  {
    DivStep(year, 4);
    DivStep(year, 100);
    DivStep(year, 400);
    Divisible(year);
    var a, b, c := (year - 1) / 4, (year - 1) / 100, (year - 1) / 400;
    assert DaysBeforeYear(year) == 365 * (year - 1) + a - b + c;
    assert DaysBeforeYear(year + 1) == 365 * year + year / 4 - year / 100 + year / 400;
  }

  lemma {:induction false} Divisible(y: int)
    ensures y % 400 == 0 ==> y % 100 == 0
    ensures y % 100 == 0 ==> y % 4 == 0
  {
    if y % 400 == 0 {
      Hundreds(y, y / 400);
    }
    if y % 100 == 0 {
      Fours(y, y / 100);
    }
  }

  lemma {:induction false} Hundreds(y: int, k: int)
    requires y == 400 * k
    ensures y % 100 == 0
  {
    assert y == 100 * (4 * k);
  }

  lemma {:induction false} Fours(y: int, k: int)
    requires y == 100 * k
    ensures y % 4 == 0
  {
    assert y == 4 * (25 * k);
  }

  lemma {:induction false} DivStep(y: int, n: int)
    requires n == 4 || n == 100 || n == 400
    ensures y / n == (y - 1) / n + if y % n == 0 then 1 else 0
  {
  }

  lemma {:induction false} MonthLength(year: int, mon: int)
    requires 0 <= mon < 12
    ensures DaysBeforeMonth(year, mon) + DaysIn(year, mon) ==
            if mon == 11 then YearDays(year) else DaysBeforeMonth(year, mon + 1)
  {
  }

  /** The day after a valid day. */
  function NextDay(d: Date): (r: Date)
    requires Valid(d)
    ensures Valid(r)
  {
    if d.mday < DaysIn(d.year, d.mon) then d.(mday := d.mday + 1)
    else if d.mon < 11 then d.(mon := d.mon + 1, mday := 1)
    else d.(year := d.year + 1, mon := 0, mday := 1)
  }

  lemma {:induction false} NextDayNumber(d: Date)
    requires Valid(d)
    ensures Day(NextDay(d)) == Day(d) + 1
    ensures Weekday(NextDay(d)) == (Weekday(d) + 1) % 7
  {
    if d.mday == DaysIn(d.year, d.mon) {
      MonthLength(d.year, d.mon);
      YearLength(d.year);
    }
    WeekdayStep(Day(d));
  }

  lemma {:induction false} WeekdayStep(n: int)
    ensures (n + 2) % 7 == ((n + 1) % 7 + 1) % 7
  {
  }

  /** Carrying days keeps the day number: `mktime` names the day that was counted to. */
  lemma {:induction false} CarryDaysSameDay(year: int, mon: int, mday: int)
    requires 0 <= mon < 12 && mday >= 1
    ensures var r := CarryDays(year, mon, mday); DayNumber(r.0, r.1, r.2) == DayNumber(year, mon, mday)
    decreases mday
  {
    var n := DaysIn(year, mon);
    MonthLength(year, mon);
    if mday <= n {
    } else if mon < 11 {
      CarryDaysSameDay(year, mon + 1, mday - n);
    } else {
      YearLength(year);
      CarryDaysSameDay(year + 1, 0, mday - n);
    }
  }

  lemma {:induction false} MktimeParts(d: Date)
    requires Raw(d) && d.mon < 12
    ensures
      var min := d.min + d.sec / 60;
      var hour := d.hour + min / 60;
      && Day(Mktime(d)) == Day(d) + hour / 24
      && SecondOfDay(Mktime(d)) == ((hour % 24) * 60 + min % 60) * 60 + d.sec % 60
  {
    CarryDaysSameDay(d.year, d.mon, d.mday + (d.hour + (d.min + d.sec / 60) / 60) / 24);
  }

  /** `mktime` keeps the instant that the overflowing fields add up to. */
  lemma {:induction false} MktimeSameInstant(d: Date)
    requires Raw(d) && d.mon < 12
    ensures Instant(Mktime(d)) == Day(d) * 86400 + SecondOfDay(d)
  {
    var min := d.min + d.sec / 60;
    var hour := d.hour + min / 60;
    MktimeParts(d);
    CarryClock(d.hour, d.min, d.sec);
    AddUp(Mktime(d), Day(d), hour / 24, ((hour % 24) * 60 + min % 60) * 60 + d.sec % 60);
  }

  lemma {:induction false} AddUp(e: Date, day: int, days: int, seconds: int)
    requires 0 <= e.mon < 12 && Day(e) == day + days && SecondOfDay(e) == seconds
    ensures Instant(e) == day * 86400 + (days * 86400 + seconds)
  {
  }

  lemma {:induction false} CarryClock(hour: int, min: int, sec: int)
    ensures
      var m := min + sec / 60;
      var h := hour + m / 60;
      (h / 24) * 86400 + ((h % 24) * 60 + m % 60) * 60 + sec % 60 == (hour * 60 + min) * 60 + sec
  {
  }

  lemma {:induction false} MktimeValid(d: Date)
    requires Valid(d)
    ensures Mktime(d) == d
  {
  }

  // ---- The order of days and instants ------------------------------------------------

  lemma {:induction false} YearsAscend(y1: int, y2: int)
    requires y1 < y2
    ensures DaysBeforeYear(y1) + YearDays(y1) <= DaysBeforeYear(y2)
    decreases y2 - y1
  {
    YearLength(y1);
    if y1 + 1 < y2 {
      YearsAscend(y1 + 1, y2);
    }
  }

  lemma {:induction false} DayInYear(d: Date)
    requires Valid(d)
    ensures DaysBeforeYear(d.year) <= Day(d) < DaysBeforeYear(d.year) + YearDays(d.year)
  {
  }

  lemma {:induction false} LaterYear(d: Date, e: Date)
    requires Valid(d) && Valid(e) && d.year < e.year
    ensures Day(d) < Day(e) && Instant(d) < Instant(e)
  {
    DayInYear(d);
    DayInYear(e);
    YearsAscend(d.year, e.year);
    LaterDay(d, e);
  }

  lemma {:induction false} LaterMonth(d: Date, e: Date)
    requires Valid(d) && Valid(e) && d.year == e.year && d.mon < e.mon
    ensures Day(d) < Day(e) && Instant(d) < Instant(e)
  {
    assert Day(d) < Day(e);
    LaterDay(d, e);
  }

  lemma {:induction false} LaterDay(d: Date, e: Date)
    requires Valid(d) && Valid(e) && Day(d) < Day(e)
    ensures Instant(d) < Instant(e)
  {
    assert 0 <= SecondOfDay(d) < 86400 && 0 <= SecondOfDay(e) < 86400;
  }
}
