/** What the stages of the cron search pass over (framework/cron/croncpp.hpp), for any expression:
    up to the minute they land in, no match, with one exception in the month stage. */
module CronPasses {
  import opened CronCalendar
  import opened CronSteps
  import opened CronDays
  import opened CronSearch
  import opened CronFind

  // ---- Minutes and hours counted from the year 1 ------------------------------------

  function HourNumber(d: Date): int
    requires 0 <= d.mon < 12
  {
    Day(d) * 24 + d.hour
  }

  function MinuteNumber(d: Date): int
    requires 0 <= d.mon < 12
  {
    HourNumber(d) * 60 + d.min
  }

  lemma {:induction false} InstantOfMinute(d: Date)
    requires 0 <= d.mon < 12
    ensures Instant(d) == MinuteNumber(d) * 60 + d.sec
  {
  }

  lemma {:induction false} OneDateAMinute(x: Date, y: Date)
    requires Valid(x) && Valid(y) && MinuteNumber(x) == MinuteNumber(y)
    ensures SameDay(x, y) && x.hour == y.hour && x.min == y.min
  {
    OneDateADay(x, y);
  }

  // ---- Nothing passed over -------------------------------------------------------------

  /** From `d` on, and before the minute of `e`, no date matches. */
  ghost predicate NoneBetween(c: CronExpr, d: Date, e: Date)
    requires ValidExpr(c) && Valid(d) && Valid(e)
  {
    forall x {:trigger Matches(c, x)} | Valid(x) && Instant(d) <= Instant(x) && MinuteNumber(x) < MinuteNumber(e) ::
      !Matches(c, x)
  }

  /** No date in the minutes from that of `d` up to that of `e` matches. */
  ghost predicate MinutesClear(c: CronExpr, d: Date, e: Date)
    requires ValidExpr(c) && Valid(d) && Valid(e)
  {
    forall x {:trigger Matches(c, x)} | Valid(x) && MinuteNumber(d) <= MinuteNumber(x) < MinuteNumber(e) ::
      !Matches(c, x)
  }

  // ---- The clock and the days ------------------------------------------------------

  lemma {:induction false} SecondPasses(c: CronExpr, d: Date)
    requires ValidExpr(c) && Valid(d)
    ensures var e := SecondStep(c, d); Valid(e) && NoneBetween(c, d, e)
  {
    var e := SecondStep(c, d);
    StepSecond(c, d);
    if NextBit(c.seconds, d.sec) == 60 {
      SecondWraps(c, d);
      NextMinuteOnly(c, d, e);
    } else {
      SecondUp(c, d);
      SameMinute(c, d, e);
    }
  }

  lemma {:induction false} SecondUp(c: CronExpr, d: Date)
    requires ValidExpr(c) && Valid(d) && NextBit(c.seconds, d.sec) < 60
    ensures SecondStep(c, d) == d.(sec := NextBit(c.seconds, d.sec))
  {
    if !c.seconds[d.sec] {
      StepUp(c.seconds, d, Second, Minute, NO_MARKS);
    }
  }

  lemma {:induction false} SecondWraps(c: CronExpr, d: Date)
    requires ValidExpr(c) && Valid(d) && NextBit(c.seconds, d.sec) == 60
    ensures SecondStep(c, d) == TickMinute(d).(sec := FirstBit(c.seconds))
    ensures Valid(TickMinute(d)) && MinuteNumber(SecondStep(c, d)) == MinuteNumber(d) + 1
  {
    StepWraps(c.seconds, d, Second, Minute, NO_MARKS);
    MktimeMinute(d);
    TickMinuteNumber(d);
  }

  lemma {:induction false} TickMinuteNumber(d: Date)
    requires Valid(d)
    ensures MinuteNumber(TickMinute(d)) == MinuteNumber(d) + 1 && Valid(TickMinute(d))
  {
    TickMinuteInstant(d);
    InstantOfMinute(d);
    InstantOfMinute(TickMinute(d));
  }

  lemma {:induction false} NextMinuteOnly(c: CronExpr, d: Date, e: Date)
    requires ValidExpr(c) && Valid(d) && Valid(e) && NextBit(c.seconds, d.sec) == 60
    requires MinuteNumber(e) == MinuteNumber(d) + 1
    ensures NoneBetween(c, d, e)
  {
    forall x | Valid(x) && Instant(d) <= Instant(x) && MinuteNumber(x) < MinuteNumber(e)
      ensures !Matches(c, x)
    {
      LaterSecond(d, x);
    }
  }

  lemma {:induction false} LaterSecond(d: Date, x: Date)
    requires Valid(d) && Valid(x) && Instant(d) <= Instant(x)
    ensures MinuteNumber(d) <= MinuteNumber(x)
    ensures MinuteNumber(x) == MinuteNumber(d) ==> d.sec <= x.sec
  {
    InstantOfMinute(d);
    InstantOfMinute(x);
  }

  lemma {:induction false} SameMinute(c: CronExpr, d: Date, e: Date)
    requires ValidExpr(c) && Valid(d) && Valid(e) && e == d.(sec := e.sec)
    ensures NoneBetween(c, d, e)
  {
    forall x | Valid(x) && Instant(d) <= Instant(x) ensures MinuteNumber(e) <= MinuteNumber(x) {
      LaterSecond(d, x);
    }
  }

  lemma {:induction false} MinutePasses(c: CronExpr, d: Date, m: Marks)
    requires ValidExpr(c) && Valid(d) && m == Marks(m.second, false, false, false) && !c.minutes[d.min]
    ensures var e := Step(c.minutes, d, Minute, Hour, m); Valid(e) && MinutesClear(c, d, e)
  {
    StepMinute(c, d, m);
    MinuteLands(c, d, m);
    MinutesNotAdmitted(c, d, MinuteNumber(Step(c.minutes, d, Minute, Hour, m)));
  }

  lemma {:induction false} MinuteLands(c: CronExpr, d: Date, m: Marks)
    requires ValidExpr(c) && Valid(d) && m == Marks(m.second, false, false, false) && !c.minutes[d.min]
    ensures
      var n := NextBit(c.minutes, d.min);
      var e := Step(c.minutes, d, Minute, Hour, m);
      0 <= e.mon < 12 &&
      MinuteNumber(e) == if n == 60 then (HourNumber(d) + 1) * 60 + FirstBit(c.minutes) else HourNumber(d) * 60 + n
  {
    if NextBit(c.minutes, d.min) == 60 {
      MinuteWraps(c, d, m);
      TickHourNumber(d);
      MinuteOfReset(TickHour(d), FirstBit(c.minutes), m);
    } else {
      MinuteUp(c, d, m);
      MinuteOfReset(d, NextBit(c.minutes, d.min), m);
    }
  }

  lemma {:induction false} MinuteOfReset(d: Date, min: int, m: Marks)
    requires Valid(d) && 0 <= min < 60 && m == Marks(m.second, false, false, false)
    ensures MinuteNumber(Reset(d.(min := min), m)) == HourNumber(d) * 60 + min
  {
  }

  lemma {:induction false} TickHourNumber(d: Date)
    requires Valid(d)
    ensures HourNumber(TickHour(d)) == HourNumber(d) + 1 && Valid(TickHour(d))
  {
    if d.hour == 23 {
      NextDayNumber(d);
    }
  }

  lemma {:induction false} MinutesNotAdmitted(c: CronExpr, d: Date, end: int)
    requires ValidExpr(c) && Valid(d)
    requires var n := NextBit(c.minutes, d.min);
      end == if n == 60 then (HourNumber(d) + 1) * 60 + FirstBit(c.minutes) else HourNumber(d) * 60 + n
    ensures forall x {:trigger Matches(c, x)} | Valid(x) && MinuteNumber(d) <= MinuteNumber(x) < end :: !Matches(c, x)
  {
    forall x | Valid(x) && MinuteNumber(d) <= MinuteNumber(x) < end ensures !Matches(c, x) {
      assert HourNumber(x) == HourNumber(d) || HourNumber(x) == HourNumber(d) + 1;
    }
  }

  lemma {:induction false} HourPasses(c: CronExpr, d: Date, m: Marks)
    requires ValidExpr(c) && Valid(d) && m == Marks(m.second, m.minute, false, false) && !c.hours[d.hour]
    requires m.minute || d.min == 0
    ensures var e := Step(c.hours, d, Hour, DayOfWeek, m); Valid(e) && MinutesClear(c, d, e)
  {
    var e := Step(c.hours, d, Hour, DayOfWeek, m);
    StepHour(c, d, m);
    HourLands(c, d, m);
    HoursNotAdmitted(c, d, e);
  }

  lemma {:induction false} HourLands(c: CronExpr, d: Date, m: Marks)
    requires ValidExpr(c) && Valid(d) && m == Marks(m.second, m.minute, false, false) && !c.hours[d.hour]
    ensures
      var n := NextBit(c.hours, d.hour);
      var e := Step(c.hours, d, Hour, DayOfWeek, m);
      0 <= e.mon < 12 &&
      HourNumber(e) == if n == 24 then (Day(d) + 1) * 24 + FirstBit(c.hours) else Day(d) * 24 + n
  {
    if NextBit(c.hours, d.hour) == 24 {
      HourWraps(c, d, m);
      NextDayNumber(d);
      HourOfReset(NextDay(d), FirstBit(c.hours), m);
    } else {
      HourUp(c, d, m);
      HourOfReset(d, NextBit(c.hours, d.hour), m);
    }
  }

  lemma {:induction false} HourOfReset(d: Date, hour: int, m: Marks)
    requires Valid(d) && 0 <= hour < 24 && !m.hour && !m.mday
    ensures HourNumber(Reset(d.(hour := hour), m)) == Day(d) * 24 + hour
  {
  }

  lemma {:induction false} HoursNotAdmitted(c: CronExpr, d: Date, e: Date)
    requires ValidExpr(c) && Valid(d) && Valid(e) && e.min == 0
    requires var n := NextBit(c.hours, d.hour);
      HourNumber(e) == if n == 24 then (Day(d) + 1) * 24 + FirstBit(c.hours) else Day(d) * 24 + n
    ensures MinutesClear(c, d, e)
  {
    forall x | Valid(x) && MinuteNumber(d) <= MinuteNumber(x) < MinuteNumber(e) ensures !Matches(c, x) {
      assert HourNumber(d) <= HourNumber(x) < HourNumber(e);
      assert Day(x) == Day(d) || Day(x) == Day(d) + 1;
    }
  }

  lemma {:induction false} DayPasses(c: CronExpr, d: Date, m: Marks)
    requires ValidExpr(c) && Valid(d) && !m.mday && !DayMatches(c, d)
    requires (m.minute || d.min == 0) && (m.hour || d.hour == 0)
    ensures var e := Scan(c, d, m); Valid(e) && MinutesClear(c, d, e)
  {
    var e := Scan(c, d, m);
    ScanMoves(c, d, m);
    forall x | Valid(x) && MinuteNumber(d) <= MinuteNumber(x) < MinuteNumber(e) ensures !Matches(c, x) {
      assert Day(d) <= Day(x) < Day(e);
      if DayMatches(c, x) {
        ScanPassesNone(c, d, m, x);
      }
    }
  }

  // ---- The month ---------------------------------------------------------------------

  /** A year later the day of the month is the same, or 1 for a leap day. */
  lemma {:induction false} YearCarried(d: Date)
    requires Valid(d)
    ensures
      var e := Mktime(d.(year := d.year + 1));
      && Valid(e) && e.year == d.year + 1
      && e.mday == (if d.mday <= DaysIn(d.year + 1, d.mon) then d.mday else 1)
      && e.hour == d.hour && e.min == d.min && e.sec == d.sec
  {
    MktimeYear(d);
    if d.mday > DaysIn(d.year + 1, d.mon) {
      assert CarryDays(d.year + 1, d.mon, d.mday) ==
             CarryDays(d.year + 1, d.mon + 1, d.mday - DaysIn(d.year + 1, d.mon));
    }
  }

  /** Where the month stage lands: on the first of the month it set, or of the month after it if
      the day of the month does not exist there. */
  function MonthLanding(c: CronExpr, x: Date, m: Marks): Date
    requires ValidExpr(c) && Valid(x)
  {
    var t := MonthTarget(c, x);
    Reset(Date(t.0, if Overflows(c, x) then t.1 + 1 else t.1, 1, x.hour, x.min, x.sec), m)
  }

  lemma {:induction false} MonthUpLands(c: CronExpr, x: Date, m: Marks)
    requires ValidExpr(c) && Valid(x) && m.mday && x.mon < NextBit(c.months, x.mon) < 12
    ensures Step(c.months, x, Month, Year, m) == MonthLanding(c, x, m)
  {
    MktimeMonth(x, NextBit(c.months, x.mon));
  }

  lemma {:induction false} MonthWrapLands(c: CronExpr, x: Date, m: Marks)
    requires ValidExpr(c) && Valid(x) && m.mday && NextBit(c.months, x.mon) == 12
    ensures Step(c.months, x, Month, Year, m) == MonthLanding(c, x, m)
  {
    YearCarried(x);
    var carried := Mktime(x.(year := x.year + 1)).(mon := 0);
    var n := FirstBit(c.months);
    assert Step(c.months, x, Month, Year, m) == Reset(Mktime(carried.(mon := n)), m);
    MktimeMonth(carried, n);
    ResetOnFirst(c, x, WithMonth(carried, n), m);
  }

  lemma {:induction false} ResetOnFirst(c: CronExpr, x: Date, e: Date, m: Marks)
    requires ValidExpr(c) && Valid(x) && m.mday
    requires var t := MonthTarget(c, x);
      e.year == t.0 && e.mon == (if Overflows(c, x) then t.1 + 1 else t.1) && e.hour == x.hour && e.min == x.min && e.sec == x.sec
    ensures Reset(e, m) == MonthLanding(c, x, m)
  {
  }

  /** From a date in a month that is not admitted the stage lands in the month it sets if and only
      if the day of the month exists there. */
  lemma {:induction false} MonthLandsIff(c: CronExpr, x: Date, m: Marks)
    requires ValidExpr(c) && Valid(x) && m.mday && !c.months[x.mon]
    ensures
      var e := Step(c.months, x, Month, Year, m);
      var t := MonthTarget(c, x);
      && e == MonthLanding(c, x, m) && Valid(e)
      && (e.year == t.0 && e.mon == t.1 <==> t.2 <= DaysIn(t.0, t.1))
  {
    StepMonth(c, x, m);
    if NextBit(c.months, x.mon) < 12 {
      MonthUpLands(c, x, m);
    } else {
      MonthWrapLands(c, x, m);
    }
  }

  /** A date from `x` up to the landing is in a month that is not admitted, or in the set month,
      which then has overflowed. */
  lemma {:induction false} MonthsBetween(c: CronExpr, x: Date, e: Date, y: Date)
    requires ValidExpr(c) && Valid(x) && Valid(e) && Valid(y) && Day(x) <= Day(y) < Day(e)
    requires var t := MonthTarget(c, x);
      e.mday == 1 && e.year == t.0 && e.mon == if Overflows(c, x) then t.1 + 1 else t.1
    ensures var t := MonthTarget(c, x);
      !c.months[y.mon] || (Overflows(c, x) && y.year == t.0 && y.mon == t.1)
  {
    DayOrder(x, y);
    DayOrder(y, e);
  }

  lemma {:induction false} DayOfOffer(c: CronExpr, y: Date)
    requires ValidExpr(c) && Valid(y) && DayMatches(c, y)
    ensures OffersDay(c, y.year, y.mon)
  {
    SameDaySameMatch(c, y, Date(y.year, y.mon, y.mday, 0, 0, 0));
  }

  /** If the overflowed month offers a day, one of its dates matches. */
  lemma {:induction false} OfferMatches(c: CronExpr, year: int, mon: int) returns (y: Date)
    requires ValidExpr(c) && 0 <= mon < 12 && c.months[mon] && OffersDay(c, year, mon)
    ensures Valid(y) && Matches(c, y) && y.year == year && y.mon == mon
  {
    var k :| 1 <= k <= DaysIn(year, mon) && DayMatches(c, Date(year, mon, k, 0, 0, 0));
    y := Date(year, mon, k, FirstBit(c.hours), FirstBit(c.minutes), FirstBit(c.seconds));
    SameDaySameMatch(c, Date(year, mon, k, 0, 0, 0), y);
  }

  /** The month stage passes over no match if and only if the month was kept. */
  lemma {:induction false} MonthPassesIff(c: CronExpr, x: Date, m: Marks)
    requires ValidExpr(c) && Valid(x) && m.mday && !c.months[x.mon]
    requires (m.minute || x.min == 0) && (m.hour || x.hour == 0)
    ensures var e := Step(c.months, x, Month, Year, m); Valid(e) && (NoneBetween(c, x, e) <==> KeepsMonth(c, x))
  {
    var e := Step(c.months, x, Month, Year, m);
    MonthLandsIff(c, x, m);
    if KeepsMonth(c, x) {
      KeptPasses(c, x, e);
    } else {
      var t := MonthTarget(c, x);
      var y := OfferMatches(c, t.0, t.1);
      OfferIsBetween(c, x, e, y);
    }
  }

  lemma {:induction false} KeptPasses(c: CronExpr, x: Date, e: Date)
    requires ValidExpr(c) && Valid(x) && Valid(e) && Midnight(e) && KeepsMonth(c, x)
    requires var t := MonthTarget(c, x);
      e.mday == 1 && e.year == t.0 && e.mon == if Overflows(c, x) then t.1 + 1 else t.1
    ensures NoneBetween(c, x, e)
  {
    forall y | Valid(y) && Instant(x) <= Instant(y) && MinuteNumber(y) < MinuteNumber(e) ensures !Matches(c, y) {
      assert Day(x) <= Day(y) < Day(e);
      MonthsBetween(c, x, e, y);
      if DayMatches(c, y) {
        DayOfOffer(c, y);
      }
    }
  }

  lemma {:induction false} OfferIsBetween(c: CronExpr, x: Date, e: Date, y: Date)
    requires ValidExpr(c) && Valid(x) && Valid(e) && Midnight(e) && Overflows(c, x) && !c.months[x.mon]
    requires var t := MonthTarget(c, x); e.mday == 1 && e.year == t.0 && e.mon == t.1 + 1
    requires var t := MonthTarget(c, x); Valid(y) && Matches(c, y) && y.year == t.0 && y.mon == t.1
    ensures !NoneBetween(c, x, e)
  {
    if y.year > x.year {
      LaterYear(x, y);
    } else {
      LaterMonth(x, y);
    }
    LaterMonth(y, e);
    assert MinuteNumber(y) < MinuteNumber(e);
  }
}
