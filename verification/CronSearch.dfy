/** The stages of the recursive search for the next matching time (`find_next` of
    framework/cron/croncpp.hpp): for every expression each moves only forward, and to a time that is
    within reach of the first year, so that the search ends. */
module CronSearch {
  import opened CronCalendar
  import opened CronSteps
  import opened CronDays

  const MAX_YEARS_DIFF: int := 4

  // ---- Single ticks -----------------------------------------------------------

  function TickHour(d: Date): Date
    requires Valid(d)
  {
    if d.hour < 23 then d.(hour := d.hour + 1) else NextDay(d).(hour := 0)
  }

  function TickMinute(d: Date): Date
    requires Valid(d)
  {
    if d.min < 59 then d.(min := d.min + 1) else TickHour(d.(min := 0))
  }

  lemma {:induction false} MktimeHour(d: Date)
    requires Valid(d)
    ensures Mktime(d.(hour := d.hour + 1)) == TickHour(d)
  {
    if d.hour == 23 {
      MktimeNextDay(d);
      HourCarries(d);
    } else {
      MktimeValid(d.(hour := d.hour + 1));
    }
  }

  lemma {:induction false} HourCarries(d: Date)
    requires Valid(d)
    ensures Mktime(d.(hour := 24)) == Mktime(d.(mday := d.mday + 1)).(hour := 0)
  {
    var next := CarryDays(d.year, d.mon, d.mday + 1);
    assert Mktime(d.(mday := d.mday + 1)) == Date(next.0, next.1, next.2, d.hour, d.min, d.sec);
    assert Mktime(d.(hour := 24)) == Date(next.0, next.1, next.2, 0, d.min, d.sec);
  }

  lemma {:induction false} MinuteCarries(d: Date)
    requires Raw(d) && d.sec < 60
    ensures Mktime(d.(min := 60)) == Mktime(d.(min := 0, hour := d.hour + 1))
  {
  }

  lemma {:induction false} MktimeMinute(d: Date)
    requires Valid(d)
    ensures Mktime(d.(min := d.min + 1)) == TickMinute(d)
  {
    if d.min == 59 {
      MktimeHour(d.(min := 0));
      MinuteCarries(d);
    } else {
      MktimeValid(d.(min := d.min + 1));
    }
  }

  lemma {:induction false} TickHourInstant(d: Date)
    requires Valid(d)
    ensures Valid(TickHour(d)) && Instant(TickHour(d)) == Instant(d) + 3600
  {
    if d.hour == 23 {
      NextDayNumber(d);
    }
  }

  lemma {:induction false} TickMinuteInstant(d: Date)
    requires Valid(d)
    ensures Valid(TickMinute(d)) && Instant(TickMinute(d)) == Instant(d) + 60
  {
    if d.min == 59 {
      TickHourInstant(d.(min := 0));
      assert Instant(d.(min := 0)) == Instant(d) - 59 * 60;
    }
  }

  // ---- What one field step does -------------------------------------------------

  /** The clock is at the bottom of each field or at an admitted value, so no step carries. */
  predicate Settled(c: CronExpr, d: Date)
    requires ValidExpr(c) && Valid(d)
  {
    (d.sec == 0 || c.seconds[d.sec]) && (d.min == 0 || c.minutes[d.min]) && (d.hour == 0 || c.hours[d.hour])
  }

  /** A move that may carry into the next year, and then starts the year's first hour. */
  predicate Moves(d: Date, e: Date) {
    e.year == d.year || (e.year == d.year + 1 && e.hour == 0 && e.mon == 0 && e.mday == 1)
  }

  /** The facts of a step that finds a value above the current one in the same field. */
  lemma {:induction false} StepUp(bits: seq<bool>, d: Date, f: Field, carry: Field, m: Marks)
    requires Valid(d) && SomeBit(bits) && (f == Second || f == Minute || f == Hour)
    requires |bits| == (match f case Second => 60 case Minute => 60 case _ => 24)
    requires !bits[Value(d, f)] && NextBit(bits, Value(d, f)) < |bits|
    ensures
      var n := NextBit(bits, Value(d, f));
      n > Value(d, f) && bits[n] && Step(bits, d, f, carry, m) == Reset(Put(d, f, n), m)
  {
    MktimeValid(Put(d, f, NextBit(bits, Value(d, f))));
  }

  /** The facts of a step that carries into the next field. */
  lemma {:induction false} StepWraps(bits: seq<bool>, d: Date, f: Field, carry: Field, m: Marks)
    requires Valid(d) && SomeBit(bits) && (f == Second || f == Minute || f == Hour)
    requires |bits| == (match f case Second => 60 case Minute => 60 case _ => 24)
    requires NextBit(bits, Value(d, f)) == |bits|
    ensures
      var carried := Mktime(AddOne(d, carry));
      Step(bits, d, f, carry, m) == Reset(Put(carried, f, FirstBit(bits)), m)
    ensures Value(d, f) != 0 && !bits[Value(d, f)]
  {
    var carried := Mktime(AddOne(d, carry));
    MktimeValid(Put(Put(carried, f, 0), f, FirstBit(bits)));
  }

  /** A later clock time after a tick, or on the same day, is a later instant. */
  lemma {:induction false} ClockMoves(d: Date, e: Date)
    requires Valid(d) && Valid(e) && SameDay(d, e)
    ensures Instant(e) - Instant(d) == SecondOfDay(e) - SecondOfDay(d)
  {
  }

  lemma {:induction false} MinuteThenSecond(d: Date, sec: int)
    requires Valid(d) && d.sec != 0 && 0 <= sec < 60
    ensures
      var e := TickMinute(d).(sec := sec);
      Valid(e) && Moves(d, e) && Instant(e) > Instant(d) && (e.year != d.year ==> e.min == 0)
  {
    TickMinuteInstant(d);
    ClockMoves(TickMinute(d), TickMinute(d).(sec := sec));
  }

  lemma {:induction false} StepSecond(c: CronExpr, d: Date)
    requires ValidExpr(c) && Valid(d)
    ensures
      var e := Step(c.seconds, d, Second, Minute, NO_MARKS);
      && Valid(e) && c.seconds[e.sec] && Moves(d, e)
      && (c.seconds[d.sec] ==> e == d)
      && (!c.seconds[d.sec] ==> Instant(e) > Instant(d))
      && (d.sec == 0 ==> e == d.(sec := e.sec))
      && (e.year != d.year ==> e.min == 0)
  {
    var e := Step(c.seconds, d, Second, Minute, NO_MARKS);
    if NextBit(c.seconds, d.sec) == 60 {
      StepWraps(c.seconds, d, Second, Minute, NO_MARKS);
      MktimeMinute(d);
      MinuteThenSecond(d, FirstBit(c.seconds));
    } else if !c.seconds[d.sec] {
      StepUp(c.seconds, d, Second, Minute, NO_MARKS);
      ClockMoves(d, e);
    }
  }

  lemma {:induction false} StepMinute(c: CronExpr, d: Date, m: Marks)
    requires ValidExpr(c) && Valid(d) && m == Marks(m.second, false, false, false)
    ensures
      var e := Step(c.minutes, d, Minute, Hour, m);
      && Valid(e) && c.minutes[e.min] && Moves(d, e)
      && (c.minutes[d.min] ==> e == d)
      && (!c.minutes[d.min] ==> Instant(e) > Instant(d) && e.sec == if m.second then 0 else d.sec)
      && (d.min == 0 ==> SameDay(d, e) && e.hour == d.hour)
  {
    if NextBit(c.minutes, d.min) == 60 {
      MinuteWraps(c, d, m);
      HourThenMinute(d, FirstBit(c.minutes), m);
    } else if !c.minutes[d.min] {
      MinuteUp(c, d, m);
      ClockMoves(d, Step(c.minutes, d, Minute, Hour, m));
    }
  }

  lemma {:induction false} MinuteWraps(c: CronExpr, d: Date, m: Marks)
    requires ValidExpr(c) && Valid(d) && NextBit(c.minutes, d.min) == 60
    ensures !c.minutes[d.min] && d.min != 0
    ensures Step(c.minutes, d, Minute, Hour, m) == Reset(TickHour(d).(min := FirstBit(c.minutes)), m)
  {
    StepWraps(c.minutes, d, Minute, Hour, m);
    MktimeHour(d);
  }

  lemma {:induction false} MinuteUp(c: CronExpr, d: Date, m: Marks)
    requires ValidExpr(c) && Valid(d) && !c.minutes[d.min] && NextBit(c.minutes, d.min) < 60
    ensures Step(c.minutes, d, Minute, Hour, m) == Reset(d.(min := NextBit(c.minutes, d.min)), m)
  {
    StepUp(c.minutes, d, Minute, Hour, m);
  }

  lemma {:induction false} HourThenMinute(d: Date, min: int, m: Marks)
    requires Valid(d) && 0 <= min < 60 && m == Marks(m.second, false, false, false)
    ensures
      var e := Reset(TickHour(d).(min := min), m);
      Valid(e) && Moves(d, e) && Instant(e) > Instant(d) && e.sec == if m.second then 0 else d.sec
  {
    TickHourInstant(d);
    ClockMoves(TickHour(d), Reset(TickHour(d).(min := min), m));
  }

  lemma {:induction false} StepHour(c: CronExpr, d: Date, m: Marks)
    requires ValidExpr(c) && Valid(d) && m == Marks(m.second, m.minute, false, false)
    ensures
      var e := Step(c.hours, d, Hour, DayOfWeek, m);
      && Valid(e) && c.hours[e.hour]
      && (e.year == d.year || (e.year == d.year + 1 && d.hour != 0))
      && (c.hours[d.hour] ==> e == d)
      && (!c.hours[d.hour] ==> Instant(e) > Instant(d) && e.min == (if m.minute then 0 else d.min) &&
                               e.sec == if m.second then 0 else d.sec)
      && (d.hour == 0 ==> SameDay(d, e))
  {
    if NextBit(c.hours, d.hour) == 24 {
      HourWraps(c, d, m);
    } else if !c.hours[d.hour] {
      HourUp(c, d, m);
    }
  }

  lemma {:induction false} HourWraps(c: CronExpr, d: Date, m: Marks)
    requires ValidExpr(c) && Valid(d) && !m.hour && !m.mday && NextBit(c.hours, d.hour) == 24
    ensures
      && !c.hours[d.hour] && d.hour != 0
      && Step(c.hours, d, Hour, DayOfWeek, m) == Reset(NextDay(d).(hour := FirstBit(c.hours)), m)
      && Instant(Reset(NextDay(d).(hour := FirstBit(c.hours)), m)) > Instant(d)
  {
    StepWraps(c.hours, d, Hour, DayOfWeek, m);
    MktimeNextDay(d);
    NextDayNumber(d);
    LaterDay(d, Reset(NextDay(d).(hour := FirstBit(c.hours)), m));
  }

  lemma {:induction false} HourUp(c: CronExpr, d: Date, m: Marks)
    requires ValidExpr(c) && Valid(d) && !m.hour && !m.mday && !c.hours[d.hour] && NextBit(c.hours, d.hour) < 24
    ensures
      var e := Step(c.hours, d, Hour, DayOfWeek, m);
      e == Reset(d.(hour := NextBit(c.hours, d.hour)), m) && Instant(e) > Instant(d)
  {
    StepUp(c.hours, d, Hour, DayOfWeek, m);
    ClockMoves(d, Reset(d.(hour := NextBit(c.hours, d.hour)), m));
  }

  /** Setting the month keeps the day of the month, or overflows into the following month. */
  function WithMonth(d: Date, mon: int): Date
    requires Valid(d) && 0 <= mon < 12
  {
    var n := DaysIn(d.year, mon);
    if d.mday <= n then d.(mon := mon) else d.(mon := mon + 1, mday := d.mday - n)
  }

  lemma {:induction false} MktimeMonth(d: Date, mon: int)
    requires Valid(d) && 0 <= mon < 12
    ensures Valid(WithMonth(d, mon)) && Mktime(d.(mon := mon)) == WithMonth(d, mon)
    ensures WithMonth(d, mon).mon >= mon && WithMonth(d, mon).year == d.year
  {
    if d.mday > DaysIn(d.year, mon) {
      assert CarryDays(d.year, mon, d.mday) == CarryDays(d.year, mon + 1, d.mday - DaysIn(d.year, mon));
    }
  }

  lemma {:induction false} MktimeYear(d: Date)
    requires Valid(d)
    ensures Valid(Mktime(d.(year := d.year + 1))) && Mktime(d.(year := d.year + 1)).year == d.year + 1
  {
    if d.mday > DaysIn(d.year + 1, d.mon) {
      assert CarryDays(d.year + 1, d.mon, d.mday) ==
             CarryDays(d.year + 1, d.mon + 1, d.mday - DaysIn(d.year + 1, d.mon));
    }
  }

  lemma {:induction false} StepMonth(c: CronExpr, d: Date, m: Marks)
    requires ValidExpr(c) && Valid(d)
    ensures
      var e := Step(c.months, d, Month, Year, m);
      && Valid(e)
      && (c.months[d.mon] ==> e == d)
      && (!c.months[d.mon] ==> Instant(e) > Instant(d))
  {
    var n := NextBit(c.months, d.mon);
    if d.mon < n < 12 {
      MonthUp(c.months, d, m);
    } else if n == 12 {
      MonthWraps(c.months, d, m);
    }
  }

  lemma {:induction false} MonthUp(bits: seq<bool>, d: Date, m: Marks)
    requires Valid(d) && |bits| == 12 && SomeBit(bits) && d.mon < NextBit(bits, d.mon) < 12
    ensures var e := Step(bits, d, Month, Year, m); Valid(e) && Instant(e) > Instant(d)
  {
    MktimeMonth(d, NextBit(bits, d.mon));
    LaterMonth(d, Step(bits, d, Month, Year, m));
  }

  lemma {:induction false} MonthWraps(bits: seq<bool>, d: Date, m: Marks)
    requires Valid(d) && |bits| == 12 && SomeBit(bits) && NextBit(bits, d.mon) == 12
    ensures var e := Step(bits, d, Month, Year, m); Valid(e) && Instant(e) > Instant(d)
  {
    MktimeYear(d);
    var carried := Mktime(d.(year := d.year + 1)).(mon := 0);
    MktimeMonth(carried, FirstBit(bits));
    var e := Step(bits, d, Month, Year, m);
    assert e == Reset(Mktime(carried.(mon := FirstBit(bits))), m);
    LaterYear(d, e);
  }

  // ---- How far the search can get --------------------------------------------------

  /** The dates at which a search begun in the year `dot` can start a frame. Past `dot` + 4 only
      settled clocks occur, and a matching day still lies ahead before the year `dot` + 9. */
  ghost predicate Reach(c: CronExpr, d: Date, dot: int)
    requires ValidExpr(c) && Valid(d)
  {
    dot <= d.year && (d.year <= dot + MAX_YEARS_DIFF || (Settled(c, d) && MatchAhead(c, d, dot + 8)))
  }

  function Horizon(dot: int): int { Instant(Date(dot + 9, 0, 1, 0, 0, 0)) }

  lemma {:induction false} BeforeHorizon(c: CronExpr, d: Date, dot: int)
    requires ValidExpr(c) && Valid(d) && Reach(c, d, dot)
    ensures Instant(d) < Horizon(dot)
  {
    var end := Date(dot + 9, 0, 1, 0, 0, 0);
    if d.year <= dot + MAX_YEARS_DIFF {
      LaterYear(d, end);
    } else {
      var n :| Valid(n) && DayMatches(c, n) && Day(n) >= Day(d) && n.year <= dot + 8;
      LaterYear(n, end);
      LaterDay(d, end);
    }
  }

  /** A settled date a little past the fourth year is within reach. */
  lemma {:induction false} SettledReach(c: CronExpr, e: Date, dot: int)
    requires ValidExpr(c) && Valid(e) && Settled(c, e) && dot <= e.year <= dot + 6
    ensures Reach(c, e, dot)
  {
    MatchComes(c, e);
  }

  /** The date a frame starts at. */
  ghost predicate Entered(c: CronExpr, d: Date, dot: int) { ValidExpr(c) && Valid(d) && Reach(c, d, dot) }

  /** `e` is what the second stage makes of the frame's first date `d`. */
  predicate SecondDone(c: CronExpr, d: Date, e: Date) {
    && ValidExpr(c) && Valid(d)
    && Valid(e) && c.seconds[e.sec] && Instant(e) >= Instant(d) && Moves(d, e)
    && (d.sec == 0 || c.seconds[d.sec] ==> SameDay(d, e) && e.hour == d.hour && e.min == d.min)
    && (e.year != d.year ==> e.min == 0)
  }

  function SecondStep(c: CronExpr, d: Date): Date
    requires ValidExpr(c) && Valid(d)
  {
    Step(c.seconds, d, Second, Minute, NO_MARKS)
  }

  lemma {:induction false} SecondStage(c: CronExpr, d: Date)
    requires ValidExpr(c) && Valid(d)
    ensures SecondDone(c, d, SecondStep(c, d))
  {
    StepSecond(c, d);
  }

  /** `e` can start a frame, and is later than `d`. */
  ghost predicate Ahead(c: CronExpr, d: Date, e: Date, dot: int)
    requires ValidExpr(c) && Valid(d)
  {
    Valid(e) && Reach(c, e, dot) && Instant(e) > Instant(d)
  }

  /** A settled date of the same day is within reach of the same search. */
  lemma {:induction false} SameDayReach(c: CronExpr, d: Date, e: Date, dot: int)
    requires Entered(c, d, dot) && Valid(e) && Settled(c, e) && SameDay(d, e)
    ensures Reach(c, e, dot)
  {
    if d.year > dot + MAX_YEARS_DIFF {
      var n :| Valid(n) && DayMatches(c, n) && Day(n) >= Day(d) && n.year <= dot + 8;
    }
  }

  /** Once the clock of a frame is admitted, its date is within reach. */
  lemma {:induction false} FirstPassReach(c: CronExpr, d: Date, x: Date, dot: int)
    requires Entered(c, d, dot) && SecondDone(c, d, x) && Settled(c, x)
    ensures Reach(c, x, dot)
  {
    if d.year > dot + MAX_YEARS_DIFF {
      SameDayReach(c, d, x, dot);
    } else {
      SettledReach(c, x, dot);
    }
  }

  lemma {:induction false} MinuteAhead(c: CronExpr, d: Date, x: Date, dot: int, m: Marks)
    requires Entered(c, d, dot) && SecondDone(c, d, x) && !c.minutes[x.min]
    requires m == Marks(m.second, false, false, false)
    ensures Ahead(c, d, Step(c.minutes, x, Minute, Hour, m), dot)
  {
    var e := Step(c.minutes, x, Minute, Hour, m);
    StepMinute(c, x, m);
    if d.year > dot + MAX_YEARS_DIFF {
      SameDayReach(c, d, e, dot);
    } else if e.year > dot + MAX_YEARS_DIFF {
      SettledReach(c, e, dot);
    }
  }

  lemma {:induction false} HourAhead(c: CronExpr, d: Date, x: Date, dot: int, m: Marks)
    requires Entered(c, d, dot) && SecondDone(c, d, x) && c.minutes[x.min] && !c.hours[x.hour]
    requires m == Marks(m.second, m.minute, false, false)
    ensures Ahead(c, d, Step(c.hours, x, Hour, DayOfWeek, m), dot)
  {
    var e := Step(c.hours, x, Hour, DayOfWeek, m);
    StepHour(c, x, m);
    if d.year > dot + MAX_YEARS_DIFF {
      SameDayReach(c, d, e, dot);
    } else if e.year > dot + MAX_YEARS_DIFF {
      SettledReach(c, e, dot);
    }
  }

  lemma {:induction false} SettledHourAhead(c: CronExpr, x: Date, dot: int, m: Marks)
    requires Entered(c, x, dot) && Settled(c, x) && !c.hours[x.hour]
    requires m == Marks(m.second, m.minute, false, false)
    ensures Ahead(c, x, Step(c.hours, x, Hour, DayOfWeek, m), dot)
  {
    StepHour(c, x, m);
    SameDayReach(c, x, Step(c.hours, x, Hour, DayOfWeek, m), dot);
  }

  /** The day stage of a settled date leads to a settled date within reach, for any expression: a
      scan that misses still does not pass the matching day ahead. */
  lemma {:induction false} DayAhead(c: CronExpr, x: Date, dot: int, m: Marks)
    requires Entered(c, x, dot) && Settled(c, x) && !DayMatches(c, x) && !m.mday
    ensures Ahead(c, x, Scan(c, x, m), dot) && Settled(c, Scan(c, x, m))
  {
    var e := Scan(c, x, m);
    ScanMoves(c, x, m);
    DayOrder(x, e);
    if x.year > dot + MAX_YEARS_DIFF {
      var n :| Valid(n) && DayMatches(c, n) && Day(n) >= Day(x) && n.year <= dot + 8;
      ScanPassesNone(c, x, m, n);
    } else {
      YearsPassed(x, e);
      SettledReach(c, e, dot);
    }
  }

  lemma {:induction false} YearsPassed(x: Date, e: Date)
    requires Valid(x) && Valid(e) && Day(e) <= Day(x) + MAX_DAYS
    ensures e.year <= x.year + 2
  {
    DayInYear(x);
    DayInYear(e);
    YearLength(x.year);
    YearLength(x.year + 1);
    if e.year > x.year + 2 {
      YearsAscend(x.year + 2, e.year);
      YearLength(x.year + 2);
    }
  }

  lemma {:induction false} NotEarlierYear(d: Date, e: Date)
    requires Valid(d) && Valid(e) && Instant(e) >= Instant(d)
    ensures e.year >= d.year
  {
    if e.year < d.year {
      LaterYear(e, d);
    }
  }

  lemma {:induction false} MonthAhead(c: CronExpr, x: Date, dot: int, m: Marks)
    requires Entered(c, x, dot) && !c.months[x.mon]
    requires Step(c.months, x, Month, Year, m).year <= dot + MAX_YEARS_DIFF
    ensures Ahead(c, x, Step(c.months, x, Month, Year, m), dot)
  {
    StepMonth(c, x, m);
    NotEarlierYear(x, Step(c.months, x, Month, Year, m));
  }
}
