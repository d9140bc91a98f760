/** For which expressions the cron search of framework/cron/croncpp.hpp passes over no minute with a
    match, from any start: exactly those with no day that the month stage moves to a month where
    the day does not exist although another day of it would match. */
module CronKept {
  import opened CronCalendar
  import opened CronSteps
  import opened CronDays
  import opened CronSearch
  import opened CronFind
  import opened CronSound
  import opened CronPasses
  import opened CronEarliest

  /** The day stage hands on the day of the month of `x`, in a month that is not admitted; setting
      the next admitted month overflows, and a day that was offered there is passed over. */
  ghost predicate LosesMonth(c: CronExpr, x: Date)
    requires ValidExpr(c)
  {
    && Valid(x)
    && var e := Scan(c, x, DAY_MARKS);
       Valid(e) && e.mday == x.mday && !c.months[e.mon] && !KeepsMonth(c, e)
  }

  ghost predicate NeverLoses(c: CronExpr)
    requires ValidExpr(c)
  {
    forall x :: !LosesMonth(c, x)
  }

  // ---- The clock does not matter ----------------------------------------------------

  lemma {:induction false} SameDaySameScan(c: CronExpr, x: Date, y: Date, n: nat)
    requires ValidExpr(c) && Valid(x) && Valid(y) && SameDay(x, y)
    ensures DaysToMatch(c, x, n) == DaysToMatch(c, y, n)
    decreases n
  {
    if n > 0 {
      SameDaySameScan(c, NextDay(x), NextDay(y), n - 1);
    }
  }

  lemma {:induction false} SameDayLater(x: Date, y: Date, n: nat)
    requires Valid(x) && Valid(y) && SameDay(x, y)
    ensures SameDay(AddDays(x, n), AddDays(y, n))
  {
    if n > 0 {
      SameDayLater(x, y, n - 1);
    }
  }

  lemma {:induction false} ScanDay(c: CronExpr, x: Date, y: Date, m: Marks)
    requires ValidExpr(c) && Valid(x) && Valid(y) && SameDay(x, y) && !m.mday
    ensures SameDay(Scan(c, x, m), Scan(c, y, DAY_MARKS))
  {
    SameDaySameScan(c, x, y, MAX_DAYS);
    SameDayLater(x, y, DaysToMatch(c, x, MAX_DAYS));
  }

  lemma {:induction false} SameDayKeeps(c: CronExpr, x: Date, y: Date)
    requires ValidExpr(c) && Valid(x) && Valid(y) && SameDay(x, y)
    ensures MonthTarget(c, x) == MonthTarget(c, y)
    ensures KeepsMonth(c, x) <==> KeepsMonth(c, y)
  {
  }

  // ---- A month that is lost -----------------------------------------------------------

  function AdmittedClock(c: CronExpr, x: Date): (b: Date)
    requires ValidExpr(c) && Valid(x)
    ensures Valid(b) && ClockAdmitted(c, b) && SameDay(x, b)
  {
    x.(hour := FirstBit(c.hours), min := FirstBit(c.minutes), sec := FirstBit(c.seconds))
  }

  /** From such a day, at an admitted clock, the search passes over a minute with a match. */
  lemma {:induction false} LossReported(c: CronExpr, x: Date)
    requires ValidExpr(c) && LosesMonth(c, x)
    ensures
      var b := AdmittedClock(c, x);
      var r := Search(c, b, b.year);
      !r.kept && !NoneBetween(c, b, r.time)
  {
    var b := AdmittedClock(c, x);
    StepSecond(c, b);
    SecondStage(c, b);
    ToDay(c, b, b, true, b.year);
    LostDay(c, x, b, b.year);
    Kept(c, b, b.year);
  }

  lemma {:induction false} LostDay(c: CronExpr, x: Date, b: Date, dot: int)
    requires ValidExpr(c) && LosesMonth(c, x) && Valid(b) && SameDay(x, b) && AtDay(c, b, b, DAY_MARKS, dot)
    ensures !FromDay(c, b, b, DAY_MARKS, dot).kept
  {
    var e := Scan(c, b, DAY_MARKS);
    ScanDay(c, b, x, DAY_MARKS);
    DayLeads(c, b, b, DAY_MARKS, dot);
    SameDayKeeps(c, e, Scan(c, x, DAY_MARKS));
    LostMonth(c, b, e, DAY_MARKS.(mday := true), dot);
  }

  lemma {:induction false} LostMonth(c: CronExpr, d: Date, x: Date, m: Marks, dot: int)
    requires AtMonth(c, d, x, m, dot) && !c.months[x.mon] && !KeepsMonth(c, x)
    ensures !FromMonth(c, d, x, m, dot).kept
  {
    StepMonth(c, x, m);
  }

  // ---- None is lost -------------------------------------------------------------------

  /** A day that the day stage hands on without a re-entry is in an admitted month or kept. */
  lemma {:induction false} HandedOn(c: CronExpr, x: Date, m: Marks)
    requires ValidExpr(c) && Valid(x) && NeverLoses(c) && !m.mday
    requires Valid(Scan(c, x, m)) && Scan(c, x, m).mday == x.mday
    ensures c.months[Scan(c, x, m).mon] || KeepsMonth(c, Scan(c, x, m))
  {
    ScanMoves(c, x, DAY_MARKS);
    ScanDay(c, x, x, m);
    SameDayKeeps(c, Scan(c, x, m), Scan(c, x, DAY_MARKS));
    assert !LosesMonth(c, x);
  }

  lemma {:induction false} SafeMonth(c: CronExpr, d: Date, x: Date, m: Marks, dot: int)
    requires AtMonth(c, d, x, m, dot) && NeverLoses(c) && (c.months[x.mon] || KeepsMonth(c, x))
    ensures FromMonth(c, d, x, m, dot).kept
    decreases Fuel(d, dot), 0
  {
    var e := Step(c.months, x, Month, Year, m);
    StepMonth(c, x, m);
    if !c.months[x.mon] && e.year - dot <= MAX_YEARS_DIFF {
      MonthAhead(c, x, dot, m);
      BeforeHorizon(c, e, dot);
      Safe(c, e, dot);
    }
  }

  lemma {:induction false} SafeDay(c: CronExpr, d: Date, x: Date, m: Marks, dot: int)
    requires AtDay(c, d, x, m, dot) && NeverLoses(c)
    ensures FromDay(c, d, x, m, dot).kept
    decreases Fuel(d, dot), 1
  {
    var e := Scan(c, x, m);
    DayLeads(c, d, x, m, dot);
    if e.mday == x.mday {
      HandedOn(c, x, m);
      SafeMonth(c, d, e, m.(mday := true), dot);
    } else {
      BeforeHorizon(c, e, dot);
      Safe(c, e, dot);
      var r := Search(c, e, dot);
      if r.ok {
        SafeMonth(c, d, r.time, m, dot);
      }
    }
  }

  lemma {:induction false} SafeHour(c: CronExpr, d: Date, x: Date, m: Marks, dot: int)
    requires AtHour(c, d, x, m, dot) && NeverLoses(c)
    ensures FromHour(c, d, x, m, dot).kept
    decreases Fuel(d, dot), 2
  {
    if c.hours[x.hour] {
      HourAdmitted(c, d, x, m, dot);
      SafeDay(c, d, x, m.(hour := true), dot);
    } else {
      HourLeads(c, d, x, m, dot);
      var e := Step(c.hours, x, Hour, DayOfWeek, m);
      BeforeHorizon(c, e, dot);
      Safe(c, e, dot);
      var r := Search(c, e, dot);
      if r.ok {
        SafeDay(c, d, r.time, m, dot);
      }
    }
  }

  lemma {:induction false} SafeMinute(c: CronExpr, d: Date, x: Date, m: Marks, dot: int)
    requires Entered(c, d, dot) && SecondDone(c, d, x) && m == Marks(m.second, false, false, false) && NeverLoses(c)
    ensures FromMinute(c, d, x, m, dot).kept
    decreases Fuel(d, dot), 3
  {
    if c.minutes[x.min] {
      SafeHour(c, d, x, m.(minute := true), dot);
    } else {
      MinuteAhead(c, d, x, dot, m);
      var e := Step(c.minutes, x, Minute, Hour, m);
      BeforeHorizon(c, e, dot);
      Safe(c, e, dot);
      var r := Search(c, e, dot);
      if r.ok {
        SafeHour(c, d, r.time, m, dot);
      }
    }
  }

  lemma {:induction false} Safe(c: CronExpr, d: Date, dot: int)
    requires Entered(c, d, dot) && NeverLoses(c)
    ensures Search(c, d, dot).kept
    decreases Fuel(d, dot), 4
  {
    SecondStage(c, d);
    SafeMinute(c, d, SecondStep(c, d), Marks(c.seconds[d.sec], false, false, false), dot);
  }

  ghost predicate NonePassedFromAnyStart(c: CronExpr)
    requires ValidExpr(c)
  {
    forall d | Valid(d) :: NoneBetween(c, d, Search(c, d, d.year).time)
  }

  /** From every start no minute with a match is passed over, if and only if no month is lost. */
  lemma {:induction false} NonePassedIff(c: CronExpr)
    requires ValidExpr(c)
    ensures NonePassedFromAnyStart(c) <==> NeverLoses(c)
  {
    if NeverLoses(c) {
      forall d | Valid(d) ensures NoneBetween(c, d, Search(c, d, d.year).time) {
        Safe(c, d, d.year);
        Kept(c, d, d.year);
      }
    } else {
      var x :| LosesMonth(c, x);
      LossReported(c, x);
      var b := AdmittedClock(c, x);
      assert !NoneBetween(c, b, Search(c, b, b.year).time);
    }
  }
}
