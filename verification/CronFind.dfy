/** What the recursive search of framework/cron/croncpp.hpp (`find_next`) computes, as a function
    of every expression and date. A frame is cut where a stage hands its date to the next one;
    a stage that moved re-enters the whole search and lets the later stages go on from there. */
module CronFind {
  import opened CronCalendar
  import opened CronSteps
  import opened CronDays
  import opened CronSearch

  /** Whether the search reports its time; and whether every month that it set was kept, or had
      no day to offer anyway (`KeepsMonth`). */
  datatype Found = Found(ok: bool, time: Date, kept: bool)

  predicate ClockAdmitted(c: CronExpr, d: Date)
    requires ValidExpr(c) && Valid(d)
  {
    c.seconds[d.sec] && c.minutes[d.min] && c.hours[d.hour]
  }

  predicate Admits(c: CronExpr, d: Date) { ValidExpr(c) && Valid(d) && Matches(c, d) }

  // ---- Setting a month -----------------------------------------------------------

  /** The year and month that the month stage sets, and the day of the month it sets them for: a
      leap day carried into a year without one has become the first. */
  function MonthTarget(c: CronExpr, x: Date): (t: (int, int, int))
    requires ValidExpr(c) && Valid(x)
    ensures 0 <= t.1 < 12 && 1 <= t.2 <= 31 && c.months[t.1]
  {
    var n := NextBit(c.months, x.mon);
    if n < 12 then (x.year, n, x.mday)
    else (x.year + 1, FirstBit(c.months), if x.mday <= DaysIn(x.year + 1, x.mon) then x.mday else 1)
  }

  /** The day of the month does not exist in the month that is set, so `mktime` overflows. */
  predicate Overflows(c: CronExpr, x: Date)
    requires ValidExpr(c) && Valid(x)
  {
    var t := MonthTarget(c, x);
    t.2 > DaysIn(t.0, t.1)
  }

  /** Both day fields admit some day of the month. */
  ghost predicate OffersDay(c: CronExpr, year: int, mon: int)
    requires ValidExpr(c) && 0 <= mon < 12
  {
    exists k :: 1 <= k <= DaysIn(year, mon) && DayMatches(c, Date(year, mon, k, 0, 0, 0))
  }

  ghost predicate KeepsMonth(c: CronExpr, x: Date)
    requires ValidExpr(c) && Valid(x)
  {
    Overflows(c, x) ==> !OffersDay(c, MonthTarget(c, x).0, MonthTarget(c, x).1)
  }

  // ---- The search ------------------------------------------------------------------

  function Fuel(d: Date, dot: int): int
    requires Valid(d)
  {
    Horizon(dot) - Instant(d)
  }

  predicate Midnight(d: Date) { d.hour == 0 && d.min == 0 }

  /** What a frame makes of the date it was entered with: a reported time is settled, in an
      admitted month, and matches or is the midnight that a missing scan left behind. */
  ghost predicate Outcome(c: CronExpr, d: Date, dot: int, r: Found)
    requires ValidExpr(c) && Valid(d)
  {
    && Valid(r.time) && Instant(r.time) >= Instant(d)
    && (r.ok ==> Settled(c, r.time) && Reach(c, r.time, dot) && c.months[r.time.mon])
    && (r.ok ==> Matches(c, r.time) || Midnight(r.time))
    && (!r.ok ==> r.time.year - dot > MAX_YEARS_DIFF)
  }

  /** A date within a frame that was entered with `d`. */
  ghost predicate Within(c: CronExpr, d: Date, x: Date, dot: int) {
    Entered(c, d, dot) && Entered(c, x, dot) && Settled(c, x) && Instant(x) >= Instant(d)
  }

  /** Before the hour stage: the frame's own date, its minute admitted, or the result of a
      re-entered search. */
  ghost predicate AtHour(c: CronExpr, d: Date, x: Date, m: Marks, dot: int) {
    && Entered(c, d, dot)
    && (|| (SecondDone(c, d, x) && c.minutes[x.min] && m == Marks(m.second, true, false, false))
        || (Within(c, d, x, dot) && (Matches(c, x) || Midnight(x)) && m == Marks(m.second, false, false, false)))
  }

  /** Before the day stage: the frame's own date, its clock admitted, or a result. */
  ghost predicate AtDay(c: CronExpr, d: Date, x: Date, m: Marks, dot: int) {
    && Within(c, d, x, dot) && !m.mday
    && (Matches(c, x) || Midnight(x) || (ClockAdmitted(c, x) && m == Marks(m.second, true, true, false)))
  }

  ghost predicate AtMonth(c: CronExpr, d: Date, x: Date, m: Marks, dot: int) {
    && Within(c, d, x, dot) && (c.months[x.mon] || m.mday)
    && (Matches(c, x) || Midnight(x) || (ClockAdmitted(c, x) && DayMatches(c, x) && m == Marks(m.second, true, true, true)))
  }

  function Then(kept: bool, r: Found): Found { r.(kept := kept && r.kept) }

  ghost function Search(c: CronExpr, d: Date, dot: int): (r: Found)
    requires Entered(c, d, dot)
    ensures Outcome(c, d, dot, r)
    decreases Fuel(d, dot), 4
  {
    SecondStage(c, d);
    FromMinute(c, d, SecondStep(c, d), Marks(c.seconds[d.sec], false, false, false), dot)
  }

  ghost function FromMinute(c: CronExpr, d: Date, x: Date, m: Marks, dot: int): (r: Found)
    requires Entered(c, d, dot) && SecondDone(c, d, x) && m == Marks(m.second, false, false, false)
    ensures Outcome(c, d, dot, r)
    decreases Fuel(d, dot), 3
  {
    if c.minutes[x.min] then FromHour(c, d, x, m.(minute := true), dot)
    else
      MinuteAhead(c, d, x, dot, m);
      var e := Step(c.minutes, x, Minute, Hour, m);
      BeforeHorizon(c, e, dot);
      var r := Search(c, e, dot);
      if r.ok then Then(r.kept, FromHour(c, d, r.time, m, dot)) else r
  }

  ghost function FromHour(c: CronExpr, d: Date, x: Date, m: Marks, dot: int): (r: Found)
    requires AtHour(c, d, x, m, dot)
    ensures Outcome(c, d, dot, r)
    decreases Fuel(d, dot), 2
  {
    if c.hours[x.hour] then
      HourAdmitted(c, d, x, m, dot);
      FromDay(c, d, x, m.(hour := true), dot)
    else
      HourLeads(c, d, x, m, dot);
      var e := Step(c.hours, x, Hour, DayOfWeek, m);
      BeforeHorizon(c, e, dot);
      var r := Search(c, e, dot);
      if r.ok then Then(r.kept, FromDay(c, d, r.time, m, dot)) else r
  }

  ghost function FromDay(c: CronExpr, d: Date, x: Date, m: Marks, dot: int): (r: Found)
    requires AtDay(c, d, x, m, dot)
    ensures Outcome(c, d, dot, r)
    decreases Fuel(d, dot), 1
  {
    var e := Scan(c, x, m);
    DayLeads(c, d, x, m, dot);
    if e.mday == x.mday then FromMonth(c, d, e, m.(mday := true), dot)
    else
      BeforeHorizon(c, e, dot);
      var r := Search(c, e, dot);
      if r.ok then Then(r.kept, FromMonth(c, d, r.time, m, dot)) else r
  }

  ghost function FromMonth(c: CronExpr, d: Date, x: Date, m: Marks, dot: int): (r: Found)
    requires AtMonth(c, d, x, m, dot)
    ensures Outcome(c, d, dot, r)
    decreases Fuel(d, dot), 0
  {
    var e := Step(c.months, x, Month, Year, m);
    StepMonth(c, x, m);
    if c.months[x.mon] then Found(true, x, true)
    else if e.year - dot > MAX_YEARS_DIFF then Found(false, e, KeepsMonth(c, x))
    else
      MonthAhead(c, x, dot, m);
      BeforeHorizon(c, e, dot);
      Then(KeepsMonth(c, x), Search(c, e, dot))
  }

  // ---- What the stages hand on -------------------------------------------------------

  lemma {:induction false} HourAdmitted(c: CronExpr, d: Date, x: Date, m: Marks, dot: int)
    requires AtHour(c, d, x, m, dot) && c.hours[x.hour]
    ensures AtDay(c, d, x, m.(hour := true), dot)
  {
    if SecondDone(c, d, x) && c.minutes[x.min] {
      FirstPassReach(c, d, x, dot);
    }
  }

  lemma {:induction false} HourLeads(c: CronExpr, d: Date, x: Date, m: Marks, dot: int)
    requires AtHour(c, d, x, m, dot) && !c.hours[x.hour]
    ensures Ahead(c, d, Step(c.hours, x, Hour, DayOfWeek, m), dot)
    ensures Step(c.hours, x, Hour, DayOfWeek, m).min == 0
  {
    StepHour(c, x, m);
    if SecondDone(c, d, x) && c.minutes[x.min] {
      HourAhead(c, d, x, dot, m);
    } else {
      SettledHourAhead(c, x, dot, m);
    }
  }

  lemma {:induction false} DayLeads(c: CronExpr, d: Date, x: Date, m: Marks, dot: int)
    requires AtDay(c, d, x, m, dot)
    ensures
      var e := Scan(c, x, m);
      if DayMatches(c, x) then e == x && AtMonth(c, d, x, m.(mday := true), dot)
      else Ahead(c, d, e, dot) && Midnight(e) && AtMonth(c, d, e, m.(mday := true), dot)
  {
    ScanMoves(c, x, m);
    if !DayMatches(c, x) {
      DayAhead(c, x, dot, m);
    }
  }
}
