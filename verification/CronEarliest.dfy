/** When the cron search of framework/cron/croncpp.hpp passes over no minute with a match, for any
    expression. */
module CronEarliest {
  import opened CronCalendar
  import opened CronSteps
  import opened CronDays
  import opened CronSearch
  import opened CronFind
  import opened CronSound
  import opened CronPasses

  /** A search by way of `b`: the seconds of the minute before `b` cannot match, or `b` itself
      would have been the end. */
  lemma {:induction false} ByWayOf(c: CronExpr, a: Date, b: Date, g: Date)
    requires ValidExpr(c) && Valid(a) && Valid(b) && Valid(g)
    requires Instant(a) <= Instant(b) <= Instant(g)
    requires (b.sec == 0 || c.seconds[b.sec]) && (Matches(c, b) ==> g == b)
    ensures NoneBetween(c, a, g) <==> NoneBetween(c, a, b) && NoneBetween(c, b, g)
  {
    LaterSecond(b, g);
    if NoneBetween(c, a, b) && NoneBetween(c, b, g) {
      forall x | Valid(x) && Instant(a) <= Instant(x) && MinuteNumber(x) < MinuteNumber(g) ensures !Matches(c, x) {
        InstantOfMinute(x);
        InstantOfMinute(b);
        if MinuteNumber(x) == MinuteNumber(b) && Instant(x) < Instant(b) {
          OneDateAMinute(x, b);
          SameDaySameMatch(c, x, b);
        }
      }
    }
  }

  /** A stage from `x` to `e` that passes over nothing adds nothing. */
  lemma {:induction false} AfterClear(c: CronExpr, x: Date, e: Date, g: Date)
    requires ValidExpr(c) && Valid(x) && Valid(e) && Valid(g) && MinutesClear(c, x, e)
    requires Instant(x) <= Instant(e) <= Instant(g)
    requires (e.sec == 0 || c.seconds[e.sec]) && (Matches(c, e) ==> g == e)
    ensures NoneBetween(c, x, g) <==> NoneBetween(c, e, g)
  {
    forall y | Valid(y) && Instant(x) <= Instant(y) ensures MinuteNumber(x) <= MinuteNumber(y) {
      LaterSecond(x, y);
    }
    ByWayOf(c, x, e, g);
  }

  lemma {:induction false} KeptMonth(c: CronExpr, d: Date, x: Date, m: Marks, dot: int)
    requires AtMonth(c, d, x, m, dot)
    ensures
      var r := FromMonth(c, d, x, m, dot);
      Instant(x) <= Instant(r.time) && (r.kept <==> NoneBetween(c, x, r.time))
    decreases Fuel(d, dot), 0
  {
    var e := Step(c.months, x, Month, Year, m);
    StepMonth(c, x, m);
    if c.months[x.mon] {
      SameMinute(c, x, x);
    } else {
      MonthPassesIff(c, x, m);
      MonthLandsIff(c, x, m);
      if e.year - dot <= MAX_YEARS_DIFF {
        MonthAhead(c, x, dot, m);
        BeforeHorizon(c, e, dot);
        Kept(c, e, dot);
        IfMatch(c, e, dot);
        ByWayOf(c, x, e, Search(c, e, dot).time);
      }
    }
  }

  lemma {:induction false} IfMatch(c: CronExpr, d: Date, dot: int)
    requires Entered(c, d, dot)
    ensures Matches(c, d) ==> Search(c, d, dot) == Found(true, d, true)
  {
    if Matches(c, d) {
      MatchStays(c, d, dot);
    }
  }

  /** What the moving stages have in common: the next frame starts later, at a second that is 0 or
      admitted, and nothing was passed over. */
  ghost predicate Leads(c: CronExpr, d: Date, x: Date, e: Date, dot: int) {
    && ValidExpr(c) && Valid(d) && Valid(x) && Ahead(c, d, e, dot) && Instant(x) <= Instant(e)
    && (e.sec == 0 || c.seconds[e.sec]) && MinutesClear(c, x, e)
  }

  lemma {:induction false} DayMoves(c: CronExpr, d: Date, x: Date, m: Marks, dot: int)
    requires AtDay(c, d, x, m, dot) && !DayMatches(c, x)
    ensures Leads(c, d, x, Scan(c, x, m), dot)
  {
    DayLeads(c, d, x, m, dot);
    ScanMoves(c, x, m);
    DayPasses(c, x, m);
  }

  lemma {:induction false} HourMoves(c: CronExpr, d: Date, x: Date, m: Marks, dot: int)
    requires AtHour(c, d, x, m, dot) && !c.hours[x.hour]
    ensures Leads(c, d, x, Step(c.hours, x, Hour, DayOfWeek, m), dot)
  {
    HourLeads(c, d, x, m, dot);
    StepHour(c, x, m);
    HourPasses(c, x, m);
  }

  lemma {:induction false} MinuteMoves(c: CronExpr, d: Date, x: Date, m: Marks, dot: int)
    requires Entered(c, d, dot) && SecondDone(c, d, x) && !c.minutes[x.min]
    requires m == Marks(m.second, false, false, false)
    ensures Leads(c, d, x, Step(c.minutes, x, Minute, Hour, m), dot)
  {
    MinuteAhead(c, d, x, dot, m);
    StepMinute(c, x, m);
    MinutePasses(c, x, m);
  }

  lemma {:induction false} KeptDay(c: CronExpr, d: Date, x: Date, m: Marks, dot: int)
    requires AtDay(c, d, x, m, dot)
    ensures
      var r := FromDay(c, d, x, m, dot);
      Instant(x) <= Instant(r.time) && (r.kept <==> NoneBetween(c, x, r.time))
    decreases Fuel(d, dot), 1
  {
    var e := Scan(c, x, m);
    DayLeads(c, d, x, m, dot);
    if e.mday == x.mday {
      KeptMonth(c, d, e, m.(mday := true), dot);
      if !DayMatches(c, x) {
        DayMoves(c, d, x, m, dot);
        AfterClear(c, x, e, FromMonth(c, d, e, m.(mday := true), dot).time);
      }
    } else {
      DayMoves(c, d, x, m, dot);
      BeforeHorizon(c, e, dot);
      Kept(c, e, dot);
      var r := Search(c, e, dot);
      if r.ok {
        KeptMonth(c, d, r.time, m, dot);
        ThenFrom(c, d, x, e, dot, FromMonth(c, d, r.time, m, dot));
      } else {
        ThenFailed(c, d, x, e, dot);
      }
    }
  }

  /** A stage that passes over nothing, a re-entered search, and the rest of the frame. */
  lemma {:induction false} ThenFrom(c: CronExpr, d: Date, x: Date, e: Date, dot: int, s: Found)
    requires Leads(c, d, x, e, dot) && Search(c, e, dot).ok
    requires var r := Search(c, e, dot);
      && Valid(s.time) && Instant(r.time) <= Instant(s.time)
      && (Matches(c, r.time) ==> s.time == r.time) && (s.kept <==> NoneBetween(c, r.time, s.time))
      && (r.kept <==> NoneBetween(c, e, r.time))
    ensures Instant(x) <= Instant(s.time)
    ensures Then(Search(c, e, dot).kept, s).kept <==> NoneBetween(c, x, s.time)
  {
    IfMatch(c, e, dot);
    ByWayOf(c, e, Search(c, e, dot).time, s.time);
    AfterClear(c, x, e, s.time);
  }

  lemma {:induction false} ThenFailed(c: CronExpr, d: Date, x: Date, e: Date, dot: int)
    requires Leads(c, d, x, e, dot) && !Search(c, e, dot).ok
    requires var r := Search(c, e, dot); r.kept <==> NoneBetween(c, e, r.time)
    ensures var r := Search(c, e, dot); Instant(x) <= Instant(r.time) && (r.kept <==> NoneBetween(c, x, r.time))
  {
    IfMatch(c, e, dot);
    AfterClear(c, x, e, Search(c, e, dot).time);
  }

  lemma {:induction false} KeptHour(c: CronExpr, d: Date, x: Date, m: Marks, dot: int)
    requires AtHour(c, d, x, m, dot)
    ensures
      var r := FromHour(c, d, x, m, dot);
      Instant(x) <= Instant(r.time) && (r.kept <==> NoneBetween(c, x, r.time))
    decreases Fuel(d, dot), 2
  {
    if c.hours[x.hour] {
      HourAdmitted(c, d, x, m, dot);
      KeptDay(c, d, x, m.(hour := true), dot);
    } else {
      HourMoves(c, d, x, m, dot);
      var e := Step(c.hours, x, Hour, DayOfWeek, m);
      BeforeHorizon(c, e, dot);
      Kept(c, e, dot);
      var r := Search(c, e, dot);
      if r.ok {
        KeptDay(c, d, r.time, m, dot);
        IfDayStays(c, d, r.time, m, dot);
        ThenFrom(c, d, x, e, dot, FromDay(c, d, r.time, m, dot));
      } else {
        ThenFailed(c, d, x, e, dot);
      }
    }
  }

  lemma {:induction false} IfDayStays(c: CronExpr, d: Date, x: Date, m: Marks, dot: int)
    requires AtDay(c, d, x, m, dot)
    ensures Matches(c, x) ==> FromDay(c, d, x, m, dot) == Found(true, x, true)
  {
    if Matches(c, x) {
      DayStays(c, d, x, m, dot);
    }
  }

  lemma {:induction false} IfHourStays(c: CronExpr, d: Date, x: Date, m: Marks, dot: int)
    requires AtHour(c, d, x, m, dot)
    ensures Matches(c, x) ==> FromHour(c, d, x, m, dot) == Found(true, x, true)
  {
    if Matches(c, x) {
      HourStays(c, d, x, m, dot);
    }
  }

  lemma {:induction false} KeptMinute(c: CronExpr, d: Date, x: Date, m: Marks, dot: int)
    requires Entered(c, d, dot) && SecondDone(c, d, x) && m == Marks(m.second, false, false, false)
    ensures
      var r := FromMinute(c, d, x, m, dot);
      Instant(x) <= Instant(r.time) && (r.kept <==> NoneBetween(c, x, r.time))
    decreases Fuel(d, dot), 4
  {
    if c.minutes[x.min] {
      KeptHour(c, d, x, m.(minute := true), dot);
    } else {
      MinuteMoves(c, d, x, m, dot);
      KeptAfter(c, d, x, Step(c.minutes, x, Minute, Hour, m), m, dot);
    }
  }

  lemma {:induction false} KeptAfter(c: CronExpr, d: Date, x: Date, e: Date, m: Marks, dot: int)
    requires Entered(c, d, dot) && Leads(c, d, x, e, dot) && m == Marks(m.second, false, false, false)
    ensures
      var r := Search(c, e, dot);
      var s := if r.ok then Then(r.kept, FromHour(c, d, r.time, m, dot)) else r;
      Instant(x) <= Instant(s.time) && (s.kept <==> NoneBetween(c, x, s.time))
    decreases Fuel(d, dot), 3
  {
    BeforeHorizon(c, e, dot);
    Kept(c, e, dot);
    var r := Search(c, e, dot);
    if r.ok {
      KeptHour(c, d, r.time, m, dot);
      IfHourStays(c, d, r.time, m, dot);
      ThenFrom(c, d, x, e, dot, FromHour(c, d, r.time, m, dot));
    } else {
      ThenFailed(c, d, x, e, dot);
    }
  }

  /** For any expression: no minute between the start and the end of a search has a match if and
      only if every month that was set on the way was kept. */
  lemma {:induction false} Kept(c: CronExpr, d: Date, dot: int)
    requires Entered(c, d, dot)
    ensures var r := Search(c, d, dot); r.kept <==> NoneBetween(c, d, r.time)
    decreases Fuel(d, dot), 5
  {
    var x, m := SecondStep(c, d), Marks(c.seconds[d.sec], false, false, false);
    SecondStage(c, d);
    SecondPasses(c, d);
    KeptMinute(c, d, x, m, dot);
    IfMinuteStays(c, d, x, m, dot);
    ByWayOf(c, d, x, Search(c, d, dot).time);
  }

  lemma {:induction false} IfMinuteStays(c: CronExpr, d: Date, x: Date, m: Marks, dot: int)
    requires Entered(c, d, dot) && SecondDone(c, d, x) && m == Marks(m.second, false, false, false)
    ensures Matches(c, x) ==> FromMinute(c, d, x, m, dot) == Found(true, x, true)
  {
    if Matches(c, x) {
      MinuteStays(c, d, x, m, dot);
    }
  }
}
