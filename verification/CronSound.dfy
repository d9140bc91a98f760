/** When the cron search of framework/cron/croncpp.hpp reports only times that match: exactly for
    the expressions with no date at which the day scan comes back to the same day of the month
    without a match. */
module CronSound {
  import opened CronCalendar
  import opened CronSteps
  import opened CronDays
  import opened CronSearch
  import opened CronFind

  // ---- A match stays -------------------------------------------------------------

  lemma {:induction false} DayStays(c: CronExpr, d: Date, x: Date, m: Marks, dot: int)
    requires AtDay(c, d, x, m, dot) && Matches(c, x)
    ensures FromDay(c, d, x, m, dot) == Found(true, x, true)
  {
    DayLeads(c, d, x, m, dot);
  }

  lemma {:induction false} HourStays(c: CronExpr, d: Date, x: Date, m: Marks, dot: int)
    requires AtHour(c, d, x, m, dot) && Matches(c, x)
    ensures FromHour(c, d, x, m, dot) == Found(true, x, true)
  {
    HourAdmitted(c, d, x, m, dot);
    DayStays(c, d, x, m.(hour := true), dot);
  }

  lemma {:induction false} MinuteStays(c: CronExpr, d: Date, x: Date, m: Marks, dot: int)
    requires Entered(c, d, dot) && SecondDone(c, d, x) && m == Marks(m.second, false, false, false) && Matches(c, x)
    ensures FromMinute(c, d, x, m, dot) == Found(true, x, true)
  {
    HourStays(c, d, x, m.(minute := true), dot);
  }

  /** A search that starts at a match reports it. */
  lemma {:induction false} MatchStays(c: CronExpr, d: Date, dot: int)
    requires Entered(c, d, dot) && Matches(c, d)
    ensures Search(c, d, dot) == Found(true, d, true)
  {
    SecondStage(c, d);
    StepSecond(c, d);
    MinuteStays(c, d, d, Marks(true, false, false, false), dot);
  }

  // ---- The day stage that takes a miss for a match -----------------------------------

  const DAY_MARKS: Marks := Marks(true, true, true, false)

  /** The day stage hands on a date without a re-entry, and what it hands on is not admitted by
      the clock and day fields. */
  predicate PassesUnadmitted(c: CronExpr, x: Date)
    requires ValidExpr(c) && Valid(x)
  {
    var e := Scan(c, x, DAY_MARKS);
    Valid(e) && e.mday == x.mday && !(ClockAdmitted(c, e) && DayMatches(c, e))
  }

  /** For any expression and any date with an admitted clock: that happens exactly if the scan
      moved, came back to the same day of the month, and did not land on a matching day whose
      midnight the clock fields admit. */
  lemma {:induction false} PassesUnadmittedIff(c: CronExpr, x: Date)
    requires ValidExpr(c) && Valid(x) && ClockAdmitted(c, x)
    ensures
      var k := DaysToMatch(c, x, MAX_DAYS);
      PassesUnadmitted(c, x) <==>
      && k > 0 && AddDays(x, k).mday == x.mday
      && !(DayMatches(c, AddDays(x, k)) && c.hours[0] && c.minutes[0] && c.seconds[0])
  {
    var k := DaysToMatch(c, x, MAX_DAYS);
    ScanAtStep(c, x, k, 0, DAY_MARKS);
    ScanMoves(c, x, DAY_MARKS);
    if k > 0 {
      ResetSameDay(c, AddDays(x, k), DAY_MARKS);
    } else {
      assert AddDays(x, 0) == x;
    }
  }

  /** A date from which the search reports a time that does not match. */
  predicate Misses(c: CronExpr, x: Date)
    requires ValidExpr(c)
  {
    && Valid(x) && ClockAdmitted(c, x) && !DayMatches(c, x) && PassesUnadmitted(c, x)
    && c.months[Scan(c, x, DAY_MARKS).mon]
  }

  /** From such a date the search reports where the scan landed, although it does not match. */
  lemma {:induction false} MissReported(c: CronExpr, x: Date)
    requires ValidExpr(c) && Misses(c, x)
    ensures Entered(c, x, x.year)
    ensures Search(c, x, x.year) == Found(true, Scan(c, x, DAY_MARKS), true)
    ensures !Matches(c, Scan(c, x, DAY_MARKS)) && Instant(Scan(c, x, DAY_MARKS)) > Instant(x)
  {
    var dot := x.year;
    StepSecond(c, x);
    SecondStage(c, x);
    ScanMoves(c, x, DAY_MARKS);
    ToDay(c, x, x, true, dot);
    MissedDay(c, x, dot);
  }

  lemma {:induction false} MissedDay(c: CronExpr, x: Date, dot: int)
    requires ValidExpr(c) && Misses(c, x) && AtDay(c, x, x, DAY_MARKS, dot)
    ensures FromDay(c, x, x, DAY_MARKS, dot) == Found(true, Scan(c, x, DAY_MARKS), true)
  {
    DayLeads(c, x, x, DAY_MARKS, dot);
  }

  /** With an admitted minute and hour a frame goes straight to the day stage. */
  lemma {:induction false} ToDay(c: CronExpr, d: Date, x: Date, second: bool, dot: int)
    requires Entered(c, d, dot) && SecondDone(c, d, x) && c.minutes[x.min] && c.hours[x.hour]
    ensures AtDay(c, d, x, Marks(second, true, true, false), dot)
    ensures FromMinute(c, d, x, Marks(second, false, false, false), dot) ==
            FromDay(c, d, x, Marks(second, true, true, false), dot)
  {
    HourAdmitted(c, d, x, Marks(second, true, false, false), dot);
  }

  // ---- Soundness ------------------------------------------------------------------------

  ghost predicate NeverMisses(c: CronExpr)
    requires ValidExpr(c)
  {
    forall x :: !Misses(c, x)
  }

  lemma {:induction false} SoundMonth(c: CronExpr, d: Date, x: Date, m: Marks, dot: int)
    requires AtMonth(c, d, x, m, dot) && NeverMisses(c)
    requires c.months[x.mon] ==> Matches(c, x)
    ensures var r := FromMonth(c, d, x, m, dot); r.ok ==> Matches(c, r.time)
    decreases Fuel(d, dot), 0
  {
    var e := Step(c.months, x, Month, Year, m);
    StepMonth(c, x, m);
    if !c.months[x.mon] && e.year - dot <= MAX_YEARS_DIFF {
      MonthAhead(c, x, dot, m);
      BeforeHorizon(c, e, dot);
      Sound(c, e, dot);
    }
  }

  /** A scan that comes back to the same day of the month in an admitted month lands on a match. */
  lemma {:induction false} SameMdayMatches(c: CronExpr, x: Date, m: Marks)
    requires ValidExpr(c) && Valid(x) && NeverMisses(c) && ClockAdmitted(c, x) && !DayMatches(c, x)
    requires m == Marks(m.second, true, true, false)
    ensures
      var e := Scan(c, x, m);
      Valid(e) && (e.mday == x.mday && c.months[e.mon] ==> Matches(c, e))
  {
    var e, f := Scan(c, x, m), Scan(c, x, DAY_MARKS);
    ScanMoves(c, x, m);
    ScanMoves(c, x, DAY_MARKS);
    SameScanDay(c, x, m);
    SameDaySameMatch(c, e, f);
    assert !Misses(c, x);
  }

  lemma {:induction false} SameScanDay(c: CronExpr, x: Date, m: Marks)
    requires ValidExpr(c) && Valid(x) && !m.mday
    ensures SameDay(Scan(c, x, m), Scan(c, x, DAY_MARKS))
  {
  }

  lemma {:induction false} SoundDay(c: CronExpr, d: Date, x: Date, m: Marks, dot: int)
    requires AtDay(c, d, x, m, dot) && NeverMisses(c)
    requires Matches(c, x) || (ClockAdmitted(c, x) && m == Marks(m.second, true, true, false))
    ensures var r := FromDay(c, d, x, m, dot); r.ok ==> Matches(c, r.time)
    decreases Fuel(d, dot), 1
  {
    var e := Scan(c, x, m);
    DayLeads(c, d, x, m, dot);
    if !DayMatches(c, x) {
      SameMdayMatches(c, x, m);
    }
    if e.mday == x.mday {
      SoundMonth(c, d, e, m.(mday := true), dot);
    } else {
      BeforeHorizon(c, e, dot);
      Sound(c, e, dot);
      var r := Search(c, e, dot);
      if r.ok {
        SoundMonth(c, d, r.time, m, dot);
      }
    }
  }

  lemma {:induction false} SoundHour(c: CronExpr, d: Date, x: Date, m: Marks, dot: int)
    requires AtHour(c, d, x, m, dot) && NeverMisses(c)
    requires Matches(c, x) || (SecondDone(c, d, x) && c.minutes[x.min] && m.minute)
    ensures var r := FromHour(c, d, x, m, dot); r.ok ==> Matches(c, r.time)
    decreases Fuel(d, dot), 2
  {
    if c.hours[x.hour] {
      HourAdmitted(c, d, x, m, dot);
      SoundDay(c, d, x, m.(hour := true), dot);
    } else {
      HourLeads(c, d, x, m, dot);
      var e := Step(c.hours, x, Hour, DayOfWeek, m);
      BeforeHorizon(c, e, dot);
      Sound(c, e, dot);
      var r := Search(c, e, dot);
      if r.ok {
        SoundDay(c, d, r.time, m, dot);
      }
    }
  }

  lemma {:induction false} SoundMinute(c: CronExpr, d: Date, x: Date, m: Marks, dot: int)
    requires Entered(c, d, dot) && SecondDone(c, d, x) && m == Marks(m.second, false, false, false) && NeverMisses(c)
    ensures var r := FromMinute(c, d, x, m, dot); r.ok ==> Matches(c, r.time)
    decreases Fuel(d, dot), 3
  {
    if c.minutes[x.min] {
      SoundHour(c, d, x, m.(minute := true), dot);
    } else {
      MinuteAhead(c, d, x, dot, m);
      var e := Step(c.minutes, x, Minute, Hour, m);
      BeforeHorizon(c, e, dot);
      Sound(c, e, dot);
      var r := Search(c, e, dot);
      if r.ok {
        SoundHour(c, d, r.time, m, dot);
      }
    }
  }

  /** Soundness: with no missing date, whatever is reported matches. */
  lemma {:induction false} Sound(c: CronExpr, d: Date, dot: int)
    requires Entered(c, d, dot) && NeverMisses(c)
    ensures var r := Search(c, d, dot); r.ok ==> Matches(c, r.time)
    decreases Fuel(d, dot), 4
  {
    SecondStage(c, d);
    SoundMinute(c, d, SecondStep(c, d), Marks(c.seconds[d.sec], false, false, false), dot);
  }

  ghost predicate SoundFromEveryStart(c: CronExpr)
    requires ValidExpr(c)
  {
    forall d | Valid(d) :: Search(c, d, d.year).ok ==> Matches(c, Search(c, d, d.year).time)
  }

  /** The search reports only matches, from every start, if and only if it never misses. */
  lemma {:induction false} SoundIff(c: CronExpr)
    requires ValidExpr(c)
    ensures SoundFromEveryStart(c) <==> NeverMisses(c)
  {
    if NeverMisses(c) {
      forall d | Valid(d)
        ensures Search(c, d, d.year).ok ==> Matches(c, Search(c, d, d.year).time)
      {
        Sound(c, d, d.year);
      }
    } else {
      var x :| Misses(c, x);
      MissReported(c, x);
    }
  }

  /** It never misses when one of the two day fields admits every value. */
  lemma {:induction false} FreeNeverMisses(c: CronExpr)
    requires ValidExpr(c) && DayFree(c)
    ensures NeverMisses(c)
  {
    forall x ensures !Misses(c, x) {
      if Valid(x) {
        ScanFinds(c, x);
        ScanMoves(c, x, DAY_MARKS);
        SameMday(c, x);
      }
    }
  }

  lemma {:induction false} SameMday(c: CronExpr, x: Date)
    requires ValidExpr(c) && Valid(x)
    ensures Scan(c, x, DAY_MARKS).mday == AddDays(x, DaysToMatch(c, x, MAX_DAYS)).mday
  {
    assert AddDays(x, 0) == x;
  }
}
