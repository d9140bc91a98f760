/** When the cron search of framework/cron/croncpp.hpp reports the first admitted second of the
    minute it found. A second that the first frame advanced is not reset when a later stage of
    that frame moves on; it is lost exactly if the search is then over. */
module CronSecond {
  import opened CronCalendar
  import opened CronSteps
  import opened CronDays
  import opened CronSearch
  import opened CronFind
  import opened CronSound
  import opened CronPasses
  import opened CronEarliest

  /** Where the first frame re-enters the search, or where it ends. */
  function FirstEntry(c: CronExpr, d: Date): Date
    requires ValidExpr(c) && Valid(d) && Valid(SecondStep(c, d))
    requires Valid(Scan(c, SecondStep(c, d), Marks(c.seconds[d.sec], true, true, false)))
  {
    var x, s := SecondStep(c, d), c.seconds[d.sec];
    if !c.minutes[x.min] then Step(c.minutes, x, Minute, Hour, Marks(s, false, false, false))
    else if !c.hours[x.hour] then Step(c.hours, x, Hour, DayOfWeek, Marks(s, true, false, false))
    else
      var e := Scan(c, x, Marks(s, true, true, false));
      if e.mday != x.mday || c.months[e.mon] then e
      else Step(c.months, e, Month, Year, Marks(s, true, true, true))
  }

  /** The second stage moved, though not to the first admitted second, and the place that the
      first frame then led to is a match. */
  predicate LateSecond(c: CronExpr, d: Date)
    requires ValidExpr(c) && Valid(d) && Valid(SecondStep(c, d))
    requires Valid(Scan(c, SecondStep(c, d), Marks(c.seconds[d.sec], true, true, false)))
  {
    && !c.seconds[d.sec] && NextBit(c.seconds, d.sec) < 60
    && NextBit(c.seconds, d.sec) != FirstBit(c.seconds)
    && Admits(c, FirstEntry(c, d))
  }

  lemma {:induction false} FirstFrame(c: CronExpr, d: Date)
    requires ValidExpr(c) && Valid(d)
    ensures Valid(SecondStep(c, d))
    ensures Valid(Scan(c, SecondStep(c, d), Marks(c.seconds[d.sec], true, true, false)))
  {
    StepSecond(c, d);
    ScanMoves(c, SecondStep(c, d), Marks(c.seconds[d.sec], true, true, false));
  }

  // ---- From a low second only low seconds follow ---------------------------------------

  predicate Low(c: CronExpr, d: Date)
    requires ValidExpr(c)
  {
    d.sec == 0 || d.sec == FirstBit(c.seconds)
  }

  lemma {:induction false} LowSecond(c: CronExpr, d: Date)
    requires ValidExpr(c) && Valid(d) && Low(c, d)
    ensures Low(c, SecondStep(c, d))
  {
    SecondUp(c, d);
  }

  lemma {:induction false} LowMonth(c: CronExpr, d: Date, x: Date, m: Marks, dot: int)
    requires AtMonth(c, d, x, m, dot) && (Low(c, x) || (m.second && !c.months[x.mon]))
    ensures var r := FromMonth(c, d, x, m, dot); r.ok ==> Low(c, r.time)
    decreases Fuel(d, dot), 0
  {
    var e := Step(c.months, x, Month, Year, m);
    StepMonth(c, x, m);
    if !c.months[x.mon] && e.year - dot <= MAX_YEARS_DIFF {
      MonthLandsIff(c, x, m);
      MonthAhead(c, x, dot, m);
      BeforeHorizon(c, e, dot);
      LowSearch(c, e, dot);
    }
  }

  lemma {:induction false} LowDay(c: CronExpr, d: Date, x: Date, m: Marks, dot: int)
    requires AtDay(c, d, x, m, dot)
    requires Low(c, x) || (m.second && !Matches(c, x))
    requires m.second && !Low(c, x) ==> ClockAdmitted(c, x)
    ensures var r := FromDay(c, d, x, m, dot); r.ok ==> Low(c, r.time)
    decreases Fuel(d, dot), 1
  {
    var e := Scan(c, x, m);
    DayLeads(c, d, x, m, dot);
    ScanMoves(c, x, m);
    if e.mday == x.mday {
      LowMonth(c, d, e, m.(mday := true), dot);
    } else {
      BeforeHorizon(c, e, dot);
      LowSearch(c, e, dot);
      var r := Search(c, e, dot);
      if r.ok {
        LowMonth(c, d, r.time, m, dot);
      }
    }
  }

  lemma {:induction false} LowHour(c: CronExpr, d: Date, x: Date, m: Marks, dot: int)
    requires AtHour(c, d, x, m, dot)
    requires Low(c, x) || (m.second && !Matches(c, x) && SecondDone(c, d, x) && c.minutes[x.min])
    ensures var r := FromHour(c, d, x, m, dot); r.ok ==> Low(c, r.time)
    decreases Fuel(d, dot), 2
  {
    if c.hours[x.hour] {
      HourAdmitted(c, d, x, m, dot);
      LowDay(c, d, x, m.(hour := true), dot);
    } else {
      HourLeads(c, d, x, m, dot);
      StepHour(c, x, m);
      var e := Step(c.hours, x, Hour, DayOfWeek, m);
      BeforeHorizon(c, e, dot);
      LowSearch(c, e, dot);
      var r := Search(c, e, dot);
      if r.ok {
        LowDay(c, d, r.time, m, dot);
      }
    }
  }

  lemma {:induction false} LowMinute(c: CronExpr, d: Date, x: Date, m: Marks, dot: int)
    requires Entered(c, d, dot) && SecondDone(c, d, x) && m == Marks(m.second, false, false, false)
    requires Low(c, x) || (m.second && !Matches(c, x))
    ensures var r := FromMinute(c, d, x, m, dot); r.ok ==> Low(c, r.time)
    decreases Fuel(d, dot), 4
  {
    if c.minutes[x.min] {
      LowHour(c, d, x, m.(minute := true), dot);
    } else {
      MinuteAhead(c, d, x, dot, m);
      StepMinute(c, x, m);
      LowAfter(c, d, Step(c.minutes, x, Minute, Hour, m), m, dot);
    }
  }

  lemma {:induction false} LowAfter(c: CronExpr, d: Date, e: Date, m: Marks, dot: int)
    requires Entered(c, d, dot) && Ahead(c, d, e, dot) && m == Marks(m.second, false, false, false) && Low(c, e)
    ensures
      var r := Search(c, e, dot);
      r.ok ==> Low(c, r.time) && (FromHour(c, d, r.time, m, dot).ok ==> Low(c, FromHour(c, d, r.time, m, dot).time))
    decreases Fuel(d, dot), 3
  {
    BeforeHorizon(c, e, dot);
    LowSearch(c, e, dot);
    var r := Search(c, e, dot);
    if r.ok {
      LowHour(c, d, r.time, m, dot);
    }
  }

  lemma {:induction false} LowSearch(c: CronExpr, d: Date, dot: int)
    requires Entered(c, d, dot) && Low(c, d)
    ensures var r := Search(c, d, dot); r.ok ==> Low(c, r.time)
    decreases Fuel(d, dot), 5
  {
    SecondStage(c, d);
    LowSecond(c, d);
    LowMinute(c, d, SecondStep(c, d), Marks(c.seconds[d.sec], false, false, false), dot);
  }

  /** An admitted second that is not yet part of a match is marked, and so reset by whatever
      stage moves. */
  lemma {:induction false} MarkedSecond(c: CronExpr, d: Date, dot: int)
    requires Entered(c, d, dot) && c.seconds[d.sec] && !Matches(c, d)
    ensures var r := Search(c, d, dot); r.ok ==> Low(c, r.time)
  {
    SecondStage(c, d);
    StepSecond(c, d);
    LowMinute(c, d, d, Marks(true, false, false, false), dot);
  }

  // ---- An advanced second ----------------------------------------------------------------

  /** An admitted second that is neither 0 nor the first one. */
  predicate Advanced(c: CronExpr, d: Date)
    requires ValidExpr(c) && Valid(d)
  {
    c.seconds[d.sec] && !Low(c, d)
  }

  /** Re-entering with an advanced second decides it: a match is the end, anything else resets. */
  lemma {:induction false} EntryDecides(c: CronExpr, e: Date, dot: int)
    requires Entered(c, e, dot) && Advanced(c, e)
    ensures
      var r := Search(c, e, dot);
      && (Matches(c, e) ==> r == Found(true, e, true))
      && (!Matches(c, e) && r.ok ==> Low(c, r.time))
  {
    if Matches(c, e) {
      MatchStays(c, e, dot);
    } else {
      MarkedSecond(c, e, dot);
    }
  }

  lemma {:induction false} LateMonth(c: CronExpr, d: Date, x: Date, m: Marks, dot: int)
    requires AtMonth(c, d, x, m, dot) && !m.second && Advanced(c, x) && !c.months[x.mon]
    ensures
      var r := FromMonth(c, d, x, m, dot);
      r.ok ==> (Low(c, r.time) <==> !Admits(c, Step(c.months, x, Month, Year, m)))
  {
    var e := Step(c.months, x, Month, Year, m);
    StepMonth(c, x, m);
    MonthLandsIff(c, x, m);
    if e.year - dot <= MAX_YEARS_DIFF {
      MonthAhead(c, x, dot, m);
      EntryDecides(c, e, dot);
    }
  }

  const ADVANCED: Marks := Marks(false, true, true, false)

  function DayEntry(c: CronExpr, x: Date): Date
    requires ValidExpr(c) && Valid(x) && Valid(Scan(c, x, ADVANCED))
  {
    var e := Scan(c, x, ADVANCED);
    if e.mday != x.mday || c.months[e.mon] then e else Step(c.months, e, Month, Year, Marks(false, true, true, true))
  }

  lemma {:induction false} LateDay(c: CronExpr, d: Date, x: Date, dot: int)
    requires AtDay(c, d, x, ADVANCED, dot) && Advanced(c, x)
    ensures
      var r := FromDay(c, d, x, ADVANCED, dot);
      Valid(Scan(c, x, ADVANCED)) &&
      (r.ok && Matches(c, r.time) ==> (Low(c, r.time) <==> !Admits(c, DayEntry(c, x))))
  {
    var e := Scan(c, x, ADVANCED);
    DayLeads(c, d, x, ADVANCED, dot);
    ScanMoves(c, x, ADVANCED);
    if e.mday == x.mday {
      if !c.months[e.mon] {
        LateMonth(c, d, e, Marks(false, true, true, true), dot);
      }
    } else {
      BeforeHorizon(c, e, dot);
      LateRest(c, d, e, dot);
    }
  }

  /** The day stage after its re-entry. */
  lemma {:induction false} LateRest(c: CronExpr, d: Date, e: Date, dot: int)
    requires Entered(c, d, dot) && Ahead(c, d, e, dot) && Advanced(c, e)
    ensures
      var r := Search(c, e, dot);
      r.ok ==>
        && AtMonth(c, d, r.time, ADVANCED, dot)
        && (Low(c, FromMonth(c, d, r.time, ADVANCED, dot).time) <==> !Matches(c, e))
  {
    EntryDecides(c, e, dot);
  }

  lemma {:induction false} LateHour(c: CronExpr, d: Date, x: Date, dot: int)
    requires AtHour(c, d, x, Marks(false, true, false, false), dot) && Advanced(c, x) && !c.hours[x.hour]
    requires SecondDone(c, d, x) && c.minutes[x.min]
    ensures
      var r := FromHour(c, d, x, Marks(false, true, false, false), dot);
      r.ok ==> (Low(c, r.time) <==> !Admits(c, Step(c.hours, x, Hour, DayOfWeek, Marks(false, true, false, false))))
  {
    var m := Marks(false, true, false, false);
    HourLeads(c, d, x, m, dot);
    StepHour(c, x, m);
    var e := Step(c.hours, x, Hour, DayOfWeek, m);
    BeforeHorizon(c, e, dot);
    EntryDecides(c, e, dot);
    var r := Search(c, e, dot);
    if r.ok {
      if Matches(c, e) {
        DayStays(c, d, r.time, m, dot);
      } else {
        LowDay(c, d, r.time, m, dot);
      }
    }
  }

  lemma {:induction false} LateMinute(c: CronExpr, d: Date, x: Date, dot: int)
    requires Entered(c, d, dot) && SecondDone(c, d, x) && Advanced(c, x) && !c.minutes[x.min]
    ensures
      var m := Marks(false, false, false, false);
      var r := FromMinute(c, d, x, m, dot);
      r.ok ==> (Low(c, r.time) <==> !Admits(c, Step(c.minutes, x, Minute, Hour, m)))
  {
    var m := Marks(false, false, false, false);
    MinuteAhead(c, d, x, dot, m);
    StepMinute(c, x, m);
    LateAfter(c, d, Step(c.minutes, x, Minute, Hour, m), dot);
  }

  lemma {:induction false} LateAfter(c: CronExpr, d: Date, e: Date, dot: int)
    requires Entered(c, d, dot) && Ahead(c, d, e, dot) && Advanced(c, e)
    ensures
      var m := Marks(false, false, false, false);
      var r := Search(c, e, dot);
      r.ok ==>
        && AtHour(c, d, r.time, m, dot)
        && var s := FromHour(c, d, r.time, m, dot);
           s.ok ==> (Low(c, s.time) <==> !Matches(c, e))
  {
    var m := Marks(false, false, false, false);
    BeforeHorizon(c, e, dot);
    EntryDecides(c, e, dot);
    var r := Search(c, e, dot);
    if r.ok {
      if Matches(c, e) {
        HourStays(c, d, r.time, m, dot);
      } else {
        LowHour(c, d, r.time, m, dot);
      }
    }
  }

  lemma {:induction false} FrameMinute(c: CronExpr, d: Date, dot: int)
    requires Entered(c, d, dot) && !c.seconds[d.sec] && Valid(SecondStep(c, d)) && Advanced(c, SecondStep(c, d))
    requires !c.minutes[SecondStep(c, d).min]
    ensures
      var r := Search(c, d, dot);
      r.ok ==>
        (Low(c, r.time) <==> !Admits(c, Step(c.minutes, SecondStep(c, d), Minute, Hour, Marks(false, false, false, false))))
  {
    SecondStage(c, d);
    LateMinute(c, d, SecondStep(c, d), dot);
  }

  lemma {:induction false} FrameHour(c: CronExpr, d: Date, dot: int)
    requires Entered(c, d, dot) && !c.seconds[d.sec] && Valid(SecondStep(c, d)) && Advanced(c, SecondStep(c, d))
    requires c.minutes[SecondStep(c, d).min] && !c.hours[SecondStep(c, d).hour]
    ensures
      var r := Search(c, d, dot);
      r.ok ==>
        (Low(c, r.time) <==> !Admits(c, Step(c.hours, SecondStep(c, d), Hour, DayOfWeek, Marks(false, true, false, false))))
  {
    SecondStage(c, d);
    LateHour(c, d, SecondStep(c, d), dot);
  }

  lemma {:induction false} FrameDay(c: CronExpr, d: Date, dot: int)
    requires Entered(c, d, dot) && !c.seconds[d.sec] && Valid(SecondStep(c, d)) && Advanced(c, SecondStep(c, d))
    requires c.minutes[SecondStep(c, d).min] && c.hours[SecondStep(c, d).hour]
    ensures
      var r := Search(c, d, dot);
      Valid(Scan(c, SecondStep(c, d), ADVANCED)) &&
      (r.ok && Matches(c, r.time) ==> (Low(c, r.time) <==> !Admits(c, DayEntry(c, SecondStep(c, d)))))
  {
    var x := SecondStep(c, d);
    SecondStage(c, d);
    ToDay(c, d, x, false, dot);
    LateDay(c, d, x, dot);
  }

  lemma {:induction false} LateFrame(c: CronExpr, d: Date, dot: int)
    requires Entered(c, d, dot) && !c.seconds[d.sec] && Valid(SecondStep(c, d)) && Advanced(c, SecondStep(c, d))
    requires Valid(Scan(c, SecondStep(c, d), Marks(c.seconds[d.sec], true, true, false)))
    ensures
      var r := Search(c, d, dot);
      r.ok && Matches(c, r.time) ==> (Low(c, r.time) <==> !Admits(c, FirstEntry(c, d)))
  {
    if !c.minutes[SecondStep(c, d).min] {
      FrameMinute(c, d, dot);
    } else if !c.hours[SecondStep(c, d).hour] {
      FrameHour(c, d, dot);
    } else {
      FrameDay(c, d, dot);
    }
  }

  /** For any expression: a reported match in a later minute stands at the first admitted second
      of that minute, unless the first frame's advanced second was lost. */
  lemma {:induction false} SecondIff(c: CronExpr, d: Date, dot: int)
    requires Entered(c, d, dot) && Search(c, d, dot).ok
    requires var g := Search(c, d, dot).time; Matches(c, g) && MinuteNumber(g) > MinuteNumber(d)
    ensures
      && Valid(SecondStep(c, d))
      && Valid(Scan(c, SecondStep(c, d), Marks(c.seconds[d.sec], true, true, false)))
      && (Search(c, d, dot).time.sec == FirstBit(c.seconds) <==> !LateSecond(c, d))
  {
    FirstFrame(c, d);
    var x := SecondStep(c, d);
    if c.seconds[d.sec] {
      if Matches(c, d) {
        MatchStays(c, d, dot);
      } else {
        MarkedSecond(c, d, dot);
      }
    } else {
      StepSecond(c, d);
      AdvancedIff(c, d);
      if Advanced(c, x) {
        LateFrame(c, d, dot);
      } else {
        SecondStage(c, d);
        LowMinute(c, d, x, Marks(false, false, false, false), dot);
      }
    }
  }

  lemma {:induction false} AdvancedIff(c: CronExpr, d: Date)
    requires ValidExpr(c) && Valid(d) && !c.seconds[d.sec]
    ensures Valid(SecondStep(c, d))
    ensures Advanced(c, SecondStep(c, d)) <==>
            NextBit(c.seconds, d.sec) < 60 && NextBit(c.seconds, d.sec) != FirstBit(c.seconds)
  {
    StepSecond(c, d);
    if NextBit(c.seconds, d.sec) == 60 {
      SecondWraps(c, d);
    } else {
      SecondUp(c, d);
    }
  }

  // ---- To the second ------------------------------------------------------------------------

  /** From `d` on, and before `e`, no date matches. */
  ghost predicate NoneBefore(c: CronExpr, d: Date, e: Date)
    requires ValidExpr(c) && Valid(d) && Valid(e)
  {
    forall x {:trigger Matches(c, x)} | Valid(x) && Instant(d) <= Instant(x) < Instant(e) :: !Matches(c, x)
  }

  /** For any expression: a reported match is the earliest one if and only if every month that was
      set was kept and no advanced second was lost on the way to another minute. */
  lemma {:induction false} EarliestIff(c: CronExpr, d: Date, dot: int)
    requires Entered(c, d, dot) && Search(c, d, dot).ok && Matches(c, Search(c, d, dot).time)
    requires Valid(SecondStep(c, d)) && Valid(Scan(c, SecondStep(c, d), Marks(c.seconds[d.sec], true, true, false)))
    ensures
      var r := Search(c, d, dot);
      NoneBefore(c, d, r.time) <==>
      r.kept && (MinuteNumber(r.time) == MinuteNumber(d) || !LateSecond(c, d))
  {
    var g := Search(c, d, dot).time;
    Kept(c, d, dot);
    LaterSecond(d, g);
    if MinuteNumber(g) == MinuteNumber(d) {
      SameMinuteFirst(c, d, dot);
      WithinMinute(c, d, g);
    } else {
      SecondIff(c, d, dot);
      AcrossMinutes(c, d, g);
    }
  }

  /** In the minute of the start the search stops at the first admitted second. */
  lemma {:induction false} SameMinuteFirst(c: CronExpr, d: Date, dot: int)
    requires Entered(c, d, dot) && Search(c, d, dot).ok
    requires var g := Search(c, d, dot).time; Matches(c, g) && MinuteNumber(g) == MinuteNumber(d)
    ensures Search(c, d, dot).time.sec == NextBit(c.seconds, d.sec)
  {
    var g, x := Search(c, d, dot).time, SecondStep(c, d);
    SecondStage(c, d);
    ReachedAfter(c, d, dot);
    StaysInMinute(c, d, g);
    SecondUp(c, d);
    OneDateAMinute(x, g);
    SameDaySameMatch(c, x, g);
    MinuteStays(c, d, x, Marks(c.seconds[d.sec], false, false, false), dot);
  }

  /** Within the minute of the start the second stage did not wrap. */
  lemma {:induction false} StaysInMinute(c: CronExpr, d: Date, g: Date)
    requires ValidExpr(c) && Valid(d) && Valid(g) && Valid(SecondStep(c, d))
    requires MinuteNumber(g) == MinuteNumber(d) && Instant(SecondStep(c, d)) <= Instant(g)
    ensures NextBit(c.seconds, d.sec) < 60
  {
    LaterSecond(SecondStep(c, d), g);
    if NextBit(c.seconds, d.sec) == 60 {
      SecondWraps(c, d);
    }
  }

  lemma {:induction false} ReachedAfter(c: CronExpr, d: Date, dot: int)
    requires Entered(c, d, dot) && Valid(SecondStep(c, d))
    ensures Instant(SecondStep(c, d)) <= Instant(Search(c, d, dot).time)
  {
    SecondStage(c, d);
    KeptMinute(c, d, SecondStep(c, d), Marks(c.seconds[d.sec], false, false, false), dot);
  }

  lemma {:induction false} WithinMinute(c: CronExpr, d: Date, g: Date)
    requires ValidExpr(c) && Valid(d) && Valid(g) && MinuteNumber(g) == MinuteNumber(d)
    requires g.sec == NextBit(c.seconds, d.sec)
    ensures NoneBefore(c, d, g) && NoneBetween(c, d, g)
  {
    forall x | Valid(x) && Instant(d) <= Instant(x) < Instant(g) ensures !Matches(c, x) {
      LaterSecond(d, x);
      LaterSecond(x, g);
    }
    forall x | Valid(x) && Instant(d) <= Instant(x) ensures MinuteNumber(g) <= MinuteNumber(x) {
      LaterSecond(d, x);
    }
  }

  lemma {:induction false} AcrossMinutes(c: CronExpr, d: Date, g: Date)
    requires ValidExpr(c) && Valid(d) && Valid(g) && Matches(c, g) && MinuteNumber(d) < MinuteNumber(g)
    ensures NoneBefore(c, d, g) <==> NoneBetween(c, d, g) && g.sec == FirstBit(c.seconds)
  {
    InstantOfMinute(d);
    InstantOfMinute(g);
    if NoneBetween(c, d, g) && g.sec == FirstBit(c.seconds) {
      forall x | Valid(x) && Instant(d) <= Instant(x) < Instant(g) ensures !Matches(c, x) {
        LaterSecond(x, g);
      }
    }
    if NoneBefore(c, d, g) {
      forall x | Valid(x) && Instant(d) <= Instant(x) && MinuteNumber(x) < MinuteNumber(g) ensures !Matches(c, x) {
        InstantOfMinute(x);
      }
      var first := g.(sec := FirstBit(c.seconds));
      InstantOfMinute(first);
      SameDaySameMatch(c, g, first);
      assert Matches(c, first);
    }
  }
}
