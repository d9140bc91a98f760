/** Runs of the cron search of framework/cron/croncpp.hpp that report the wrong time: one for each
    way in which the conditions of `CronSound`, `CronKept` and `CronSecond` can fail. */
module CronWitness {
  import opened CronCalendar
  import opened CronSteps
  import opened CronDays
  import opened CronSearch
  import opened CronFind
  import opened CronSound
  import opened CronPasses
  import opened CronNext

  function Only(n: nat, v: int): seq<bool> { seq(n, i => i == v) }

  function Every(n: nat): seq<bool> { seq(n, i => true) }

  lemma {:induction false} Admitted(bits: seq<bool>, v: nat)
    requires v < |bits| && bits[v]
    ensures SomeBit(bits)
  {
  }

  // ---- A scan that misses ---------------------------------------------------------------

  /** "0 0 0 31 * THU" */
  const THURSDAY_31: CronExpr := CronExpr(Only(60, 0), Only(60, 0), Only(24, 0), Only(7, 4), Only(31, 30), Every(12))

  lemma {:induction false} ThursdayValid()
    ensures ValidExpr(THURSDAY_31)
  {
    Admitted(THURSDAY_31.seconds, 0);
    Admitted(THURSDAY_31.minutes, 0);
    Admitted(THURSDAY_31.hours, 0);
    Admitted(THURSDAY_31.daysOfWeek, 4);
    Admitted(THURSDAY_31.daysOfMonth, 30);
    Admitted(THURSDAY_31.months, 0);
  }

  /** From 1 March 2027 the next Thursday the 31st is reported to be 1 March 2028, a Wednesday. */
  lemma {:induction false} ThursdayMissed()
    ensures
      var d := Date(2027, 2, 1, 0, 0, 0);
      && ValidExpr(THURSDAY_31) && Valid(d)
      && NextTime(THURSDAY_31, d) == Found(true, Date(2028, 2, 1, 0, 0, 0), true)
      && !Matches(THURSDAY_31, NextTime(THURSDAY_31, d).time)
  {
    ThursdayValid();
    ThursdayScan(THURSDAY_31, Date(2027, 2, 1, 0, 0, 0));
    MissIsNext(THURSDAY_31, Date(2027, 2, 1, 0, 0, 0));
  }

  lemma {:induction false} ThursdayScan(c: CronExpr, d: Date)
    requires c == THURSDAY_31 && ValidExpr(c) && d == Date(2027, 2, 1, 0, 0, 0)
    ensures Misses(c, d) && Scan(c, d, DAY_MARKS) == Date(2028, 2, 1, 0, 0, 0)
  {
    ScanMisses(c, d, DAY_MARKS);
    ScanMoves(c, d, DAY_MARKS);
  }

  /** "0 0 9 13 * FRI" */
  const FRIDAY_13: CronExpr := CronExpr(Only(60, 0), Only(60, 0), Only(24, 9), Only(7, 5), Only(31, 12), Every(12))

  lemma {:induction false} FridayValid()
    ensures ValidExpr(FRIDAY_13)
  {
    Admitted(FRIDAY_13.seconds, 0);
    Admitted(FRIDAY_13.minutes, 0);
    Admitted(FRIDAY_13.hours, 9);
    Admitted(FRIDAY_13.daysOfWeek, 5);
    Admitted(FRIDAY_13.daysOfMonth, 12);
    Admitted(FRIDAY_13.months, 0);
  }

  /** The days after 13 January 2026, up to 13 February. */
  lemma {:induction false} DaysAfter(d: Date, i: nat)
    requires d == Date(2026, 0, 13, 9, 0, 0) && i <= 31
    ensures
      SameDay(AddDays(d, i), if i <= 18 then Date(2026, 0, 13 + i, 9, 0, 0) else Date(2026, 1, i - 18, 9, 0, 0))
  {
    AddDaysNumber(d, i);
    OneDateADay(AddDays(d, i), if i <= 18 then Date(2026, 0, 13 + i, 9, 0, 0) else Date(2026, 1, i - 18, 9, 0, 0));
  }

  lemma {:induction false} FridayWeekdays()
    ensures Weekday(Date(2026, 0, 13, 9, 0, 0)) == 2 && Weekday(Date(2026, 1, 13, 9, 0, 0)) == 5
  {
  }

  lemma {:induction false} FridayDay(i: nat)
    requires i <= 31
    ensures
      var c, d := FRIDAY_13, Date(2026, 0, 13, 9, 0, 0);
      ValidExpr(c) && Valid(d) && (DayMatches(c, AddDays(d, i)) <==> i == 31)
  {
    var d := Date(2026, 0, 13, 9, 0, 0);
    FridayValid();
    DaysAfter(d, i);
    FridayWeekdays();
    SameDaySameMatch(FRIDAY_13, AddDays(d, i), if i <= 18 then Date(2026, 0, 13 + i, 9, 0, 0) else Date(2026, 1, i - 18, 9, 0, 0));
  }

  lemma {:induction false} FridayScan()
    ensures
      var c, d := FRIDAY_13, Date(2026, 0, 13, 9, 0, 0);
      && ValidExpr(c) && Valid(d) && !DayMatches(c, d)
      && Scan(c, d, DAY_MARKS) == Date(2026, 1, 13, 0, 0, 0)
  {
    var c, d := FRIDAY_13, Date(2026, 0, 13, 9, 0, 0);
    FridayValid();
    DaysToMatchIsFirst(c, d, MAX_DAYS);
    var k := DaysToMatch(c, d, MAX_DAYS);
    FridayDay(31);
    FridayDay(0);
    assert AddDays(d, 0) == d;
    if k < 31 {
      FridayDay(k);
    }
    DaysAfter(d, 31);
  }

  /** From 13 January 2026, 09:00, the scan finds the Friday, but on the same day of the month; its
      midnight is reported although only nine o'clock is admitted. */
  lemma {:induction false} FridayMissed()
    ensures
      var d := Date(2026, 0, 13, 9, 0, 0);
      && ValidExpr(FRIDAY_13) && Valid(d)
      && NextTime(FRIDAY_13, d) == Found(true, Date(2026, 1, 13, 0, 0, 0), true)
      && !Matches(FRIDAY_13, NextTime(FRIDAY_13, d).time)
      && DayMatches(FRIDAY_13, NextTime(FRIDAY_13, d).time)
  {
    var c, d := FRIDAY_13, Date(2026, 0, 13, 9, 0, 0);
    FridayScan();
    FridayMisses(c, d);
    MissIsNext(c, d);
  }

  lemma {:induction false} FridayMisses(c: CronExpr, d: Date)
    requires ValidExpr(c) && c.seconds[0] && c.minutes[0] && c.hours[9] && !c.hours[0] && c.months[1]
    requires d == Date(2026, 0, 13, 9, 0, 0) && c.daysOfMonth[12] && c.daysOfWeek[5]
    requires !DayMatches(c, d) && Scan(c, d, DAY_MARKS) == Date(2026, 1, 13, 0, 0, 0)
    ensures Misses(c, d) && DayMatches(c, Date(2026, 1, 13, 0, 0, 0))
  {
    FridayWeekdays();
  }

  // ---- A month that is passed over -----------------------------------------------------------

  /** "0 0 0 * 2 *" */
  const FEBRUARY: CronExpr := CronExpr(Only(60, 0), Only(60, 0), Only(24, 0), Every(7), Every(31), Only(12, 1))

  lemma {:induction false} FebruaryValid()
    ensures ValidExpr(FEBRUARY)
  {
    Admitted(FEBRUARY.seconds, 0);
    Admitted(FEBRUARY.minutes, 0);
    Admitted(FEBRUARY.hours, 0);
    Admitted(FEBRUARY.daysOfWeek, 0);
    Admitted(FEBRUARY.daysOfMonth, 0);
    Admitted(FEBRUARY.months, 1);
  }

  /** A midnight outside February goes straight to the month stage. */
  lemma {:induction false} MidnightToMonth(d: Date, dot: int)
    requires ValidExpr(FEBRUARY) && Valid(d) && d.hour == 0 && d.min == 0 && d.sec == 0 && Entered(FEBRUARY, d, dot)
    ensures
      var m := Marks(true, true, true, true);
      AtMonth(FEBRUARY, d, d, m, dot) && Search(FEBRUARY, d, dot) == FromMonth(FEBRUARY, d, d, m, dot)
  {
    MidnightStays(d);
    ToDay(FEBRUARY, d, d, true, dot);
    DayLeads(FEBRUARY, d, d, DAY_MARKS, dot);
  }

  lemma {:induction false} MidnightStays(d: Date)
    requires ValidExpr(FEBRUARY) && Valid(d) && d.hour == 0 && d.min == 0 && d.sec == 0
    ensures SecondDone(FEBRUARY, d, d) && SecondStep(FEBRUARY, d) == d
    ensures ClockAdmitted(FEBRUARY, d) && DayMatches(FEBRUARY, d)
  {
    SecondStage(FEBRUARY, d);
    StepSecond(FEBRUARY, d);
  }

  lemma {:induction false} FromMarch(year: int, dot: int)
    requires ValidExpr(FEBRUARY) && dot == year
    ensures
      var d := Date(year, 2, 1, 0, 0, 0);
      Entered(FEBRUARY, d, dot) && Search(FEBRUARY, d, dot) == Found(true, Date(year + 1, 1, 1, 0, 0, 0), true)
  {
    var d, e, m := Date(year, 2, 1, 0, 0, 0), Date(year + 1, 1, 1, 0, 0, 0), Marks(true, true, true, true);
    MidnightToMonth(d, dot);
    MonthLandsIff(FEBRUARY, d, m);
    assert Step(FEBRUARY.months, d, Month, Year, m) == e;
    MonthAhead(FEBRUARY, d, dot, m);
    MatchStays(FEBRUARY, e, dot);
  }

  /** From 31 January the first of February is reported, but of the next year. */
  lemma {:induction false} FebruaryPassedOver(year: int)
    ensures
      var c, d, first := FEBRUARY, Date(year, 0, 31, 0, 0, 0), Date(year, 1, 1, 0, 0, 0);
      && ValidExpr(c) && Valid(d) && Valid(first)
      && NextTime(c, d) == Found(true, Date(year + 1, 1, 1, 0, 0, 0), false)
      && Matches(c, first) && Instant(d) < Instant(first) < Instant(NextTime(c, d).time)
  {
    var c, d, m := FEBRUARY, Date(year, 0, 31, 0, 0, 0), Marks(true, true, true, true);
    FebruaryValid();
    MidnightToMonth(d, year);
    MonthLandsIff(c, d, m);
    assert Step(c.months, d, Month, Year, m) == Date(year, 2, 1, 0, 0, 0);
    MonthAhead(c, d, year, m);
    FromMarch(year, year);
    FebruaryOffers(year);
    LaterMonth(d, Date(year, 1, 1, 0, 0, 0));
    LaterYear(Date(year, 1, 1, 0, 0, 0), Date(year + 1, 1, 1, 0, 0, 0));
  }

  lemma {:induction false} FebruaryOffers(year: int)
    requires ValidExpr(FEBRUARY)
    ensures !KeepsMonth(FEBRUARY, Date(year, 0, 31, 0, 0, 0))
  {
    assert DayMatches(FEBRUARY, Date(year, 1, 1, 0, 0, 0));
  }

  // ---- A second that is lost --------------------------------------------------------------

  /** "10,30 5 * * * *" */
  const TWO_SECONDS: CronExpr :=
    CronExpr(seq(60, i => i == 10 || i == 30), Only(60, 5), Every(24), Every(7), Every(31), Every(12))

  lemma {:induction false} TwoSecondsValid()
    ensures ValidExpr(TWO_SECONDS)
  {
    Admitted(TWO_SECONDS.seconds, 10);
    Admitted(TWO_SECONDS.minutes, 5);
    Admitted(TWO_SECONDS.hours, 0);
    Admitted(TWO_SECONDS.daysOfWeek, 0);
    Admitted(TWO_SECONDS.daysOfMonth, 0);
    Admitted(TWO_SECONDS.months, 0);
  }

  /** From second 15 of any full hour second 30 of minute 5 is reported; second 10 comes earlier. */
  lemma {:induction false} SecondLost(d: Date)
    requires Valid(d) && d.min == 0 && d.sec == 15
    ensures
      var c, e := TWO_SECONDS, d.(min := 5, sec := 10);
      && ValidExpr(c) && Valid(e) && NextTime(c, d) == Found(true, d.(min := 5, sec := 30), true)
      && Matches(c, e) && Instant(d) < Instant(e) < Instant(NextTime(c, d).time)
  {
    TwoSecondsValid();
    SecondKept(TWO_SECONDS, d, d.(sec := 30), d.(min := 5, sec := 30));
    InstantOfMinute(d);
    InstantOfMinute(d.(min := 5, sec := 10));
    InstantOfMinute(d.(min := 5, sec := 30));
  }

  /** The advanced second is not marked when the minute stage moves, and its landing is a match. */
  lemma {:induction false} SecondKept(c: CronExpr, d: Date, x: Date, e: Date)
    requires c == TWO_SECONDS && ValidExpr(c) && Valid(d) && d.min == 0 && d.sec == 15
    requires x == d.(sec := 30) && e == d.(min := 5, sec := 30)
    ensures Search(c, d, d.year) == Found(true, e, true)
  {
    SecondThenMinute(c, d, x, e);
    SecondStage(c, d);
    FromMovedMinute(c, d, x, e, Marks(false, false, false, false), d.year);
  }

  lemma {:induction false} NextIs(bits: seq<bool>, from: nat, v: nat)
    requires from <= v < |bits| && bits[v] && forall i | from <= i < v :: !bits[i]
    ensures NextBit(bits, from) == v
  {
  }

  lemma {:induction false} SecondThenMinute(c: CronExpr, d: Date, x: Date, e: Date)
    requires c == TWO_SECONDS && ValidExpr(c) && Valid(d) && d.min == 0 && d.sec == 15
    requires x == d.(sec := 30) && e == d.(min := 5, sec := 30)
    ensures !c.seconds[d.sec] && SecondStep(c, d) == x
    ensures !c.minutes[x.min] && Step(c.minutes, x, Minute, Hour, Marks(false, false, false, false)) == e
    ensures Admits(c, e)
  {
    NextIs(c.seconds, 15, 30);
    SecondUp(c, d);
    NextIs(c.minutes, 0, 5);
    MinuteUp(c, x, Marks(false, false, false, false));
  }

  lemma {:induction false} FromMovedMinute(c: CronExpr, d: Date, x: Date, e: Date, m: Marks, dot: int)
    requires Entered(c, d, dot) && SecondDone(c, d, x) && m == Marks(m.second, false, false, false)
    requires !c.minutes[x.min] && e == Step(c.minutes, x, Minute, Hour, m) && Admits(c, e)
    ensures FromMinute(c, d, x, m, dot) == Found(true, e, true)
  {
    MinuteAhead(c, d, x, dot, m);
    MatchStays(c, e, dot);
    HourStays(c, d, e, m, dot);
  }
}
