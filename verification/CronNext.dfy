/** The search itself (`find_next` and `cron_next` of framework/cron/croncpp.hpp). A frame runs five
    stages on the shared time; a stage that had to move re-enters the whole search and then lets
    the later stages of the frame go on. The stages are methods here so that each is checked
    alone; `d` is the date the frame was entered with. */
module CronNext {
  import opened CronCalendar
  import opened CronSteps
  import opened CronDays
  import opened CronSearch
  import opened CronFind
  import opened CronSound
  import opened CronPasses
  import opened CronEarliest
  import opened CronSecond

  ghost predicate Gives(r: Found, ok: bool, time: Date) { r.ok == ok && r.time == time }

  // ---- One frame -----------------------------------------------------------------

  /** One frame of the search, for every expression: it ends, with what `Search` says. */
  method FindNext(c: CronExpr, tm: Tm, dot: int) returns (ok: bool)
    requires tm.Normal() && Entered(c, tm.Date(), dot)
    modifies tm
    ensures tm.Normal() && Gives(Search(c, old(tm.Date()), dot), ok, tm.Date())
    decreases Fuel(tm.Date(), dot), 1
  {
    ghost var d := tm.Date();
    SecondStage(c, d);
    var m := SearchSecond(c, tm);
    ok, m := SearchMinute(c, tm, dot, m, d);
    if !ok {
      return;
    }
    ok, m := SearchHour(c, tm, dot, m, d);
    if !ok {
      return;
    }
    ok, m := SearchDay(c, tm, dot, m, d);
    if !ok {
      return;
    }
    ok := SearchMonth(c, tm, dot, m, d);
  }

  method SearchSecond(c: CronExpr, tm: Tm) returns (m: Marks)
    requires tm.Normal() && ValidExpr(c)
    modifies tm
    ensures tm.Normal() && tm.Date() == SecondStep(c, old(tm.Date()))
    ensures m == Marks(c.seconds[old(tm.sec)], false, false, false)
  {
    var second := tm.sec;
    var updatedSecond := tm.FindNextField(c.seconds, second, Second, Minute, NO_MARKS);
    m := Marks(second == updatedSecond, false, false, false);
  }

  method SearchMinute(c: CronExpr, tm: Tm, dot: int, m0: Marks, ghost d: Date) returns (ok: bool, m: Marks)
    requires tm.Normal() && Entered(c, d, dot) && SecondDone(c, d, tm.Date())
    requires m0 == Marks(m0.second, false, false, false)
    modifies tm
    ensures tm.Normal() && (ok ==> AtHour(c, d, tm.Date(), m, dot))
    ensures
      var r := if ok then FromHour(c, d, tm.Date(), m, dot) else Found(false, tm.Date(), true);
      Gives(FromMinute(c, d, old(tm.Date()), m0, dot), r.ok, r.time)
    decreases Fuel(d, dot), 0
  {
    ok, m := true, m0;
    var minute := tm.min;
    ghost var x := tm.Date();
    StepMinute(c, x, m);
    var updatedMinute := tm.FindNextField(c.minutes, minute, Minute, Hour, m);
    if minute == updatedMinute {
      m := m.(minute := true);
    } else {
      MinuteAhead(c, d, x, dot, m);
      BeforeHorizon(c, tm.Date(), dot);
      ok := FindNext(c, tm, dot);
    }
  }

  method SearchHour(c: CronExpr, tm: Tm, dot: int, m0: Marks, ghost d: Date) returns (ok: bool, m: Marks)
    requires tm.Normal() && AtHour(c, d, tm.Date(), m0, dot)
    modifies tm
    ensures tm.Normal() && (ok ==> AtDay(c, d, tm.Date(), m, dot))
    ensures
      var r := if ok then FromDay(c, d, tm.Date(), m, dot) else Found(false, tm.Date(), true);
      Gives(FromHour(c, d, old(tm.Date()), m0, dot), r.ok, r.time)
    decreases Fuel(d, dot), 0
  {
    ok, m := true, m0;
    var hour := tm.hour;
    ghost var x := tm.Date();
    var updatedHour := tm.FindNextField(c.hours, hour, Hour, DayOfWeek, m);
    if hour == updatedHour {
      HourAdmitted(c, d, x, m, dot);
      m := m.(hour := true);
    } else {
      HourLeads(c, d, x, m, dot);
      BeforeHorizon(c, tm.Date(), dot);
      ok := FindNext(c, tm, dot);
    }
  }

  method SearchDay(c: CronExpr, tm: Tm, dot: int, m0: Marks, ghost d: Date) returns (ok: bool, m: Marks)
    requires tm.Normal() && AtDay(c, d, tm.Date(), m0, dot)
    modifies tm
    ensures tm.Normal() && (ok ==> AtMonth(c, d, tm.Date(), m, dot))
    ensures
      var r := if ok then FromMonth(c, d, tm.Date(), m, dot) else Found(false, tm.Date(), true);
      Gives(FromDay(c, d, old(tm.Date()), m0, dot), r.ok, r.time)
    decreases Fuel(d, dot), 0
  {
    ok, m := true, m0;
    var mday := tm.mday;
    DayLeads(c, d, tm.Date(), m, dot);
    var updatedDay := FindNextDay(c, tm, m);
    if mday == updatedDay {
      m := m.(mday := true);
    } else {
      BeforeHorizon(c, tm.Date(), dot);
      ok := FindNext(c, tm, dot);
    }
  }

  method SearchMonth(c: CronExpr, tm: Tm, dot: int, m: Marks, ghost d: Date) returns (ok: bool)
    requires tm.Normal() && AtMonth(c, d, tm.Date(), m, dot)
    modifies tm
    ensures tm.Normal() && Gives(FromMonth(c, d, old(tm.Date()), m, dot), ok, tm.Date())
    decreases Fuel(d, dot), 0
  {
    ok := true;
    var month := tm.mon;
    ghost var x := tm.Date();
    StepMonth(c, x, m);
    var updatedMonth := tm.FindNextField(c.months, month, Month, Year, m);
    if month != updatedMonth {
      if tm.year - dot > MAX_YEARS_DIFF {
        return false;
      }
      MonthAhead(c, x, dot, m);
      BeforeHorizon(c, tm.Date(), dot);
      ok := FindNext(c, tm, dot);
    }
  }

  // ---- Strictly forward --------------------------------------------------------------

  lemma {:induction false} MonthLater(c: CronExpr, d: Date, x: Date, m: Marks, dot: int)
    requires AtMonth(c, d, x, m, dot) && !c.months[x.mon]
    ensures var r := FromMonth(c, d, x, m, dot); Instant(r.time) > Instant(x)
  {
    StepMonth(c, x, m);
  }

  lemma {:induction false} DayLater(c: CronExpr, d: Date, x: Date, m: Marks, dot: int)
    requires AtDay(c, d, x, m, dot) && !(DayMatches(c, x) && c.months[x.mon])
    ensures var r := FromDay(c, d, x, m, dot); Instant(r.time) > Instant(x)
  {
    DayLeads(c, d, x, m, dot);
    if DayMatches(c, x) {
      MonthLater(c, d, x, m.(mday := true), dot);
    } else {
      DayMoved(c, d, x, m, dot);
    }
  }

  lemma {:induction false} DayMoved(c: CronExpr, d: Date, x: Date, m: Marks, dot: int)
    requires AtDay(c, d, x, m, dot) && !DayMatches(c, x)
    ensures var r := FromDay(c, d, x, m, dot); Instant(r.time) > Instant(x)
  {
    var e := Scan(c, x, m);
    DayLeads(c, d, x, m, dot);
    ScanMoves(c, x, m);
    if e.mday == x.mday {
      KeptMonth(c, d, e, m.(mday := true), dot);
    } else {
      BeforeHorizon(c, e, dot);
      var r := Search(c, e, dot);
      if r.ok {
        KeptMonth(c, d, r.time, m, dot);
      }
    }
  }

  lemma {:induction false} HourLater(c: CronExpr, d: Date, x: Date, m: Marks, dot: int)
    requires AtHour(c, d, x, m, dot) && !(c.hours[x.hour] && DayMatches(c, x) && c.months[x.mon])
    ensures var r := FromHour(c, d, x, m, dot); Instant(r.time) > Instant(x)
  {
    if c.hours[x.hour] {
      HourAdmitted(c, d, x, m, dot);
      DayLater(c, d, x, m.(hour := true), dot);
    } else {
      HourLeads(c, d, x, m, dot);
      var e := Step(c.hours, x, Hour, DayOfWeek, m);
      StepHour(c, x, m);
      BeforeHorizon(c, e, dot);
      var r := Search(c, e, dot);
      if r.ok {
        KeptDay(c, d, r.time, m, dot);
      }
    }
  }

  lemma {:induction false} MinuteMoved(c: CronExpr, d: Date, x: Date, m: Marks, dot: int)
    requires Entered(c, d, dot) && SecondDone(c, d, x) && m == Marks(m.second, false, false, false)
    requires !c.minutes[x.min]
    ensures var r := FromMinute(c, d, x, m, dot); Instant(r.time) > Instant(d)
  {
    MinuteAhead(c, d, x, dot, m);
    var e := Step(c.minutes, x, Minute, Hour, m);
    BeforeHorizon(c, e, dot);
    var r := Search(c, e, dot);
    if r.ok {
      KeptHour(c, d, r.time, m, dot);
    }
  }

  /** A search that does not start at a match moves on. */
  lemma {:induction false} SearchLater(c: CronExpr, d: Date, dot: int)
    requires Entered(c, d, dot) && !Matches(c, d)
    ensures Instant(Search(c, d, dot).time) > Instant(d)
  {
    var x, m := SecondStep(c, d), Marks(c.seconds[d.sec], false, false, false);
    SecondStage(c, d);
    StepSecond(c, d);
    KeptMinute(c, d, x, m, dot);
    if c.seconds[d.sec] && c.minutes[x.min] {
      HourLater(c, d, x, m.(minute := true), dot);
    } else if c.seconds[d.sec] {
      MinuteMoved(c, d, x, m, dot);
    }
  }

  // ---- The next time ------------------------------------------------------------------

  /** One second later if the date itself matches: what is looked for lies strictly after it. */
  function Begin(c: CronExpr, d: Date): Date
    requires ValidExpr(c) && Valid(d)
  {
    if Matches(c, d) then Mktime(AddOne(d, Second)) else d
  }

  lemma {:induction false} OneSecondLater(d: Date)
    requires Valid(d)
    ensures Valid(Mktime(AddOne(d, Second))) && Instant(Mktime(AddOne(d, Second))) == Instant(d) + 1
  {
    MktimeSameInstant(d.(sec := d.sec + 1));
  }

  lemma {:induction false} BeginInstant(c: CronExpr, d: Date)
    requires ValidExpr(c) && Valid(d)
    ensures Valid(Begin(c, d)) && Entered(c, Begin(c, d), Begin(c, d).year)
    ensures Instant(Begin(c, d)) == Instant(d) + (if Matches(c, d) then 1 else 0)
    ensures Begin(c, d).year >= d.year
  {
    OneSecondLater(d);
    NotEarlierYear(d, Begin(c, d));
  }

  ghost function NextTime(c: CronExpr, d: Date): Found
    requires ValidExpr(c) && Valid(d)
  {
    BeginInstant(c, d);
    Search(c, Begin(c, d), Begin(c, d).year)
  }

  /** Strictly after `d`, and before the minute of `e`, no date matches. */
  ghost predicate NoneAfter(c: CronExpr, d: Date, e: Date)
    requires ValidExpr(c) && Valid(d) && Valid(e)
  {
    forall x {:trigger Matches(c, x)} | Valid(x) && Instant(d) < Instant(x) && MinuteNumber(x) < MinuteNumber(e) ::
      !Matches(c, x)
  }

  /** Strictly after `d` and before `e`, to the second, no date matches. */
  ghost predicate NoneWithin(c: CronExpr, d: Date, e: Date)
    requires ValidExpr(c) && Valid(d) && Valid(e)
  {
    forall x {:trigger Matches(c, x)} | Valid(x) && Instant(d) < Instant(x) < Instant(e) :: !Matches(c, x)
  }

  lemma {:induction false} SameInstant(x: Date, y: Date)
    requires Valid(x) && Valid(y) && Instant(x) == Instant(y)
    ensures x == y
  {
    InstantOfMinute(x);
    InstantOfMinute(y);
    OneDateAMinute(x, y);
  }

  lemma {:induction false} BeginNext(c: CronExpr, d: Date, x: Date)
    requires ValidExpr(c) && Valid(d) && Valid(x) && Matches(c, x)
    ensures Valid(Begin(c, d)) && (Instant(d) < Instant(x) <==> Instant(Begin(c, d)) <= Instant(x))
  {
    BeginInstant(c, d);
    if Instant(x) == Instant(d) {
      SameInstant(x, d);
    }
  }

  /** A time that is found lies strictly later; none is found only past the fourth year. */
  lemma {:induction false} NextIsLater(c: CronExpr, d: Date)
    requires ValidExpr(c) && Valid(d)
    ensures var r := NextTime(c, d); Valid(r.time) && Instant(r.time) > Instant(d)
    ensures var r := NextTime(c, d); !r.ok ==> r.time.year > d.year + 4
  {
    BeginInstant(c, d);
    if !Matches(c, d) {
      SearchLater(c, d, d.year);
    }
  }

  ghost predicate NextIsSound(c: CronExpr)
    requires ValidExpr(c)
  {
    forall d | Valid(d) :: NextTime(c, d).ok ==> Matches(c, NextTime(c, d).time)
  }

  /** Whatever is found matches, from every start, if and only if the day scan never comes back to
      the same day of the month without a match. */
  lemma {:induction false} NextSoundIff(c: CronExpr)
    requires ValidExpr(c)
    ensures NextIsSound(c) <==> NeverMisses(c)
    ensures DayFree(c) ==> NextIsSound(c)
  {
    if DayFree(c) {
      FreeNeverMisses(c);
    }
    if NeverMisses(c) {
      forall d | Valid(d) ensures NextTime(c, d).ok ==> Matches(c, NextTime(c, d).time) {
        BeginInstant(c, d);
        Sound(c, Begin(c, d), Begin(c, d).year);
      }
    } else {
      var x :| Misses(c, x);
      MissIsNext(c, x);
    }
  }

  lemma {:induction false} MissIsNext(c: CronExpr, x: Date)
    requires ValidExpr(c) && Misses(c, x)
    ensures NextTime(c, x) == Found(true, Scan(c, x, DAY_MARKS), true) && !Matches(c, Scan(c, x, DAY_MARKS))
  {
    MissReported(c, x);
  }

  /** For any expression and start: no minute before that of the result has a match, if and only if
      every month that was set was kept. */
  lemma {:induction false} NextKeptIff(c: CronExpr, d: Date)
    requires ValidExpr(c) && Valid(d)
    ensures var r := NextTime(c, d); Valid(r.time) && (r.kept <==> NoneAfter(c, d, r.time))
  {
    BeginInstant(c, d);
    var b := Begin(c, d);
    var g := NextTime(c, d).time;
    Kept(c, b, b.year);
    NoneFromBegin(c, d, g);
  }

  lemma {:induction false} NoneFromBegin(c: CronExpr, d: Date, g: Date)
    requires ValidExpr(c) && Valid(d) && Valid(g)
    ensures Valid(Begin(c, d)) && (NoneBetween(c, Begin(c, d), g) <==> NoneAfter(c, d, g))
    ensures NoneBefore(c, Begin(c, d), g) <==> NoneWithin(c, d, g)
  {
    BeginInstant(c, d);
    forall x | Valid(x) && Matches(c, x)
      ensures Instant(d) < Instant(x) <==> Instant(Begin(c, d)) <= Instant(x)
    {
      BeginNext(c, d, x);
    }
  }

  /** For any expression and start: a matching result is the earliest match, if and only if every
      month that was set was kept and no advanced second was lost on the way to another minute. */
  lemma {:induction false} NextEarliestIff(c: CronExpr, d: Date)
    requires ValidExpr(c) && Valid(d) && NextTime(c, d).ok && Admits(c, NextTime(c, d).time)
    ensures
      var b, r := Begin(c, d), NextTime(c, d);
      && Valid(b) && Valid(SecondStep(c, b))
      && Valid(Scan(c, SecondStep(c, b), Marks(c.seconds[b.sec], true, true, false)))
      && (NoneWithin(c, d, r.time) <==>
          r.kept && (MinuteNumber(r.time) == MinuteNumber(b) || !LateSecond(c, b)))
  {
    BeginInstant(c, d);
    var b := Begin(c, d);
    FirstFrame(c, b);
    EarliestIff(c, b, b.year);
    NoneFromBegin(c, d, NextTime(c, d).time);
  }

  /** Giving up with every month kept shows that nothing matches to the end of the fourth year. */
  lemma {:induction false} NothingForFourYears(c: CronExpr, d: Date, x: Date)
    requires ValidExpr(c) && Valid(d) && !NextTime(c, d).ok && NextTime(c, d).kept
    requires Valid(x) && Instant(x) > Instant(d) && x.year <= d.year + 4
    ensures !Matches(c, x)
  {
    NextIsLater(c, d);
    NextKeptIff(c, d);
    EarlierYearMinute(x, NextTime(c, d).time);
  }

  lemma {:induction false} EarlierYearMinute(x: Date, y: Date)
    requires Valid(x) && Valid(y) && x.year < y.year
    ensures MinuteNumber(x) < MinuteNumber(y)
  {
    var start := Date(y.year, 0, 1, 0, 0, 0);
    LaterYear(x, start);
    InstantOfMinute(x);
    InstantOfMinute(start);
    DayInYear(y);
    if y != start {
      DayInYear(start);
    }
  }

  // ---- The method ------------------------------------------------------------------------

  /** What `cron_next` promises of a result for the start `d`. */
  ghost predicate NextPromised(c: CronExpr, d: Date, found: bool, time: Date)
    requires ValidExpr(c) && Valid(d) && Valid(time)
  {
    && Gives(NextTime(c, d), found, time) && Instant(time) > Instant(d)
    && (found && NeverMisses(c) ==> Matches(c, time))
    && (NextTime(c, d).kept <==> NoneAfter(c, d, time))
    && (!found ==> time.year > d.year + 4)
  }

  lemma {:induction false} NextKeepsPromise(c: CronExpr, d: Date)
    requires ValidExpr(c) && Valid(d)
    ensures var r := NextTime(c, d); Valid(r.time) && NextPromised(c, d, r.ok, r.time)
  {
    NextIsLater(c, d);
    NextKeptIff(c, d);
    NextSoundIff(c);
  }

  /** `cron_next`, for every expression and every time: the result is the one of `NextTime`. It is
      strictly later; it matches unless the scan can miss; no minute with a match was passed over
      if and only if every month that was set was kept; and nothing is found only when the search
      has left the fourth year. */
  method CronNext(c: CronExpr, tm: Tm) returns (found: bool)
    requires Raw(tm.Date()) && ValidExpr(c)
    modifies tm
    ensures tm.Normal() && NextPromised(c, Mktime(old(tm.Date())), found, tm.Date())
  {
    tm.Normalize();
    ghost var start := tm.Date();
    NextKeepsPromise(c, start);
    found := SearchTwice(c, tm);
  }

  method SearchTwice(c: CronExpr, tm: Tm) returns (found: bool)
    requires tm.Normal() && ValidExpr(c)
    modifies tm
    ensures tm.Normal() && Gives(NextTime(c, old(tm.Date())), found, tm.Date())
  {
    ghost var start := tm.Date();
    var original := Instant(tm.Date());
    BeginInstant(c, start);
    IfMatch(c, start, start.year);
    if !Matches(c, start) {
      SearchLater(c, start, start.year);
    }
    found := FindNext(c, tm, tm.year);
    if !found {
      return;
    }
    if Instant(tm.Date()) == original {
      tm.AddToField(Second);
      found := FindNext(c, tm, tm.year);
    }
  }
}
