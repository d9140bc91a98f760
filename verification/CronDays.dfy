/** The day scan of the cron search (`find_next_day`): it walks day by day until both day
    fields admit the day, but never more than 366 days. */
module CronDays {
  import opened CronCalendar
  import opened CronSteps

  const MAX_DAYS: nat := 366

  function AddDays(d: Date, n: nat): (r: Date)
    requires Valid(d)
    ensures Valid(r)
  {
    if n == 0 then d else NextDay(AddDays(d, n - 1))
  }

  /** How many of at most `n` days the scan moves: up to the first day that matches. */
  function DaysToMatch(c: CronExpr, d: Date, n: nat): (k: nat)
    requires ValidExpr(c) && Valid(d)
    ensures k <= n
    decreases n
  {
    if n == 0 || DayMatches(c, d) then 0 else 1 + DaysToMatch(c, NextDay(d), n - 1)
  }

  /** The day the scan stops at; moving resets the marked fields below the day. */
  function Scan(c: CronExpr, d: Date, m: Marks): Date
    requires ValidExpr(c) && Valid(d)
  {
    var k := DaysToMatch(c, d, MAX_DAYS);
    if k == 0 then d else Reset(AddDays(d, k), m)
  }

  lemma {:induction false} AddDaysFirst(d: Date, n: nat)
    requires Valid(d)
    ensures AddDays(NextDay(d), n) == AddDays(d, n + 1)
  {
    if n > 0 {
      AddDaysFirst(d, n - 1);
    }
  }

  lemma {:induction false} AddDaysNumber(d: Date, n: nat)
    requires Valid(d)
    ensures Day(AddDays(d, n)) == Day(d) + n
    ensures var r := AddDays(d, n); r.hour == d.hour && r.min == d.min && r.sec == d.sec
  {
    if n > 0 {
      AddDaysNumber(d, n - 1);
      NextDayNumber(AddDays(d, n - 1));
    }
  }

  /** The scan stops at the first matching day, or after the whole range. */
  lemma {:induction false} DaysToMatchIsFirst(c: CronExpr, d: Date, n: nat)
    requires ValidExpr(c) && Valid(d)
    ensures
      var k := DaysToMatch(c, d, n);
      && (k < n ==> DayMatches(c, AddDays(d, k)))
      && (forall i: nat | i < k :: !DayMatches(c, AddDays(d, i)))
    decreases n
  {
    var k := DaysToMatch(c, d, n);
    if k > 0 {
      DaysToMatchIsFirst(c, NextDay(d), n - 1);
      AddDaysFirst(d, k - 1);
      forall i: nat | i < k ensures !DayMatches(c, AddDays(d, i)) {
        if i > 0 {
          AddDaysFirst(d, i - 1);
        }
      }
    }
  }

  /** Only the day decides whether the day matches. */
  lemma {:induction false} ResetSameDay(c: CronExpr, d: Date, m: Marks)
    requires ValidExpr(c) && Valid(d) && !m.mday
    ensures Valid(Reset(d, m)) && DayMatches(c, Reset(d, m)) == DayMatches(c, d)
    ensures Day(Reset(d, m)) == Day(d)
    ensures NextDay(Reset(d, m)) == Reset(NextDay(d), m)
    ensures Reset(Reset(d, m), m) == Reset(d, m)
  {
  }

  lemma {:induction false} MktimeNextDay(d: Date)
    requires Valid(d)
    ensures Mktime(AddOne(d, DayOfMonth)) == NextDay(d) == Mktime(AddOne(d, DayOfWeek))
  {
    if d.mday == DaysIn(d.year, d.mon) {
      if d.mon < 11 {
        assert CarryDays(d.year, d.mon, d.mday + 1) == CarryDays(d.year, d.mon + 1, 1);
      } else {
        assert CarryDays(d.year, d.mon, d.mday + 1) == CarryDays(d.year + 1, 0, 1);
      }
    }
  }

  /** Where the scan is after `n` days. */
  function ScanAt(d: Date, n: nat, m: Marks): Date
    requires Valid(d)
  {
    if n == 0 then d else Reset(AddDays(d, n), m)
  }

  lemma {:induction false} ScanAtStep(c: CronExpr, d: Date, n: nat, left: nat, m: Marks)
    requires ValidExpr(c) && Valid(d) && !m.mday
    ensures Valid(ScanAt(d, n, m)) && DayMatches(c, ScanAt(d, n, m)) == DayMatches(c, AddDays(d, n))
    ensures Reset(NextDay(ScanAt(d, n, m)), m) == ScanAt(d, n + 1, m)
    ensures Weekday(Reset(NextDay(ScanAt(d, n, m)), m)) == Weekday(NextDay(ScanAt(d, n, m)))
    ensures left > 0 ==>
              DaysToMatch(c, AddDays(d, n), left) ==
              if DayMatches(c, ScanAt(d, n, m)) then 0 else 1 + DaysToMatch(c, AddDays(d, n + 1), left - 1)
  {
    ResetSameDay(c, AddDays(d, n), m);
    ResetSameDay(c, NextDay(AddDays(d, n)), m);
  }

  /** The rest of the scan from a day at which `n` steps are left. */
  function ScanOn(c: CronExpr, d: Date, n: nat, m: Marks): Date
    requires ValidExpr(c) && Valid(d)
    decreases n
  {
    if n == 0 || DayMatches(c, d) then d else ScanOn(c, Reset(NextDay(d), m), n - 1, m)
  }

  lemma {:induction false} ScanOnIsScan(c: CronExpr, d: Date, n: nat, total: nat, m: Marks)
    requires ValidExpr(c) && Valid(d) && !m.mday && n <= total
    ensures Valid(ScanAt(d, total - n, m))
    ensures ScanOn(c, ScanAt(d, total - n, m), n, m) ==
            ScanAt(d, total - n + DaysToMatch(c, AddDays(d, total - n), n), m)
    decreases n
  {
    ScanAtStep(c, d, total - n, n, m);
    if n > 0 {
      ScanOnIsScan(c, d, n - 1, total, m);
    }
  }

  lemma {:induction false} WholeScan(c: CronExpr, d: Date, m: Marks)
    requires ValidExpr(c) && Valid(d) && !m.mday
    ensures ScanOn(c, d, MAX_DAYS, m) == Scan(c, d, m)
  {
    ScanOnIsScan(c, d, MAX_DAYS, MAX_DAYS, m);
  }

  /** The loop body of the scan: one day on, the day read off, the marked fields reset. */
  method AdvanceDay(tm: Tm, m: Marks) returns (dayOfMonth: int, dayOfWeek: int)
    requires tm.Normal() && !m.mday
    modifies tm
    ensures tm.Normal() && tm.Date() == Reset(NextDay(old(tm.Date())), m)
    ensures dayOfMonth == tm.mday && dayOfWeek == tm.wday
  {
    MktimeNextDay(tm.Date());
    tm.AddToField(DayOfMonth);
    dayOfMonth := tm.mday;
    dayOfWeek := tm.wday;
    tm.ResetAllFields(m);
  }

  method FindNextDay(c: CronExpr, tm: Tm, m: Marks) returns (dayOfMonth: int)
    requires ValidExpr(c) && tm.Normal() && !m.mday
    modifies tm
    ensures tm.Normal() && tm.Date() == Scan(c, old(tm.Date()), m)
    ensures dayOfMonth == tm.mday
  {
    WholeScan(c, tm.Date(), m);
    dayOfMonth := tm.mday;
    var dayOfWeek := tm.wday;
    var count := 0;
    ghost var scanned := ScanOn(c, tm.Date(), MAX_DAYS, m);
    while (!c.daysOfMonth[dayOfMonth - 1] || !c.daysOfWeek[dayOfWeek]) && count < MAX_DAYS
      invariant count <= MAX_DAYS
      invariant tm.Normal() && ScanOn(c, tm.Date(), MAX_DAYS - count, m) == scanned
      invariant dayOfMonth == tm.mday && dayOfWeek == tm.wday
      decreases MAX_DAYS - count
    {
      count := count + 1;
      dayOfMonth, dayOfWeek := AdvanceDay(tm, m);
    }
  }

  // ---- One restricted day field: the scan always finds its day ---------------------

  predicate AllBits(bits: seq<bool>) { forall i | 0 <= i < |bits| :: bits[i] }

  /** At most one of the two day fields restricts the day. */
  predicate DayFree(c: CronExpr) { AllBits(c.daysOfMonth) || AllBits(c.daysOfWeek) }

  function NextMonth(d: Date): Date
    requires Valid(d)
  {
    if d.mon < 11 then d.(mon := d.mon + 1, mday := 1) else d.(year := d.year + 1, mon := 0, mday := 1)
  }

  /** Days until the day of the month is `t`: in this month, the next one, or the one after,
      for no two months in a row lack a day. */
  function DaysUntil(d: Date, t: int): (n: int)
    requires Valid(d) && 1 <= t <= 31
    ensures 0 <= n <= 93
    ensures n == 0 <==> d.mday == t
  {
    if d.mday <= t <= DaysIn(d.year, d.mon) then t - d.mday
    else
      var e := NextMonth(d);
      var left := DaysIn(d.year, d.mon) - d.mday + 1;
      if t <= DaysIn(e.year, e.mon) then left + t - 1 else left + DaysIn(e.year, e.mon) + t - 1
  }

  lemma {:induction false} DaysUntilStep(d: Date, t: int)
    requires Valid(d) && 1 <= t <= 31 && d.mday != t
    ensures DaysUntil(NextDay(d), t) == DaysUntil(d, t) - 1
  {
  }

  lemma {:induction false} MatchByDayOfMonth(c: CronExpr, d: Date, t: int, n: nat)
    requires ValidExpr(c) && Valid(d) && AllBits(c.daysOfWeek)
    requires 1 <= t <= 31 && c.daysOfMonth[t - 1] && DaysUntil(d, t) <= n
    ensures DaysToMatch(c, d, n) <= DaysUntil(d, t)
    ensures DayMatches(c, AddDays(d, DaysToMatch(c, d, n)))
    decreases n
  {
    if !DayMatches(c, d) {
      DaysUntilStep(d, t);
      MatchByDayOfMonth(c, NextDay(d), t, n - 1);
      AddDaysFirst(d, DaysToMatch(c, d, n) - 1);
    }
  }

  function DaysUntilWeekday(d: Date, w: int): (n: int)
    requires Valid(d) && 0 <= w < 7
    ensures 0 <= n < 7
  {
    (w - Weekday(d)) % 7
  }

  lemma {:induction false} WeekdayStep(d: Date, w: int)
    requires Valid(d) && 0 <= w < 7 && Weekday(d) != w
    ensures DaysUntilWeekday(NextDay(d), w) == DaysUntilWeekday(d, w) - 1
  {
    NextDayNumber(d);
  }

  lemma {:induction false} MatchByWeekday(c: CronExpr, d: Date, w: int, n: nat)
    requires ValidExpr(c) && Valid(d) && AllBits(c.daysOfMonth)
    requires 0 <= w < 7 && c.daysOfWeek[w] && DaysUntilWeekday(d, w) <= n
    ensures DaysToMatch(c, d, n) <= DaysUntilWeekday(d, w)
    ensures DayMatches(c, AddDays(d, DaysToMatch(c, d, n)))
    decreases n
  {
    if !DayMatches(c, d) {
      WeekdayStep(d, w);
      MatchByWeekday(c, NextDay(d), w, n - 1);
      AddDaysFirst(d, DaysToMatch(c, d, n) - 1);
    }
  }

  /** Within a week the day of the month never repeats. */
  lemma {:induction false} WeekdaysApart(d: Date, n: nat)
    requires Valid(d) && n < 7
    ensures var e := AddDays(d, n); (e.mday == d.mday + n && e.mon == d.mon && e.year == d.year) || (e.mday <= n && d.mday + n > 28)
  {
    if n > 0 {
      WeekdaysApart(d, n - 1);
    }
  }

  /** With at most one restricted day field the scan ends on a matching day, and, if it moved,
      on another day of the month than it started from. */
  lemma {:induction false} ScanFinds(c: CronExpr, d: Date)
    requires ValidExpr(c) && Valid(d) && DayFree(c)
    ensures
      var k := DaysToMatch(c, d, MAX_DAYS);
      && k <= 93
      && DayMatches(c, AddDays(d, k))
      && (k > 0 ==> AddDays(d, k).mday != d.mday)
  {
    var k := DaysToMatch(c, d, MAX_DAYS);
    if AllBits(c.daysOfWeek) {
      var i :| 0 <= i < 31 && c.daysOfMonth[i];
      MatchByDayOfMonth(c, d, i + 1, MAX_DAYS);
    } else {
      var w :| 0 <= w < 7 && c.daysOfWeek[w];
      MatchByWeekday(c, d, w, MAX_DAYS);
      WeekdaysApart(d, k);
    }
  }

  // ---- Every day of the month meets every weekday ----------------------------------

  /** So many days later the weekday is that many weekdays later. */
  lemma {:induction false} WeekdayLater(d: Date, e: Date, days: int)
    requires Valid(d) && Valid(e) && Day(e) == Day(d) + days
    ensures Weekday(e) == (Weekday(d) + days) % 7
  {
    ModPlus(Day(d) + 1, days);
  }

  lemma {:induction false} ModPlus(a: int, n: int)
    ensures (a + n) % 7 == (a % 7 + n) % 7
  {
    var q := a / 7;
    assert a + n == a % 7 + n + 7 * q;
  }

  /** From March to October a day up to the 30th falls on every weekday. */
  lemma {:induction false} MeetsWeekday(year: int, k: int, w: int) returns (n: Date)
    requires 1 <= k <= 30 && 0 <= w < 7
    ensures Valid(n) && n.year == year && n.mday == k && Weekday(n) == w
  {
    var march := Date(year, 2, k, 0, 0, 0);
    var shift := (w - Weekday(march)) % 7;
    var mon := [2, 5, 8, 3, 9, 4, 7][shift];
    n := Date(year, mon, k, 0, 0, 0);
    WeekdayLater(march, n, [0, 92, 184, 31, 214, 61, 153][shift]);
  }

  /** From March to December the 31st falls on all weekdays but one. */
  lemma {:induction false} MostWeekdays(year: int, w: int) returns (n: Date)
    requires 0 <= w < 7 && (w - Weekday(Date(year, 2, 31, 0, 0, 0))) % 7 != 1
    ensures Valid(n) && n.year == year && n.mday == 31 && Weekday(n) == w
  {
    var march := Date(year, 2, 31, 0, 0, 0);
    var shift := (w - Weekday(march)) % 7;
    var mon := [2, 2, 11, 6, 9, 4, 7][shift];
    n := Date(year, mon, 31, 0, 0, 0);
    WeekdayLater(march, n, [0, 0, 275, 122, 214, 61, 153][shift]);
  }

  lemma {:induction false} MarchShifts(year: int)
    ensures
      var a, b := Date(year, 2, 31, 0, 0, 0), Date(year + 1, 2, 31, 0, 0, 0);
      Weekday(b) == (Weekday(a) + 1) % 7 || Weekday(b) == (Weekday(a) + 2) % 7
  {
    var a, b := Date(year, 2, 31, 0, 0, 0), Date(year + 1, 2, 31, 0, 0, 0);
    var days := if Leap(year + 1) then 366 else 365;
    MarchToMarch(year);
    WeekdayLater(a, b, days);
    ModPlus(days, Weekday(a));
  }

  lemma {:induction false} MarchToMarch(year: int)
    ensures
      var days := if Leap(year + 1) then 366 else 365;
      Day(Date(year + 1, 2, 31, 0, 0, 0)) == Day(Date(year, 2, 31, 0, 0, 0)) + days
  {
    YearLength(year);
  }

  /** A day that both day fields admit lies ahead, by the end of the year `year`. */
  ghost predicate MatchAhead(c: CronExpr, d: Date, year: int)
    requires ValidExpr(c) && Valid(d)
  {
    exists n :: Valid(n) && DayMatches(c, n) && Day(n) >= Day(d) && n.year <= year
  }

  /** The 31st meets every weekday within two years. */
  lemma {:induction false} LastMeetsWeekday(year: int, w: int) returns (n: Date)
    requires 0 <= w < 7
    ensures Valid(n) && year <= n.year <= year + 1 && n.mday == 31 && Weekday(n) == w
  {
    if (w - Weekday(Date(year, 2, 31, 0, 0, 0))) % 7 != 1 {
      n := MostWeekdays(year, w);
    } else {
      MarchShifts(year);
      n := MostWeekdays(year + 1, w);
    }
  }

  /** Such a day comes by the end of the second year after any date. */
  lemma {:induction false} MatchComes(c: CronExpr, d: Date)
    requires ValidExpr(c) && Valid(d)
    ensures MatchAhead(c, d, d.year + 2)
  {
    var i :| 0 <= i < 31 && c.daysOfMonth[i];
    var w :| 0 <= w < 7 && c.daysOfWeek[w];
    var n: Date;
    if i < 30 {
      n := MeetsWeekday(d.year + 1, i + 1, w);
    } else {
      n := LastMeetsWeekday(d.year + 1, w);
    }
    LaterYear(d, n);
    assert DayMatches(c, n);
  }

  /** What the scan does, for any expression: it stays on a matching day; otherwise it moves on,
      by at most 366 days and never past a matching day. */
  lemma {:induction false} ScanMoves(c: CronExpr, d: Date, m: Marks)
    requires ValidExpr(c) && Valid(d) && !m.mday
    ensures
      var e := Scan(c, d, m);
      && Valid(e)
      && (DayMatches(c, d) ==> e == d)
      && (!DayMatches(c, d) ==>
            && Day(d) < Day(e) <= Day(d) + MAX_DAYS && Instant(e) > Instant(d)
            && e.hour == (if m.hour then 0 else d.hour) && e.min == (if m.minute then 0 else d.min)
            && e.sec == (if m.second then 0 else d.sec))
  {
    var k := DaysToMatch(c, d, MAX_DAYS);
    ScanAtStep(c, d, k, 0, m);
    AddDaysNumber(d, k);
    if k > 0 {
      ResetSameDay(c, AddDays(d, k), m);
      LaterDay(d, Scan(c, d, m));
    }
  }

  /** No day from `d` up to where the scan stops matches. */
  lemma {:induction false} ScanPassesNone(c: CronExpr, d: Date, m: Marks, n: Date)
    requires ValidExpr(c) && Valid(d) && Valid(n) && !m.mday && DayMatches(c, n) && Day(n) >= Day(d)
    ensures Valid(Scan(c, d, m)) && Day(Scan(c, d, m)) <= Day(n)
  {
    var k := DaysToMatch(c, d, MAX_DAYS);
    DaysToMatchIsFirst(c, d, MAX_DAYS);
    ScanAtStep(c, d, k, 0, m);
    AddDaysNumber(d, k);
    ResetSameDay(c, AddDays(d, k), m);
    if Day(n) < Day(d) + k {
      var i := Day(n) - Day(d);
      AddDaysNumber(d, i);
      SameDayNumber(c, AddDays(d, i), n);
    }
  }

  lemma {:induction false} DayOrder(x: Date, y: Date)
    requires Valid(x) && Valid(y) && Day(x) <= Day(y)
    ensures x.year < y.year || (x.year == y.year && x.mon <= y.mon)
    ensures x.year == y.year && x.mon == y.mon ==> x.mday <= y.mday
  {
    if y.year < x.year {
      LaterYear(y, x);
    } else if y.year == x.year && y.mon < x.mon {
      LaterMonth(y, x);
    }
  }

  predicate SameDay(d: Date, e: Date) { d.year == e.year && d.mon == e.mon && d.mday == e.mday }

  lemma {:induction false} OneDateADay(x: Date, y: Date)
    requires Valid(x) && Valid(y) && Day(x) == Day(y)
    ensures SameDay(x, y)
  {
    DayOrder(x, y);
    DayOrder(y, x);
  }

  lemma {:induction false} SameDaySameMatch(c: CronExpr, d: Date, e: Date)
    requires ValidExpr(c) && Valid(d) && Valid(e) && SameDay(d, e)
    ensures DayMatches(c, d) == DayMatches(c, e)
  {
  }

  lemma {:induction false} SameDayNumber(c: CronExpr, x: Date, y: Date)
    requires ValidExpr(c) && Valid(x) && Valid(y) && Day(x) == Day(y)
    ensures DayMatches(c, x) == DayMatches(c, y)
  {
    OneDateADay(x, y);
    SameDaySameMatch(c, x, y);
  }

  // ---- Both day fields restricted: the scan can miss -------------------------------

  /** For any expression: the scan ends on a matching day exactly when one lies within reach. */
  lemma {:induction false} ScanMatchesIffWithinReach(c: CronExpr, d: Date, m: Marks)
    requires ValidExpr(c) && Valid(d) && !m.mday
    ensures Valid(Scan(c, d, m))
    ensures DayMatches(c, Scan(c, d, m)) <==> exists k: nat :: k <= 366 && DayMatches(c, AddDays(d, k))
  {
    var k := DaysToMatch(c, d, MAX_DAYS);
    DaysToMatchIsFirst(c, d, MAX_DAYS);
    ScanAtStep(c, d, k, 0, m);
    assert Scan(c, d, m) == ScanAt(d, k, m);
    if j: nat :| j <= MAX_DAYS && DayMatches(c, AddDays(d, j)) {
      assert k <= j;
      assert k == MAX_DAYS ==> j == k;
    }
  }

  /** Between 1 March 2027 and 1 March 2028 no 31st is a Thursday. */
  lemma {:induction false} NoThursdayThe31st(d: Date)
    requires Valid(d) && DayNumber(2027, 2, 1) <= Day(d) < DayNumber(2028, 2, 1) && d.mday == 31
    ensures Weekday(d) != 4
  {
    MarchToMarchMonths(d);
    WeekdayOfThe31st(d);
  }

  lemma {:induction false} MarchToMarchMonths(d: Date)
    requires Valid(d) && DayNumber(2027, 2, 1) <= Day(d) < DayNumber(2028, 2, 1)
    ensures (d.year == 2027 && d.mon >= 2) || (d.year == 2028 && d.mon < 2)
  {
    if Day(d) < DaysBeforeYear(2028) {
      DayInYearAt(d, 2027);
      FromMarch(d);
    } else {
      DayInYearAt(d, 2028);
      BeforeMarch(d);
    }
  }

  lemma {:induction false} FromMarch(d: Date)
    requires Valid(d) && DayNumber(d.year, 2, 1) <= Day(d)
    ensures d.mon >= 2
  {
  }

  lemma {:induction false} BeforeMarch(d: Date)
    requires Valid(d) && Day(d) < DayNumber(d.year, 2, 1)
    ensures d.mon < 2
  {
  }

  lemma {:induction false} WeekdayOfThe31st(d: Date)
    requires Valid(d) && d.mday == 31
    ensures d.year == 2027 && d.mon >= 2 ==> Weekday(d) != 4
    ensures d.year == 2028 && d.mon < 2 ==> Weekday(d) != 4
  {
  }

  lemma {:induction false} DayInYearAt(d: Date, year: int)
    requires Valid(d) && DaysBeforeYear(year) <= Day(d) < DaysBeforeYear(year) + YearDays(year)
    ensures d.year == year
  {
    DayInYear(d);
    if d.year > year {
      YearsAscend(year, d.year);
    } else if d.year < year {
      YearsAscend(d.year, year);
    }
  }

  lemma {:induction false} NoMatchWhile(c: CronExpr, d: Date, n: nat)
    requires ValidExpr(c) && Valid(d)
    requires forall i: nat | i < n :: !DayMatches(c, AddDays(d, i))
    ensures DaysToMatch(c, d, n) == n
  {
    DaysToMatchIsFirst(c, d, n);
  }

  /** The only valid date with the day number of 1 March 2028. */
  lemma {:induction false} OnlyFirstOfMarch(e: Date)
    requires Valid(e) && Day(e) == DayNumber(2028, 2, 1)
    ensures e.year == 2028 && e.mon == 2 && e.mday == 1
  {
    DayInYearAt(e, 2028);
  }

  lemma {:induction false} NoMatchForAYear(c: CronExpr, d: Date, i: nat)
    requires ValidExpr(c) && Valid(d) && Day(d) == DayNumber(2027, 2, 1) && i < MAX_DAYS
    requires forall k | 0 <= k < 31 :: c.daysOfMonth[k] ==> k == 30
    requires forall k | 0 <= k < 7 :: c.daysOfWeek[k] ==> k == 4
    ensures !DayMatches(c, AddDays(d, i))
  {
    var e := AddDays(d, i);
    AddDaysNumber(d, i);
    InYear(Day(d), i);
    if e.mday == 31 {
      NoThursdayThe31st(e);
    }
  }

  lemma {:induction false} InYear(day: int, i: nat)
    requires day == DayNumber(2027, 2, 1) && i < MAX_DAYS
    ensures day + i < DayNumber(2028, 2, 1)
  {
  }

  /** The 31st, if it is a Thursday, is missed from 1 March 2027: the scan gives up on 1 March 2028. */
  lemma {:induction false} ScanMisses(c: CronExpr, d: Date, m: Marks)
    requires ValidExpr(c) && Valid(d) && d.year == 2027 && d.mon == 2 && d.mday == 1 && !m.mday
    requires forall k | 0 <= k < 31 :: c.daysOfMonth[k] ==> k == 30
    requires forall k | 0 <= k < 7 :: c.daysOfWeek[k] ==> k == 4
    ensures
      && !DayMatches(c, d)
      && Valid(Scan(c, d, m)) && !DayMatches(c, Scan(c, d, m))
      && Scan(c, d, m).year == 2028 && Scan(c, d, m).mon == d.mon && Scan(c, d, m).mday == d.mday
  {
    forall i: nat | i < MAX_DAYS ensures !DayMatches(c, AddDays(d, i)) {
      NoMatchForAYear(c, d, i);
    }
    NoMatchWhile(c, d, MAX_DAYS);
    AddDaysNumber(d, MAX_DAYS);
    OnlyFirstOfMarch(AddDays(d, MAX_DAYS));
    ResetSameDay(c, AddDays(d, MAX_DAYS), m);
  }
}
