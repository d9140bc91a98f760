/** The single steps of the cron search (framework/cron/croncpp.hpp): finding the next set bit
    of one field, advancing that field, and resetting the fields below it. */
module CronSteps {
  import opened CronCalendar

  datatype CronExpr = CronExpr(
    seconds: seq<bool>, minutes: seq<bool>, hours: seq<bool>,
    daysOfWeek: seq<bool>, daysOfMonth: seq<bool>, months: seq<bool>)

  predicate SomeBit(bits: seq<bool>) { exists i | 0 <= i < |bits| :: bits[i] }

  /** What parsing an expression yields: every field admits some value. */
  predicate ValidExpr(c: CronExpr) {
    && |c.seconds| == 60 && SomeBit(c.seconds) && |c.minutes| == 60 && SomeBit(c.minutes)
    && |c.hours| == 24 && SomeBit(c.hours) && |c.daysOfWeek| == 7 && SomeBit(c.daysOfWeek)
    && |c.daysOfMonth| == 31 && SomeBit(c.daysOfMonth) && |c.months| == 12 && SomeBit(c.months)
  }

  predicate DayMatches(c: CronExpr, d: Date)
    requires ValidExpr(c) && Valid(d)
  {
    c.daysOfMonth[d.mday - 1] && c.daysOfWeek[Weekday(d)]
  }

  /** The meaning of a cron expression: all six field sets admit the date. */
  predicate Matches(c: CronExpr, d: Date)
    requires ValidExpr(c) && Valid(d)
  {
    c.seconds[d.sec] && c.minutes[d.min] && c.hours[d.hour] && DayMatches(c, d) && c.months[d.mon]
  }

  // ---- Bits -----------------------------------------------------------------

  /** The first set bit at or after `from`, or the number of bits if there is none. */
  function NextBit(bits: seq<bool>, from: nat): (n: nat)
    requires from <= |bits|
    ensures from <= n <= |bits|
    ensures n < |bits| ==> bits[n]
    ensures forall i | from <= i < n :: !bits[i]
    decreases |bits| - from
  {
    if from == |bits| || bits[from] then from else NextBit(bits, from + 1)
  }

  method NextSetBit(bits: seq<bool>, offset: nat) returns (n: nat)
    requires offset <= |bits|
    ensures n == NextBit(bits, offset)
  {
    n := offset;
    while n < |bits|
      invariant offset <= n <= |bits|
      invariant NextBit(bits, n) == NextBit(bits, offset)
    {
      if bits[n] {
        return;
      }
      n := n + 1;
    }
  }

  // ---- Fields ---------------------------------------------------------------

  datatype Field = Second | Minute | Hour | DayOfWeek | DayOfMonth | Month | Year

  function Value(d: Date, f: Field): int
    requires 0 <= d.mon < 12
  {
    match f
    case Second => d.sec
    case Minute => d.min
    case Hour => d.hour
    case DayOfWeek => Weekday(d)
    case DayOfMonth => d.mday
    case Month => d.mon
    case Year => d.year
  }

  /** Adding one to a field; a step of the weekday is a step of the day. */
  function AddOne(d: Date, f: Field): Date {
    match f
    case Second => d.(sec := d.sec + 1)
    case Minute => d.(min := d.min + 1)
    case Hour => d.(hour := d.hour + 1)
    case DayOfWeek => d.(mday := d.mday + 1)
    case DayOfMonth => d.(mday := d.mday + 1)
    case Month => d.(mon := d.mon + 1)
    case Year => d.(year := d.year + 1)
  }

  /** Writing a field; a written weekday is recomputed by `mktime`. */
  function Put(d: Date, f: Field, v: int): Date {
    match f
    case Second => d.(sec := v)
    case Minute => d.(min := v)
    case Hour => d.(hour := v)
    case DayOfWeek => d
    case DayOfMonth => d.(mday := v)
    case Month => d.(mon := v)
    case Year => d.(year := v)
  }

  /** Writing a field changes that field alone, and adding one to it writes the next value; for the
      weekday that is the next day. */
  lemma {:induction false} FieldsApart(d: Date, f: Field, v: int, g: Field)
    requires Valid(d) && (f == Month ==> 0 <= v < 12)
    ensures f != DayOfWeek ==> Value(Put(d, f, v), f) == v && AddOne(d, f) == Put(d, f, Value(d, f) + 1)
    ensures f != g && f != DayOfWeek && g != DayOfWeek ==> Value(Put(d, f, v), g) == Value(d, g)
    ensures AddOne(d, DayOfWeek) == AddOne(d, DayOfMonth) && Put(d, DayOfWeek, v) == d
  {
  }

  function Lowest(f: Field): int { if f == DayOfMonth then 1 else 0 }

  /** The marked fields; the search marks no others. */
  datatype Marks = Marks(second: bool, minute: bool, hour: bool, mday: bool)

  const NO_MARKS: Marks := Marks(false, false, false, false)

  /** The date with every marked field at its lowest value. */
  function Reset(d: Date, m: Marks): Date {
    Date(d.year, d.mon, if m.mday then 1 else d.mday, if m.hour then 0 else d.hour,
         if m.minute then 0 else d.min, if m.second then 0 else d.sec)
  }

  /** One field step: nothing if its value is admitted; otherwise on to the next admitted value,
      carrying into the next field if there is none above, and resetting the marked fields. */
  function Step(bits: seq<bool>, d: Date, f: Field, carry: Field, m: Marks): Date
    requires Valid(d) && f != DayOfWeek && f != DayOfMonth && f != Year && SomeBit(bits)
    requires |bits| == (match f case Second => 60 case Minute => 60 case Hour => 24 case _ => 12)
  {
    var v := Value(d, f);
    var n := NextBit(bits, v);
    if n == v then d
    else if n < |bits| then Reset(Mktime(Put(d, f, n)), m)
    else
      var carried := Put(Mktime(AddOne(d, carry)), f, 0);
      Reset(Mktime(Put(carried, f, FirstBit(bits))), m)
  }

  function FirstBit(bits: seq<bool>): (n: nat)
    requires SomeBit(bits)
    ensures n == NextBit(bits, 0) < |bits|
  {
    NextBit(bits, 0)
  }

  // ---- The mutable time -------------------------------------------------------

  /** `std::tm`: the fields a cron search mutates. Every write is followed by `mktime`. */
  class Tm {
    var year: int
    var mon: int
    var mday: int
    var hour: int
    var min: int
    var sec: int
    var wday: int

    function Date(): Date
      reads this
    {
      CronCalendar.Date(year, mon, mday, hour, min, sec)
    }

    ghost predicate Normal()
      reads this
    {
      Valid(Date()) && wday == Weekday(Date())
    }

    constructor (d: Date)
      requires Raw(d)
      ensures Normal() && Date() == Mktime(d)
    {
      var r := Mktime(d);
      year, mon, mday, hour, min, sec := r.year, r.mon, r.mday, r.hour, r.min, r.sec;
      wday := Weekday(r);
    }

    method Normalize()
      requires Raw(Date())
      modifies this
      ensures Normal() && Date() == Mktime(old(Date()))
    {
      var r := Mktime(Date());
      year, mon, mday, hour, min, sec := r.year, r.mon, r.mday, r.hour, r.min, r.sec;
      wday := Weekday(r);
    }

    method AddToField(f: Field)
      requires Normal()
      modifies this
      ensures Normal() && Date() == Mktime(AddOne(old(Date()), f))
    {
      Increment(f);
      Normalize();
    }

    method Increment(f: Field)
      requires Normal()
      modifies this
      ensures Date() == AddOne(old(Date()), f) && Raw(Date())
    {
      match f {
        case Second => sec := sec + 1;
        case Minute => min := min + 1;
        case Hour => hour := hour + 1;
        case DayOfWeek => mday := mday + 1;
        case DayOfMonth => mday := mday + 1;
        case Month => mon := mon + 1;
        case Year => year := year + 1;
      }
    }

    method SetField(f: Field, v: nat)
      requires Normal() && v >= Lowest(f)
      modifies this
      ensures Normal() && Date() == Mktime(Put(old(Date()), f, v))
    {
      match f {
        case Second => sec := v;
        case Minute => min := v;
        case Hour => hour := v;
        case DayOfWeek => wday := v;
        case DayOfMonth => mday := v;
        case Month => mon := v;
        case Year => year := v;
      }
      Normalize();
    }

    method ResetField(f: Field)
      requires Normal() && f != Year
      modifies this
      ensures Normal() && Date() == Put(old(Date()), f, Lowest(f))
    {
      MktimeValid(Put(Date(), f, Lowest(f)));
      SetField(f, Lowest(f));
    }

    method ResetAllFields(m: Marks)
      requires Normal()
      modifies this
      ensures Normal() && Date() == Reset(old(Date()), m)
    {
      if m.second { ResetField(Second); }
      if m.minute { ResetField(Minute); }
      if m.hour { ResetField(Hour); }
      if m.mday { ResetField(DayOfMonth); }
    }

    /** The search of one field; returns the admitted value that was moved to. */
    method FindNextField(bits: seq<bool>, value: nat, f: Field, carry: Field, m: Marks) returns (next: nat)
      requires Normal() && f != DayOfWeek && f != DayOfMonth && f != Year && SomeBit(bits)
      requires |bits| == (match f case Second => 60 case Minute => 60 case Hour => 24 case _ => 12)
      requires value == Value(Date(), f)
      modifies this
      ensures Normal() && Date() == Step(bits, old(Date()), f, carry, m)
      ensures next < |bits| && bits[next] && (next == value <==> bits[value])
      ensures next == if NextBit(bits, value) < |bits| then NextBit(bits, value) else FirstBit(bits)
    {
      next := NextSetBit(bits, value);
      var wrapped := next == |bits|;
      if wrapped {
        AddToField(carry);
        ResetField(f);
        assert FirstBit(bits) < |bits|;
        next := NextSetBit(bits, 0);
      }
      if wrapped || next != value {
        SetField(f, next);
        ResetAllFields(m);
      }
    }
  }
}
