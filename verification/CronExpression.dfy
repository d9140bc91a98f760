/** Parsing a whole cron expression (`make_cron` of framework/cron/croncpp.hpp) with the
    standard traits: six fields, names for weekdays and months, `?` for any day. */
module CronExpression {
  import opened Digits
  import opened Text
  import opened CronSteps
  import opened CronField

  const DAYS: seq<string> := ["SUN", "MON", "TUE", "WED", "THU", "FRI", "SAT"]
  const MONTHS: seq<string> :=
    ["NIL", "JAN", "FEB", "MAR", "APR", "MAY", "JUN", "JUL", "AUG", "SEP", "OCT", "NOV", "DEC"]

  function ToUpper(s: string): string {
    seq(|s|, i requires 0 <= i < |s| => if 'a' <= s[i] <= 'z' then 'A' + (s[i] - 'a') else s[i])
  }

  /** Each name from the `i`th on is replaced once, at its first occurrence, by its number. */
  function ReplaceOrdinals(text: string, names: seq<string>, i: nat): string
    requires i <= |names| && forall k | 0 <= k < |names| :: |names[k]| == 3
    decreases |names| - i
  {
    if i == |names| then text
    else
      var pos := Find(text, names[i], 0);
      var next := if pos.Some? then text[..pos.value] + Render(i, 10) + text[pos.value + 3..] else text;
      ReplaceOrdinals(next, names, i + 1)
  }

  function AnyDay(s: string): string { if s == "?" then "*" else s }

  function NonEmpty(tokens: seq<string>): seq<string> {
    if tokens == [] then [] else (if tokens[0] == "" then [] else [tokens[0]]) + NonEmpty(tokens[1..])
  }

  function Fields(expr: string): seq<string> { NonEmpty(Split(expr, ' ')) }

  /** A field of its own, parsed into an empty bitset: it admits some value. */
  function FieldOf(value: string, lo: int, hi: int): (r: Parsed<seq<bool>>)
    requires lo <= hi
    ensures r.Good? ==> |r.value| == hi - lo + 1 && SomeBit(r.value)
  {
    var unset := seq(hi - lo + 1, _ => false);
    var r := CronField.CronField(value, unset, lo, hi);
    if r.Good? then
      FieldAdmitsSome(value, unset, lo, hi);
      r
    else
      r
  }

  function DaysOfWeek(f: string): string { AnyDay(ReplaceOrdinals(ToUpper(f), DAYS, 0)) }

  function MonthNumbers(f: string): string { ReplaceOrdinals(ToUpper(f), MONTHS, 0) }

  /** The expression of six sets, or the problem of the first of them that has one. */
  function Assembled(s: Parsed<seq<bool>>, m: Parsed<seq<bool>>, h: Parsed<seq<bool>>,
                     w: Parsed<seq<bool>>, d: Parsed<seq<bool>>, o: Parsed<seq<bool>>): (r: Parsed<CronExpr>)
    ensures r.Good? <==> s.Good? && m.Good? && h.Good? && w.Good? && d.Good? && o.Good?
    ensures r.Good? ==>
              && s == Good(r.value.seconds) && m == Good(r.value.minutes) && h == Good(r.value.hours)
              && w == Good(r.value.daysOfWeek) && d == Good(r.value.daysOfMonth) && o == Good(r.value.months)
  {
    if s.Bad? then Bad(s.problem)
    else if m.Bad? then Bad(m.problem)
    else if h.Bad? then Bad(h.problem)
    else if w.Bad? then Bad(w.problem)
    else if d.Bad? then Bad(d.problem)
    else if o.Bad? then Bad(o.problem)
    else Good(CronExpr(s.value, m.value, h.value, w.value, d.value, o.value))
  }

  function FromFields(f: seq<string>): (r: Parsed<CronExpr>)
    requires |f| == 6
    ensures r.Good? ==> ValidExpr(r.value)
    ensures r.Good? ==>
              && FieldOf(f[0], 0, 59) == Good(r.value.seconds) && FieldOf(f[1], 0, 59) == Good(r.value.minutes)
              && FieldOf(f[2], 0, 23) == Good(r.value.hours) && FieldOf(AnyDay(f[3]), 1, 31) == Good(r.value.daysOfMonth)
              && FieldOf(MonthNumbers(f[4]), 1, 12) == Good(r.value.months)
              && FieldOf(DaysOfWeek(f[5]), 0, 6) == Good(r.value.daysOfWeek)
  {
    Assembled(FieldOf(f[0], 0, 59), FieldOf(f[1], 0, 59), FieldOf(f[2], 0, 23),
              FieldOf(DaysOfWeek(f[5]), 0, 6), FieldOf(AnyDay(f[3]), 1, 31), FieldOf(MonthNumbers(f[4]), 1, 12))
  }

  /** Every expression that parses can be searched: each of its fields admits some value. */
  function MakeCron(expr: string): (r: Parsed<CronExpr>)
    ensures r.Good? ==> ValidExpr(r.value) && |Fields(expr)| == 6
  {
    if expr == "" then Bad(EmptyExpression)
    else if |Fields(expr)| != 6 then Bad(NotSixFields)
    else FromFields(Fields(expr))
  }

  // ---- What the six sets mean --------------------------------------------------------

  /** The set admits exactly the values that some entry of the text means. */
  predicate Says(bits: seq<bool>, text: string, lo: int, hi: int) {
    forall j | 0 <= j < |bits| :: bits[j] <==> SomeEntryMeans(text, lo, hi, j)
  }

  predicate SomeEntryMeans(text: string, lo: int, hi: int, j: int) {
    exists k | 0 <= k < |Split(text, ',')| :: EntryMeans(Split(text, ',')[k], lo, hi, j)
  }

  /** The set says what its text says, unless the first step of an entry passes 255. */
  predicate Faithful(bits: seq<bool>, text: string, lo: int, hi: int) {
    StepsFit(Split(text, ','), lo, hi) ==> Says(bits, text, lo, hi)
  }

  lemma {:induction false} FieldSays(value: string, bits: seq<bool>, lo: int, hi: int)
    requires lo <= hi && FieldOf(value, lo, hi) == Good(bits)
    ensures Faithful(bits, value, lo, hi)
  {
    var unset := seq(hi - lo + 1, _ => false);
    if StepsFit(Split(value, ','), lo, hi) {
      FieldMeans(unset, Split(value, ','), lo, hi);
      assert forall j | 0 <= j < |bits| :: !unset[j];
    }
  }

  /** Each of the six sets of a parsed expression means its own text; names and `?` are replaced
      first. */
  lemma {:induction false} MakeCronMeans(expr: string)
    requires MakeCron(expr).Good?
    ensures |Fields(expr)| == 6
    ensures
      var c, f := MakeCron(expr).value, Fields(expr);
      && Faithful(c.seconds, f[0], 0, 59) && Faithful(c.minutes, f[1], 0, 59) && Faithful(c.hours, f[2], 0, 23)
      && Faithful(c.daysOfMonth, AnyDay(f[3]), 1, 31) && Faithful(c.months, MonthNumbers(f[4]), 1, 12)
      && Faithful(c.daysOfWeek, DaysOfWeek(f[5]), 0, 6)
  {
    var c, f := MakeCron(expr).value, Fields(expr);
    FieldSays(f[0], c.seconds, 0, 59);
    FieldSays(f[1], c.minutes, 0, 59);
    FieldSays(f[2], c.hours, 0, 23);
    FieldSays(AnyDay(f[3]), c.daysOfMonth, 1, 31);
    FieldSays(MonthNumbers(f[4]), c.months, 1, 12);
    FieldSays(DaysOfWeek(f[5]), c.daysOfWeek, 0, 6);
  }
}
