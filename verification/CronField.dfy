/** Parsing one field of a cron expression (framework/cron/croncpp.hpp): the 8-bit numbers, ranges and
    increments of a field, and the loops that set its bits. */
module CronField {
  import opened Basics
  import opened Digits
  import opened Text
  import opened CronSteps

  datatype Problem =
    | NotANumber | NumberTooLarge | RangeNeedsTwoFields | AboveMaximum | BelowMinimum | StartAfterEnd
    | EndsWithComma | NoField | IncrementNeedsTwoFields | IncrementNotPositive | NotSixFields | EmptyExpression

  datatype Parsed<+T> = Good(value: T) | Bad(problem: Problem)

  // ---- Numbers ----------------------------------------------------------------

  /** The length of the longest run of decimal digits that `s` starts with. */
  function DigitRun(s: string): (n: nat)
    ensures n <= |s| && AllDecimal(s[..n])
    ensures n < |s| ==> DigitValue(s[n]) >= 10
  {
    if s == "" || DigitValue(s[0]) >= 10 then 0
    else
      assert forall i | 0 <= i < DigitRun(s[1..]) :: s[1..][..DigitRun(s[1..])][i] == s[i + 1];
      1 + DigitRun(s[1..])
  }

  const ULONG_RANGE: nat := 0x1_0000_0000_0000_0000

  /** `std::stoul` of the text, cut down to eight bits. */
  function ToCronInt(text: string): (r: Parsed<int>)
    ensures r.Good? ==> 0 <= r.value < 256
  {
    var t := SkipSpaces(text);
    var signed := t != "" && (t[0] == '-' || t[0] == '+');
    var u := if signed then t[1..] else t;
    var v: int := Digits.Value(u[..DigitRun(u)], 10);
    if DigitRun(u) == 0 then Bad(NotANumber)
    else if v >= ULONG_RANGE then Bad(NumberTooLarge)
    else Good((if signed && t[0] == '-' then -v else v) % 256)
  }

  predicate Digit(c: char) { '0' <= c <= '9' }

  lemma {:induction false} NumeralIsDigits(n: nat)
    ensures forall i | 0 <= i < |Render(n, 10)| :: Digit(Render(n, 10)[i])
  {
    var s := Render(n, 10);
    RenderRoundTrip(n, 10);
    forall i | 0 <= i < |s| ensures Digit(s[i]) {
      assert DigitValue(s[i]) < 10;
    }
  }

  lemma {:induction false} NumeralRun(s: string)
    requires forall i | 0 <= i < |s| :: Digit(s[i])
    ensures DigitRun(s) == |s| && s[..|s|] == s
  {
  }

  /** A decimal numeral below 256 is read as its value. */
  lemma {:induction false} NumeralRead(n: nat)
    requires n < 256
    ensures ToCronInt(Render(n, 10)) == Good(n)
  {
    NumeralIsDigits(n);
    RenderRoundTrip(n, 10);
    DigitsRead(Render(n, 10), n);
  }

  lemma {:induction false} DigitsRead(s: string, n: nat)
    requires s != "" && (forall i | 0 <= i < |s| :: Digit(s[i]))
    requires n < 256 && Digits.Value(s, 10) == n
    ensures ToCronInt(s) == Good(n)
  {
    NumeralRun(s);
    assert SkipSpaces(s) == s && Digit(s[0]);
  }

  /** No separator of the field syntax occurs in a numeral. */
  lemma {:induction false} NumeralApart(n: nat, c: char)
    requires !Digit(c)
    ensures c !in Render(n, 10)
  {
    NumeralIsDigits(n);
  }

  // ---- Ranges and increments ------------------------------------------------------

  /** The first and last value named by `*`, `n` or `n-m`. */
  function MakeRange(field: string, lo: int, hi: int): (r: Parsed<(int, int)>)
    ensures r.Good? ==> lo <= r.value.0 <= r.value.1 <= hi
  {
    if field == "*" && lo <= hi then Good((lo, hi))
    else
      var parts := Split(field, '-');
      if '-' in field && |parts| != 2 then Bad(RangeNeedsTwoFields)
      else
        var first := ToCronInt(if '-' in field then parts[0] else field);
        var last := if '-' in field then ToCronInt(parts[1]) else first;
        if first.Bad? then Bad(first.problem)
        else if last.Bad? then Bad(last.problem)
        else if first.value > hi || last.value > hi then Bad(AboveMaximum)
        else if first.value < lo || last.value < lo then Bad(BelowMinimum)
        else if first.value > last.value then Bad(StartAfterEnd)
        else Good((first.value, last.value))
  }

  /** One comma-separated entry of a field: a range taken in steps. */
  datatype Entry = Entry(first: int, last: int, delta: int)

  predicate EntryFits(e: Entry, lo: int, hi: int) { lo <= e.first <= e.last <= hi && 1 <= e.delta < 256 }

  function ParseEntry(field: string, lo: int, hi: int): (r: Parsed<Entry>)
    ensures r.Good? ==> EntryFits(r.value, lo, hi)
  {
    if '/' !in field then
      var range := MakeRange(field, lo, hi);
      if range.Bad? then Bad(range.problem) else Good(Entry(range.value.0, range.value.1, 1))
    else
      var parts := Split(field, '/');
      if |parts| != 2 then Bad(IncrementNeedsTwoFields)
      else
        var range := MakeRange(parts[0], lo, hi);
        var delta := ToCronInt(parts[1]);
        if range.Bad? then Bad(range.problem)
        else if delta.Bad? then Bad(delta.problem)
        else if delta.value == 0 then Bad(IncrementNotPositive)
        else Good(Entry(range.value.0, if '-' in parts[0] then range.value.1 else hi, delta.value))
  }

  function RangeText(first: nat, last: nat): string { Render(first, 10) + ['-'] + Render(last, 10) }

  /** The text `n-m` is read as what it says. */
  lemma {:induction false} RangeRead(first: nat, last: nat, lo: int, hi: int)
    requires lo <= first <= last <= hi < 256
    ensures MakeRange(RangeText(first, last), lo, hi) == Good((first, last))
    ensures '/' !in RangeText(first, last) && '-' in RangeText(first, last)
  {
    var a, b := Render(first, 10), Render(last, 10);
    NumeralRead(first);
    NumeralRead(last);
    RangeSplits(a, b, first, last);
    RangeOfParts(RangeText(first, last), a, b, first, last, lo, hi);
  }

  lemma {:induction false} RangeOfParts(
    field: string, a: string, b: string, first: nat, last: nat, lo: int, hi: int)
    requires '-' in field && Split(field, '-') == [a, b]
    requires ToCronInt(a) == Good(first) && ToCronInt(b) == Good(last) && lo <= first <= last <= hi
    ensures MakeRange(field, lo, hi) == Good((first, last))
  {
    assert field != "*";
  }

  lemma {:induction false} RangeSplits(a: string, b: string, first: nat, last: nat)
    requires a == Render(first, 10) && b == Render(last, 10)
    ensures Split(a + ['-'] + b, '-') == [a, b]
    ensures '/' !in a + ['-'] + b && '-' in a + ['-'] + b
  {
    NumeralApart(first, '-');
    NumeralApart(last, '-');
    NumeralApart(first, '/');
    NumeralApart(last, '/');
    SplitFirst(a, '-', b);
    SplitSingle(b, '-');
    assert (a + ['-'] + b)[|a|] == '-';
  }

  lemma {:induction false} ValueRead(n: nat, lo: int, hi: int)
    requires lo <= n <= hi < 256
    ensures MakeRange(Render(n, 10), lo, hi) == Good((n, n))
    ensures '/' !in Render(n, 10) && '-' !in Render(n, 10)
  {
    NumeralRead(n);
    NumeralApart(n, '-');
    NumeralApart(n, '/');
    NumeralApart(n, '*');
  }

  lemma {:induction false} EntryRead(range: string, delta: nat, lo: int, hi: int)
    requires MakeRange(range, lo, hi).Good? && '/' !in range && 1 <= delta < 256
    ensures
      var r := MakeRange(range, lo, hi).value;
      && ParseEntry(range, lo, hi) == Good(Entry(r.0, r.1, 1))
      && ParseEntry(range + ['/'] + Render(delta, 10), lo, hi) ==
         Good(Entry(r.0, if '-' in range then r.1 else hi, delta))
  {
    var d := Render(delta, 10);
    NumeralRead(delta);
    NumeralApart(delta, '/');
    SplitFirst(range, '/', d);
    SplitSingle(d, '/');
    assert (range + ['/'] + d)[|range|] == '/';
  }

  // ---- The bits of an entry ------------------------------------------------------

  /** The values the text means: `start`, `start` + `delta`, ... up to `top`. */
  predicate Meant(start: int, top: int, delta: int, j: int)
    requires delta > 0
  {
    start <= j <= top && (j - start) % delta == 0
  }

  /** The values the 8-bit loop visits. A step past 255 comes back round below the start, and
      from there on the loop walks down in steps of 256 - `delta`. */
  predicate Visited(start: int, top: int, delta: int, j: int)
    requires 0 < delta < 256
  {
    if start + delta <= 255 then Meant(start, top, delta, j)
    else 0 <= j <= start && (start - j) % (256 - delta) == 0
  }

  /** The loop sets exactly the bits the text means iff the first step does not pass 255. */
  lemma {:induction false} VisitsWhatIsMeant(start: int, top: int, delta: int)
    requires 0 <= start <= top < 60 && 0 < delta < 256
    ensures start + delta <= 255 <==> forall j :: Visited(start, top, delta, j) == Meant(start, top, delta, j)
  {
    if start + delta > 255 {
      var j := start + delta - 256;
      ModUnique(start - j, 256 - delta, 1, 0);
      assert Visited(start, top, delta, j) != Meant(start, top, delta, j);
    }
  }

  /** "59/200" over the seconds also sets second 3. */
  lemma {:induction false} LargeStepComesRound()
    ensures ParseEntry("59/200", 0, 59) == Good(Entry(59, 59, 200))
    ensures Visited(59, 59, 200, 3) && !Meant(59, 59, 200, 3)
  {
    Numerals();
    ValueRead(59, 0, 59);
    EntryRead("59", 200, 0, 59);
    assert "59" + ['/'] + "200" == "59/200";
  }

  lemma {:induction false} Numerals()
    ensures Render(59, 10) == "59" && Render(200, 10) == "200"
  {
    assert Render(5, 10) == "5" && Render(2, 10) == "2" && Render(20, 10) == "20";
  }

  /** The bitset after adding an entry. */
  function EntryBits(bits: seq<bool>, e: Entry, lo: int): (r: seq<bool>)
    requires 0 < e.delta < 256
  {
    seq(|bits|, j requires 0 <= j < |bits| => bits[j] || Visited(e.first - lo, e.last - lo, e.delta, j))
  }

  lemma {:induction false} ModStep(a: int, d: int, r: int)
    requires d > 0 && a >= 0 && a % d == 0 && 0 <= r < d
    ensures (a + r) % d == r && (a + d) % d == 0
  {
    var q := a / d;
    assert a == q * d;
    ModUnique(a + r, d, q, r);
    ModUnique(a + d, d, q + 1, 0);
  }

  lemma {:induction false} ModUnique(x: int, d: int, q: int, r: int)
    requires d > 0 && 0 <= r < d && x == q * d + r
    ensures x % d == r
  {
    var p, t := x / d, x % d;
    Distribute(p, q, d);
    NoMultiple(p - q, d);
  }

  lemma {:induction false} Distribute(p: int, q: int, d: int)
    ensures (p - q) * d == p * d - q * d
  {
  }

  lemma {:induction false} NoMultiple(k: int, d: int)
    requires d > 0 && -d < k * d < d
    ensures k == 0
  {
    if k >= 1 {
      Multiple(k, d);
    } else if k <= -1 {
      Multiple(-k, d);
    }
  }

  lemma {:induction false} Multiple(k: int, d: int)
    requires k >= 1 && d > 0
    ensures k * d >= d && -k * d <= -d && -(-k) * d == k * d
  {
  }

  // ---- The loop that sets the bits ---------------------------------------------------

  lemma {:induction false} ModDifference(x: int, y: int, d: int)
    requires d > 0 && x % d == 0 && y % d == 0
    ensures (x - y) % d == 0
    ensures 0 < x - y ==> x - y >= d
  {
    Distribute(x / d, y / d, d);
    ModUnique(x - y, d, x / d - y / d, 0);
    if 0 < x - y < d {
      ModUnique(x - y, d, 0, x - y);
    }
  }

  /** The loop stands at `i`: in step with the start, or past the top on its way down. */
  predicate InStep(start: int, top: int, delta: int, i: int)
    requires 0 < delta < 256
  {
    if start + delta <= 255 then start <= i <= 255 && (i - start) % delta == 0
    else top < i <= 255 || (0 <= i <= start && (start - i) % (256 - delta) == 0)
  }

  /** Standing at `i`, the loop has yet to visit `j`. */
  predicate Ahead(start: int, top: int, delta: int, i: int, j: int)
    requires 0 < delta < 256
  {
    Visited(start, top, delta, j) && if start + delta <= 255 then i <= j else i <= top && j <= i
  }

  lemma {:induction false} StepUpwards(start: int, top: int, delta: int, i: int, j: int)
    requires 0 <= start <= top < 60 && 0 < delta && start + delta <= 255
    requires InStep(start, top, delta, i) && i <= top
    ensures i + delta <= 255 && InStep(start, top, delta, i + delta)
    ensures Ahead(start, top, delta, i, i)
    ensures Ahead(start, top, delta, i + delta, j) <==> Ahead(start, top, delta, i, j) && j != i
  {
    ModDifference(i - start, 0, delta);
    ModStep(i - start, delta, 0);
    if Meant(start, top, delta, j) {
      ModDifference(j - start, i - start, delta);
    }
  }

  lemma {:induction false} StepDownwards(start: int, top: int, delta: int, i: int, j: int)
    requires 0 <= start <= top < 60 && delta < 256 && start + delta > 255
    requires InStep(start, top, delta, i) && 0 <= i <= top
    ensures var k := (i + delta) % 256; InStep(start, top, delta, k) && (k < i || k > top)
    ensures Ahead(start, top, delta, i, i)
    ensures Ahead(start, top, delta, (i + delta) % 256, j) <==> Ahead(start, top, delta, i, j) && j != i
  {
    var s := 256 - delta;
    ModStep(start - i, s, 0);
    if Visited(start, top, delta, j) {
      ModDifference(start - j, start - i, s);
      ModDifference(start - i, start - j, s);
    }
  }

  /** Bits set so far: those set before, and those visited and no longer ahead. */
  predicate SoFar(before: seq<bool>, now: seq<bool>, start: int, top: int, delta: int, i: int)
    requires 0 < delta < 256
  {
    && |now| == |before|
    && forall j | 0 <= j < |now| :: now[j] == (before[j] || (Visited(start, top, delta, j) && !Ahead(start, top, delta, i, j)))
  }

  lemma {:induction false} SoFarStep(before: seq<bool>, now: seq<bool>, start: int, top: int, delta: int, i: int)
    requires 0 <= start <= top < 60 && 0 < delta < 256 && top < |before|
    requires InStep(start, top, delta, i) && 0 <= i <= top && SoFar(before, now, start, top, delta, i)
    ensures SoFar(before, now[i := true], start, top, delta, (i + delta) % 256)
    ensures InStep(start, top, delta, (i + delta) % 256)
    ensures Left(start, top, delta, (i + delta) % 256) < Left(start, top, delta, i)
  {
    var next := now[i := true];
    forall j | 0 <= j < |next|
      ensures next[j] == (before[j] || (Visited(start, top, delta, j) && !Ahead(start, top, delta, (i + delta) % 256, j)))
    {
      if start + delta <= 255 {
        StepUpwards(start, top, delta, i, j);
      } else {
        StepDownwards(start, top, delta, i, j);
      }
    }
    if start + delta <= 255 {
      StepUpwards(start, top, delta, i, 0);
    } else {
      StepDownwards(start, top, delta, i, 0);
    }
  }

  /** The measure of the loop: the way up to 255, or the way down to 0. */
  function Left(start: int, top: int, delta: int, i: int): int {
    if start + delta <= 255 then 256 - i else if i <= top then i + 1 else 0
  }

  lemma {:induction false} SoFarStarts(before: seq<bool>, start: int, top: int, delta: int)
    requires 0 <= start <= top < 60 && 0 < delta < 256
    ensures InStep(start, top, delta, start) && SoFar(before, before, start, top, delta, start)
  {
    ModUnique(0, delta, 0, 0);
    ModUnique(0, 256 - delta, 0, 0);
  }

  /** The loop over one entry. It ends for every increment from 1 to 255, although the counter
      has eight bits. */
  method SetEntry(target: array<bool>, e: Entry, lo: int, ghost hi: int)
    requires EntryFits(e, lo, hi) && hi - lo < 60 && target.Length == hi - lo + 1
    modifies target
    ensures target[..] == EntryBits(old(target[..]), e, lo)
  {
    ghost var before := target[..];
    ghost var start := e.first - lo;
    var i, top := e.first - lo, e.last - lo;
    SoFarStarts(before, start, top, e.delta);
    while i <= top
      invariant 0 <= i < 256 && InStep(start, top, e.delta, i)
      invariant SoFar(before, target[..], start, top, e.delta, i)
      decreases Left(start, top, e.delta, i)
    {
      SoFarStep(before, target[..], start, top, e.delta, i);
      assert target[..][i := true] == target[..i] + [true] + target[i + 1..];
      target[i] := true;
      i := (i + e.delta) % 256;
    }
    assert forall j | 0 <= j < target.Length :: !Ahead(start, top, e.delta, i, j);
  }

  // ---- A whole field -------------------------------------------------------------

  /** The bits after all entries, or the first problem. */
  function FieldBits(bits: seq<bool>, entries: seq<string>, lo: int, hi: int): (r: Parsed<seq<bool>>)
    ensures r.Good? ==> |r.value| == |bits|
    decreases |entries|
  {
    if entries == [] then Good(bits)
    else
      var e := ParseEntry(entries[0], lo, hi);
      if e.Bad? then Bad(e.problem) else FieldBits(EntryBits(bits, e.value, lo), entries[1..], lo, hi)
  }

  /** `set_cron_field`: the bitset is changed in place, entry by entry. */
  function CronField(value: string, bits: seq<bool>, lo: int, hi: int): (r: Parsed<seq<bool>>)
    ensures r.Good? ==> |r.value| == |bits|
  {
    if value != "" && value[|value| - 1] == ',' then Bad(EndsWithComma)
    else if value == "" then Bad(NoField)
    else FieldBits(bits, Split(value, ','), lo, hi)
  }

  method SetCronField(value: string, target: array<bool>, lo: int, hi: int) returns (problem: Option<Problem>)
    requires hi - lo < 60 && target.Length == hi - lo + 1
    modifies target
    ensures problem.None? ==> CronField(value, old(target[..]), lo, hi) == Good(target[..])
    ensures problem.Some? ==> CronField(value, old(target[..]), lo, hi) == Bad(problem.value)
  {
    if value != "" && value[|value| - 1] == ',' {
      return Some(EndsWithComma);
    }
    var fields := Split(value, ',');
    if fields == [] {
      return Some(NoField);
    }
    ghost var bits := target[..];
    var k := 0;
    while k < |fields|
      invariant 0 <= k <= |fields|
      invariant FieldBits(target[..], fields[k..], lo, hi) == FieldBits(bits, fields, lo, hi)
    {
      var entry := ParseEntry(fields[k], lo, hi);
      if entry.Bad? {
        return Some(entry.problem);
      }
      SetEntry(target, entry.value, lo, hi);
      k := k + 1;
    }
    return None;
  }

  /** The text of an entry means the value `j` (counted from the field's minimum). */
  predicate EntryMeans(entry: string, lo: int, hi: int, j: int) {
    var e := ParseEntry(entry, lo, hi);
    e.Good? && Meant(e.value.first - lo, e.value.last - lo, e.value.delta, j)
  }

  /** No first step of an entry passes 255. */
  predicate StepsFit(entries: seq<string>, lo: int, hi: int) {
    forall k | 0 <= k < |entries| ::
      var e := ParseEntry(entries[k], lo, hi); e.Good? ==> e.value.first - lo + e.value.delta <= 255
  }

  /** A parsed field admits exactly the values one of its entries means. */
  lemma {:induction false} FieldMeans(bits: seq<bool>, entries: seq<string>, lo: int, hi: int)
    requires FieldBits(bits, entries, lo, hi).Good? && StepsFit(entries, lo, hi)
    ensures
      var r := FieldBits(bits, entries, lo, hi).value;
      forall j | 0 <= j < |r| ::
        r[j] <==> bits[j] || exists k | 0 <= k < |entries| :: EntryMeans(entries[k], lo, hi, j)
    decreases |entries|
  {
    if entries != [] {
      var e := ParseEntry(entries[0], lo, hi).value;
      var rest := entries[1..];
      var more := EntryBits(bits, e, lo);
      assert forall k | 0 <= k < |rest| :: rest[k] == entries[k + 1];
      FieldMeans(more, rest, lo, hi);
      var r := FieldBits(bits, entries, lo, hi).value;
      forall j | 0 <= j < |r|
        ensures r[j] <==> bits[j] || exists k | 0 <= k < |entries| :: EntryMeans(entries[k], lo, hi, j)
      {
        assert more[j] == (bits[j] || EntryMeans(entries[0], lo, hi, j));
        if k :| 0 <= k < |entries| && EntryMeans(entries[k], lo, hi, j) {
          assert k > 0 ==> EntryMeans(rest[k - 1], lo, hi, j);
        }
      }
    }
  }

  /** No entry clears a bit. */
  lemma {:induction false} BitsGrow(bits: seq<bool>, entries: seq<string>, lo: int, hi: int, j: int)
    requires FieldBits(bits, entries, lo, hi).Good? && 0 <= j < |bits| && bits[j]
    ensures FieldBits(bits, entries, lo, hi).value[j]
    decreases |entries|
  {
    if entries != [] {
      BitsGrow(EntryBits(bits, ParseEntry(entries[0], lo, hi).value, lo), entries[1..], lo, hi, j);
    }
  }

  /** A parsed field admits some value. */
  lemma {:induction false} FieldAdmitsSome(value: string, bits: seq<bool>, lo: int, hi: int)
    requires |bits| == hi - lo + 1 && CronField(value, bits, lo, hi).Good?
    ensures SomeBit(CronField(value, bits, lo, hi).value)
  {
    var entries := Split(value, ',');
    var e := ParseEntry(entries[0], lo, hi).value;
    var start := e.first - lo;
    ModUnique(0, e.delta, 0, 0);
    ModUnique(0, 256 - e.delta, 0, 0);
    assert EntryBits(bits, e, lo)[start];
    BitsGrow(EntryBits(bits, e, lo), entries[1..], lo, hi, start);
  }

  predicate Unset(bits: seq<bool>) { forall j | 0 <= j < |bits| :: !bits[j] }

  function StepText(first: nat, last: nat, delta: nat): string { RangeText(first, last) + ['/'] + Render(delta, 10) }

  lemma {:induction false} StepTextIsOneEntry(first: nat, last: nat, delta: nat)
    ensures Split(StepText(first, last, delta), ',') == [StepText(first, last, delta)]
    ensures var t := StepText(first, last, delta); t != "" && t[|t| - 1] != ','
  {
    var t := StepText(first, last, delta);
    NumeralApart(first, ',');
    NumeralApart(last, ',');
    NumeralApart(delta, ',');
    SplitSingle(t, ',');
    assert t[|t| - 1] in t;
  }

  lemma {:induction false} OneEntryField(bits: seq<bool>, text: string, e: Entry, lo: int, hi: int)
    requires ParseEntry(text, lo, hi) == Good(e)
    ensures FieldBits(bits, [text], lo, hi) == Good(EntryBits(bits, e, lo))
  {
    var r := EntryBits(bits, e, lo);
    assert FieldBits(r, [text][1..], lo, hi) == Good(r);
  }

  lemma {:induction false} StepTextRead(bits: seq<bool>, first: nat, last: nat, delta: nat, lo: int, hi: int)
    requires 0 <= lo <= first <= last <= hi < 256 && 1 <= delta < 256
    ensures CronField(StepText(first, last, delta), bits, lo, hi) ==
            Good(EntryBits(bits, Entry(first, last, delta), lo))
  {
    var t := StepText(first, last, delta);
    StepTextIsOneEntry(first, last, delta);
    RangeRead(first, last, lo, hi);
    EntryRead(RangeText(first, last), delta, lo, hi);
    OneEntryField(bits, t, Entry(first, last, delta), lo, hi);
  }

  lemma {:induction false} EntryBitsMeant(bits: seq<bool>, e: Entry, lo: int, hi: int)
    requires EntryFits(e, lo, hi) && hi - lo < 60 && |bits| == hi - lo + 1 && Unset(bits)
    ensures
      e.first - lo + e.delta <= 255 <==>
      forall j | 0 <= j < |bits| :: EntryBits(bits, e, lo)[j] == Meant(e.first - lo, e.last - lo, e.delta, j)
  {
    var r := EntryBits(bits, e, lo);
    var start := e.first - lo;
    if start + e.delta > 255 {
      var j := start + e.delta - 256;
      ModUnique(start - j, 256 - e.delta, 1, 0);
      assert r[j] != Meant(start, e.last - lo, e.delta, j);
    } else {
      forall j | 0 <= j < |bits| ensures r[j] == Meant(start, e.last - lo, e.delta, j) {
        assert r[j] == (bits[j] || Visited(start, e.last - lo, e.delta, j));
      }
    }
  }

  /** From text to bits: the field "n-m/d" is always accepted, and it admits exactly the values
      n, n + d, ... up to m if and only if its first step does not pass 255. */
  lemma {:induction false} StepExpression(bits: seq<bool>, first: nat, last: nat, delta: nat, lo: int, hi: int)
    requires 0 <= lo <= first <= last <= hi < 256 && 1 <= delta < 256
    requires hi - lo < 60 && |bits| == hi - lo + 1 && Unset(bits)
    ensures
      var r := CronField(StepText(first, last, delta), bits, lo, hi);
      && r.Good?
      && (first - lo + delta <= 255 <==>
          forall j | 0 <= j < |bits| :: r.value[j] == Meant(first - lo, last - lo, delta, j))
  {
    StepTextRead(bits, first, last, delta, lo, hi);
    EntryBitsMeant(bits, Entry(first, last, delta), lo, hi);
  }
}
