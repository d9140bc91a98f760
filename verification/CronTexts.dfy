/** What the texts of a cron expression are read as (framework/cron/croncpp.hpp): `*`, numbers as
    the C library reads them, names, and the six fields of an expression. */
module CronTexts {
  import opened Basics
  import opened Digits
  import opened Text
  import opened CronField
  import opened CronExpression

  // ---- Everything -----------------------------------------------------------------

  /** `*` names every value of its field; with an increment it is taken in steps from the lowest. */
  lemma {:induction false} StarRead(lo: int, hi: int, delta: nat)
    requires lo <= hi && 1 <= delta < 256
    ensures MakeRange("*", lo, hi) == Good((lo, hi))
    ensures ParseEntry("*", lo, hi) == Good(Entry(lo, hi, 1))
    ensures ParseEntry("*" + ['/'] + Render(delta, 10), lo, hi) == Good(Entry(lo, hi, delta))
  {
    EntryRead("*", delta, lo, hi);
  }

  /** The field `*` admits every value. */
  lemma {:induction false} StarField(bits: seq<bool>, lo: int, hi: int)
    requires lo <= hi && hi - lo < 60 && |bits| == hi - lo + 1
    ensures CronField.CronField("*", bits, lo, hi).Good?
    ensures forall j | 0 <= j < |bits| :: CronField.CronField("*", bits, lo, hi).value[j]
  {
    SplitSingle("*", ',');
    StarRead(lo, hi, 1);
    OneEntryField(bits, "*", Entry(lo, hi, 1), lo, hi);
    forall j | 0 <= j < |bits| ensures EntryBits(bits, Entry(lo, hi, 1), lo)[j] {
      ModUnique(j, 1, j, 0);
      assert Visited(0, hi - lo, 1, j);
    }
  }

  // ---- Numbers --------------------------------------------------------------------

  predicate AllSpaces(s: string) { forall i | 0 <= i < |s| :: Space(s[i]) }

  lemma {:induction false} SpacesSkipped(spaces: string, s: string)
    requires AllSpaces(spaces) && (s == "" || !Space(s[0]))
    ensures SkipSpaces(spaces + s) == s
  {
    if spaces == "" {
      assert spaces + s == s;
    } else {
      assert (spaces + s)[1..] == spaces[1..] + s;
      SpacesSkipped(spaces[1..], s);
    }
  }

  lemma {:induction false} DigitsThen(digits: string, rest: string)
    requires (forall i | 0 <= i < |digits| :: Digit(digits[i])) && (rest == "" || DigitValue(rest[0]) >= 10)
    ensures DigitRun(digits + rest) == |digits| && (digits + rest)[..|digits|] == digits
  {
    if digits == "" {
      assert digits + rest == rest;
    } else {
      assert (digits + rest)[0] == digits[0] && (digits + rest)[1..] == digits[1..] + rest;
      DigitsThen(digits[1..], rest);
    }
  }

  lemma {:induction false} SignedDigits(sign: string, digits: string, rest: string)
    requires sign in {"", "+", "-"} && digits != "" && forall i | 0 <= i < |digits| :: Digit(digits[i])
    ensures
      var s := sign + (digits + rest);
      s != "" && !Space(s[0]) && (sign == "" ==> Digit(s[0])) && (sign != "" ==> s[0] == sign[0]) && s[|sign|..] == digits + rest
  {
    assert (digits + rest)[0] == digits[0];
  }

  lemma {:induction false} SignedRead(text: string, s: string, u: string, sign: string, v: nat)
    requires SkipSpaces(text) == s && s != "" && sign in {"", "+", "-"} && s[|sign|..] == u
    requires (sign == "" ==> Digit(s[0])) && (sign != "" ==> s[0] == sign[0])
    requires DigitRun(u) > 0 && Digits.Value(u[..DigitRun(u)], 10) == v
    ensures ToCronInt(text) ==
            if v >= 0x1_0000_0000_0000_0000 then Bad(NumberTooLarge) else Good(Signed(sign, v) % 256)
  {
    assert sign == "" ==> s[0..] == s;
  }

  function Signed(sign: string, v: int): int { if sign == "-" then -v else v }

  /** A number may follow spaces and a sign, and what follows it is ignored; it is cut down to eight
      bits, a negative one from the top. */
  lemma {:induction false} NumberRead(spaces: string, sign: string, n: nat, rest: string)
    requires AllSpaces(spaces) && sign in {"", "+", "-"} && (rest == "" || DigitValue(rest[0]) >= 10)
    ensures ToCronInt(spaces + (sign + (Render(n, 10) + rest))) ==
            if n >= 0x1_0000_0000_0000_0000 then Bad(NumberTooLarge) else Good(Signed(sign, n) % 256)
  {
    var digits := Render(n, 10);
    var s := sign + (digits + rest);
    NumeralIsDigits(n);
    RenderRoundTrip(n, 10);
    DigitsThen(digits, rest);
    SignedDigits(sign, digits, rest);
    SpacesSkipped(spaces, s);
    SignedRead(spaces + s, s, digits + rest, sign, n);
  }

  /** Without a digit in that place there is no number. */
  lemma {:induction false} NoNumber(spaces: string, rest: string)
    requires AllSpaces(spaces) && (rest == "" || (!Space(rest[0]) && rest[0] !in "+-" && DigitValue(rest[0]) >= 10))
    ensures ToCronInt(spaces + rest) == Bad(NotANumber)
  {
    SpacesSkipped(spaces, rest);
  }

  /** A range of numbers is refused exactly if it leaves the limits of its field or runs backwards. */
  lemma {:induction false} RangeVerdict(first: nat, last: nat, lo: int, hi: int)
    requires first < 256 && last < 256
    ensures MakeRange(RangeText(first, last), lo, hi) ==
            if first > hi || last > hi then Bad(AboveMaximum)
            else if first < lo || last < lo then Bad(BelowMinimum)
            else if first > last then Bad(StartAfterEnd)
            else Good((first, last))
  {
    var a, b := Render(first, 10), Render(last, 10);
    NumeralRead(first);
    NumeralRead(last);
    RangeSplits(a, b, first, last);
    assert RangeText(first, last) != "*";
  }

  lemma {:induction false} ValueVerdict(n: nat, lo: int, hi: int)
    requires n < 256 && lo <= hi
    ensures MakeRange(Render(n, 10), lo, hi) ==
            if n > hi then Bad(AboveMaximum) else if n < lo then Bad(BelowMinimum) else Good((n, n))
  {
    NumeralRead(n);
    NumeralApart(n, '-');
    NumeralApart(n, '*');
  }

  /** An increment that is 0 in eight bits is refused. */
  lemma {:induction false} IncrementVerdict(range: string, n: nat, lo: int, hi: int)
    requires MakeRange(range, lo, hi).Good? && '/' !in range && n < 0x1_0000_0000_0000_0000
    ensures ParseEntry(range + ['/'] + Render(n, 10), lo, hi) ==
            if n % 256 == 0 then Bad(IncrementNotPositive)
            else
              var r := MakeRange(range, lo, hi).value;
              Good(Entry(r.0, if '-' in range then r.1 else hi, n % 256))
  {
    var d := Render(n, 10);
    NumberRead("", "", n, "");
    assert "" + ("" + (d + "")) == d;
    NumeralApart(n, '/');
    SplitFirst(range, '/', d);
    SplitSingle(d, '/');
    assert (range + ['/'] + d)[|range|] == '/';
  }

  // ---- Fields -----------------------------------------------------------------------

  predicate AllParse(entries: seq<string>, lo: int, hi: int) {
    forall k | 0 <= k < |entries| :: ParseEntry(entries[k], lo, hi).Good?
  }

  lemma {:induction false} EntriesVerdict(bits: seq<bool>, entries: seq<string>, lo: int, hi: int)
    ensures FieldBits(bits, entries, lo, hi).Good? <==> AllParse(entries, lo, hi)
    decreases |entries|
  {
    if entries != [] {
      var e := ParseEntry(entries[0], lo, hi);
      assert forall k | 0 < k < |entries| :: entries[k] == entries[1..][k - 1];
      if e.Good? {
        EntriesVerdict(EntryBits(bits, e.value, lo), entries[1..], lo, hi);
      }
    }
  }

  /** A field is accepted exactly if it is not empty, does not end with a comma, and each of its
      entries is accepted. */
  lemma {:induction false} FieldVerdict(value: string, bits: seq<bool>, lo: int, hi: int)
    ensures CronField.CronField(value, bits, lo, hi).Good? <==>
            value != "" && value[|value| - 1] != ',' && AllParse(Split(value, ','), lo, hi)
  {
    EntriesVerdict(bits, Split(value, ','), lo, hi);
  }

  // ---- Names ------------------------------------------------------------------------

  predicate Letter(c: char) { 'A' <= c <= 'Z' }

  /** Three upper-case letters each, and no two alike. */
  predicate AreNames(names: seq<string>) {
    && |names| <= 100
    && (forall k | 0 <= k < |names| :: |names[k]| == 3 && forall i | 0 <= i < 3 :: Letter(names[k][i]))
    && (forall i, k | 0 <= i < k < |names| :: names[i] != names[k])
  }

  predicate NoLetters(s: string) { forall i | 0 <= i < |s| :: !Letter(s[i]) }

  /** A text without letters holds no name. */
  lemma {:induction false} NoName(s: string, name: string)
    requires NoLetters(s) && |name| == 3 && Letter(name[0])
    ensures Find(s, name, 0).None?
  {
    forall k: nat ensures !At(s, name, k) {
      assert k + 3 <= |s| ==> s[k..k + 3][0] == s[k];
    }
    FindNone(s, name, 0);
  }

  lemma {:induction false} NoLettersStay(s: string, names: seq<string>, k: nat)
    requires NoLetters(s) && AreNames(names) && k <= |names|
    ensures ReplaceOrdinals(s, names, k) == s
    decreases |names| - k
  {
    if k < |names| {
      NoName(s, names[k]);
      NoLettersStay(s, names, k + 1);
    }
  }

  lemma {:induction false} NumeralHasNoLetters(n: nat)
    ensures NoLetters(Render(n, 10))
  {
    NumeralIsDigits(n);
  }

  /** An occurrence of a name consists of letters. */
  lemma {:induction false} NameHere(s: string, name: string, k: nat)
    requires At(s, name, k) && |name| == 3 && forall i | 0 <= i < 3 :: Letter(name[i])
    ensures k + 3 <= |s| && Letter(s[k]) && Letter(s[k + 1]) && Letter(s[k + 2]) && s[k..k + 3] == name
  {
    assert s[k..k + 3][0] == s[k] && s[k..k + 3][1] == s[k + 1] && s[k..k + 3][2] == s[k + 2];
  }

  /** A name among text without letters occurs there alone. */
  lemma {:induction false} OnlyThere(s: string, a: string, x: string, b: string, name: string, k: nat)
    requires s == a + x + b && NoLetters(a) && NoLetters(b) && |x| == 3
    requires |name| == 3 && forall i | 0 <= i < 3 :: Letter(name[i])
    ensures At(s, name, k) <==> k == |a| && x == name
  {
    assert s[|a|..|a| + 3] == x;
    Window(s, a, x, b);
    if At(s, name, k) {
      NameHere(s, name, k);
    }
  }

  lemma {:induction false} Window(s: string, a: string, x: string, b: string)
    requires s == a + x + b && NoLetters(a) && NoLetters(b)
    ensures forall i | 0 <= i < |s| && !(|a| <= i < |a| + |x|) :: !Letter(s[i])
  {
    forall i | 0 <= i < |s| && !(|a| <= i < |a| + |x|) ensures !Letter(s[i]) {
      if i < |a| {
        assert s[i] == a[i];
      } else {
        assert s[i] == b[i - |a| - |x|];
      }
    }
  }

  lemma {:induction false} Replaced(s: string, a: string, x: string, b: string, names: seq<string>, k: nat)
    requires AreNames(names) && k < |names| && s == a + x + b && |x| == 3
    ensures Find(s, names[k], 0) == Some(|a|) ==>
              ReplaceOrdinals(s, names, k) == ReplaceOrdinals(a + Render(k, 10) + b, names, k + 1)
    ensures Find(s, names[k], 0).None? ==> ReplaceOrdinals(s, names, k) == ReplaceOrdinals(s, names, k + 1)
  {
    assert s[..|a|] == a && s[|a| + 3..] == b;
  }

  /** A name among text without letters is replaced by its number. */
  lemma {:induction false} NameRead(names: seq<string>, i: nat, k: nat, a: string, b: string)
    requires AreNames(names) && k <= i < |names| && NoLetters(a) && NoLetters(b)
    ensures ReplaceOrdinals(a + names[i] + b, names, k) == a + Render(i, 10) + b
    decreases |names| - k
  {
    var s := a + names[i] + b;
    forall n: nat ensures At(s, names[k], n) <==> n == |a| && k == i {
      OnlyThere(s, a, names[i], b, names[k], n);
    }
    Replaced(s, a, names[i], b, names, k);
    if k < i {
      FindNone(s, names[k], 0);
      NameRead(names, i, k + 1, a, b);
    } else {
      FindKnown(s, names[k], 0, |a|);
      NumeralHasNoLetters(i);
      NoLettersStay(a + Render(i, 10) + b, names, i + 1);
    }
  }

  lemma {:induction false} OnlyTwo(s: string, a: string, x: string, b: string, y: string, c: string, name: string, k: nat)
    requires s == a + x + b + y + c && NoLetters(a) && NoLetters(b) && NoLetters(c) && |x| == |y| == 3 && b != ""
    requires |name| == 3 && forall i | 0 <= i < 3 :: Letter(name[i])
    ensures At(s, name, k) <==> (k == |a| && x == name) || (k == |a| + 3 + |b| && y == name)
  {
    var q := |a| + 3 + |b|;
    assert s[|a|..|a| + 3] == x && s[q..q + 3] == y;
    if At(s, name, k) {
      NameHere(s, name, k);
      TwoWindows(s, a, x, b, y, c, k);
    }
  }

  lemma {:induction false} TwoWindows(s: string, a: string, x: string, b: string, y: string, c: string, k: nat)
    requires s == a + x + b + y + c && NoLetters(a) && NoLetters(b) && NoLetters(c) && |x| == |y| == 3 && b != ""
    requires k + 3 <= |s| && Letter(s[k]) && Letter(s[k + 1]) && Letter(s[k + 2])
    ensures k == |a| || k == |a| + 3 + |b|
  {
    var p, q := |a| + 3, |a| + 3 + |b|;
    forall i | 0 <= i < |s| && !(|a| <= i < p) && !(q <= i < q + 3) ensures !Letter(s[i]) {
      if i < |a| {
        assert s[i] == a[i];
      } else if i < q {
        assert s[i] == b[i - p];
      } else {
        assert s[i] == c[i - q - 3];
      }
    }
  }

  /** Two different names, apart from each other, are both replaced, be it a range or a list. */
  lemma {:induction false} NamesRead(names: seq<string>, i: nat, j: nat, k: nat, a: string, b: string, c: string)
    requires AreNames(names) && k <= i < |names| && k <= j < |names| && i != j && b != ""
    requires NoLetters(a) && NoLetters(b) && NoLetters(c)
    ensures ReplaceOrdinals(a + names[i] + b + names[j] + c, names, k) == a + Render(i, 10) + b + Render(j, 10) + c
    decreases |names| - k
  {
    var x, y := names[i], names[j];
    var s := a + x + b + y + c;
    forall n: nat ensures At(s, names[k], n) <==> (n == |a| && k == i) || (n == |a| + 3 + |b| && k == j) {
      OnlyTwo(s, a, x, b, y, c, names[k], n);
    }
    if k == i {
      FindKnown(s, names[k], 0, |a|);
      FirstReplaced(names, i, j, a, b, c);
    } else if k == j {
      FindKnown(s, names[k], 0, |a| + 3 + |b|);
      LastReplaced(names, i, j, a, b, c);
    } else {
      FindNone(s, names[k], 0);
      NamesRead(names, i, j, k + 1, a, b, c);
    }
  }

  lemma {:induction false} FirstReplaced(names: seq<string>, i: nat, j: nat, a: string, b: string, c: string)
    requires AreNames(names) && i < j < |names| && NoLetters(a) && NoLetters(b) && NoLetters(c)
    requires Find(a + names[i] + b + names[j] + c, names[i], 0) == Some(|a|)
    ensures ReplaceOrdinals(a + names[i] + b + names[j] + c, names, i) == a + Render(i, 10) + b + Render(j, 10) + c
  {
    var s, n := a + names[i] + b + names[j] + c, Render(i, 10);
    var rest := b + names[j] + c;
    assert s == a + names[i] + rest;
    Replaced(s, a, names[i], rest, names, i);
    assert a + n + rest == (a + n + b) + names[j] + c;
    NumeralHasNoLetters(i);
    NameRead(names, j, i + 1, a + n + b, c);
  }

  lemma {:induction false} LastReplaced(names: seq<string>, i: nat, j: nat, a: string, b: string, c: string)
    requires AreNames(names) && j < i < |names| && NoLetters(a) && NoLetters(b) && NoLetters(c)
    requires Find(a + names[i] + b + names[j] + c, names[j], 0) == Some(|a| + 3 + |b|)
    ensures ReplaceOrdinals(a + names[i] + b + names[j] + c, names, j) == a + Render(i, 10) + b + Render(j, 10) + c
  {
    var s, n := a + names[i] + b + names[j] + c, Render(j, 10);
    var before := a + names[i] + b;
    Replaced(s, before, names[j], c, names, j);
    assert before + n + c == a + names[i] + (b + n + c);
    NumeralHasNoLetters(j);
    NameRead(names, i, j + 1, a, b + n + c);
    assert a + Render(i, 10) + (b + n + c) == a + Render(i, 10) + b + n + c;
  }

  lemma {:induction false} NameLeft(names: seq<string>, i: nat, k: nat, a: string, b: string)
    requires AreNames(names) && i < k <= |names| && NoLetters(a) && NoLetters(b)
    ensures ReplaceOrdinals(a + names[i] + b, names, k) == a + names[i] + b
    decreases |names| - k
  {
    if k < |names| {
      var s := a + names[i] + b;
      forall n: nat ensures !At(s, names[k], n) {
        OnlyThere(s, a, names[i], b, names[k], n);
      }
      FindNone(s, names[k], 0);
      NameLeft(names, i, k + 1, a, b);
    }
  }

  /** Of a name that occurs twice only the first occurrence is replaced. */
  lemma {:induction false} RepeatedName(names: seq<string>, i: nat, k: nat, a: string, b: string, c: string)
    requires AreNames(names) && k <= i < |names| && b != "" && NoLetters(a) && NoLetters(b) && NoLetters(c)
    ensures ReplaceOrdinals(a + names[i] + b + names[i] + c, names, k) == a + Render(i, 10) + b + names[i] + c
    decreases |names| - k
  {
    var x := names[i];
    var s := a + x + b + x + c;
    forall n: nat ensures At(s, names[k], n) <==> k == i && (n == |a| || n == |a| + 3 + |b|) {
      OnlyTwo(s, a, x, b, x, c, names[k], n);
    }
    if k == i {
      FindKnown(s, x, 0, |a|);
      RepeatLeft(names, i, a, b, c);
    } else {
      FindNone(s, names[k], 0);
      RepeatedName(names, i, k + 1, a, b, c);
    }
  }

  lemma {:induction false} RepeatLeft(names: seq<string>, i: nat, a: string, b: string, c: string)
    requires AreNames(names) && i < |names| && NoLetters(a) && NoLetters(b) && NoLetters(c)
    requires Find(a + names[i] + b + names[i] + c, names[i], 0) == Some(|a|)
    ensures ReplaceOrdinals(a + names[i] + b + names[i] + c, names, i) == a + Render(i, 10) + b + names[i] + c
  {
    var n, rest := Render(i, 10), b + names[i] + c;
    assert a + names[i] + b + names[i] + c == a + names[i] + rest;
    Replaced(a + names[i] + rest, a, names[i], rest, names, i);
    assert a + n + rest == (a + n + b) + names[i] + c;
    NumeralHasNoLetters(i);
    NameLeft(names, i, i + 1, a + n + b, c);
  }

  /** The same letters in either case. */
  predicate Spells(s: string, name: string) {
    |s| == |name| && forall i | 0 <= i < |s| :: s[i] == name[i] || (Letter(name[i]) && s[i] == name[i] + ('a' - 'A'))
  }

  lemma {:induction false} UpperCase(s: string, name: string)
    requires Spells(s, name) && forall i | 0 <= i < |name| :: !('a' <= name[i] <= 'z')
    ensures ToUpper(s) == name
  {
  }

  /** The days are named from Sunday, the months from January. */
  lemma {:induction false} TheNames()
    ensures DAYS == ["SUN", "MON", "TUE", "WED", "THU", "FRI", "SAT"]
    ensures MONTHS[1..] == ["JAN", "FEB", "MAR", "APR", "MAY", "JUN", "JUL", "AUG", "SEP", "OCT", "NOV", "DEC"]
  {
  }

  lemma {:induction false} UpperNames(name: string)
    requires |name| == 3 && forall i | 0 <= i < 3 :: Letter(name[i])
    ensures forall i | 0 <= i < |name| :: !('a' <= name[i] <= 'z')
  {
  }

  lemma {:induction false} NameAlone(names: seq<string>, i: nat)
    requires AreNames(names) && i < |names|
    ensures ReplaceOrdinals(names[i], names, 0) == Render(i, 10)
  {
    NameRead(names, i, 0, "", "");
    assert "" + names[i] + "" == names[i] && "" + Render(i, 10) + "" == Render(i, 10);
  }

  /** The name of a day stands for its number, in either case. */
  lemma {:induction false} DayRead(s: string, i: nat)
    requires i < |DAYS| && Spells(s, DAYS[i])
    ensures DaysOfWeek(s) == Render(i, 10)
  {
    AreNamesOf();
    UpperNames(DAYS[i]);
    UpperCase(s, DAYS[i]);
    NameAlone(DAYS, i);
    NumeralApart(i, '?');
  }

  /** The name of a month stands for its number. */
  lemma {:induction false} MonthRead(s: string, i: nat)
    requires i < |MONTHS| && Spells(s, MONTHS[i])
    ensures MonthNumbers(s) == Render(i, 10)
  {
    AreNamesOf();
    UpperNames(MONTHS[i]);
    UpperCase(s, MONTHS[i]);
    NameAlone(MONTHS, i);
  }

  /** A range of days, such as MON-FRI, is read as the range of their numbers. */
  lemma {:induction false} DayRangeRead(i: nat, j: nat)
    requires i < 7 && j < 7 && i != j
    ensures ReplaceOrdinals(DAYS[i] + "-" + DAYS[j], DAYS, 0) == RangeText(i, j)
  {
    AreNamesOf();
    NameRangeRead(DAYS, i, j);
  }

  lemma {:induction false} NameRangeRead(names: seq<string>, i: nat, j: nat)
    requires AreNames(names) && i < |names| && j < |names| && i != j
    ensures ReplaceOrdinals(names[i] + "-" + names[j], names, 0) == RangeText(i, j)
  {
    NamesRead(names, i, j, 0, "", "-", "");
    Bare(names[i], "-", names[j]);
    Bare(Render(i, 10), "-", Render(j, 10));
  }

  lemma {:induction false} Bare(a: string, b: string, c: string)
    ensures "" + a + b + c + "" == a + b + c
  {
  }

  /** Of a day that is named twice the second name is left, and is no number. */
  lemma {:induction false} RepeatedDayLeft(i: nat, separator: char)
    requires i < 7 && !Letter(separator)
    ensures ReplaceOrdinals(DAYS[i] + [separator] + DAYS[i], DAYS, 0) == Render(i, 10) + [separator] + DAYS[i]
    ensures ToCronInt(DAYS[i]) == Bad(NotANumber)
  {
    AreNamesOf();
    NameTwice(DAYS, i, [separator]);
    NameIsNoNumber(DAYS[i]);
  }

  lemma {:induction false} SecondIsNoNumber(a: string, separator: char, b: string, lo: int, hi: int)
    requires lo <= hi && separator in {',', '-'} && ',' !in a && '-' !in a
    requires b != "" && ',' !in b && '-' !in b && '/' !in a && '/' !in b && ToCronInt(b).Bad? && b != "*"
    ensures !Accepted(a + [separator] + b, lo, hi)
  {
    var value := a + [separator] + b;
    SplitFirst(a, separator, b);
    SplitSingle(b, separator);
    assert value[|a|] == separator && value[|a| + 1] == b[0];
    if separator == '-' {
      SplitSingle(value, ',');
      assert MakeRange(value, lo, hi).Bad?;
    } else {
      assert MakeRange(b, lo, hi).Bad?;
    }
    var entry := Split(value, ',')[if separator == '-' then 0 else 1];
    assert ParseEntry(entry, lo, hi).Bad?;
    FieldVerdict(value, seq(hi - lo + 1, _ => false), lo, hi);
  }

  lemma {:induction false} TwiceUpper(names: seq<string>, i: nat, separator: char)
    requires AreNames(names) && i < |names| && !('a' <= separator <= 'z')
    ensures ToUpper(names[i] + [separator] + names[i]) == names[i] + [separator] + names[i]
  {
    var field := names[i] + [separator] + names[i];
    assert forall k | 0 <= k < 3 :: field[k] == names[i][k] && field[k + 4] == names[i][k];
    UpperCase(field, field);
  }

  lemma {:induction false} TwiceRefused(names: seq<string>, i: nat, separator: char, lo: int, hi: int)
    requires AreNames(names) && i < |names| && separator in {',', '-'} && lo <= hi && ToCronInt(names[i]).Bad?
    ensures !Accepted(Render(i, 10) + [separator] + names[i], lo, hi)
  {
    NumeralApart(i, ',');
    NumeralApart(i, '-');
    NumeralApart(i, '/');
    SecondIsNoNumber(Render(i, 10), separator, names[i], lo, hi);
  }

  /** A field that names a day twice, such as MON-MON or MON,MON, is refused. */
  lemma {:induction false} RepeatedDay(i: nat, separator: char)
    requires i < 7 && separator in {',', '-'}
    ensures !Accepted(DaysOfWeek(DAYS[i] + [separator] + DAYS[i]), 0, 6)
  {
    AreNamesOf();
    RepeatedDayLeft(i, separator);
    TwiceUpper(DAYS, i, separator);
    TwiceRefused(DAYS, i, separator, 0, 6);
    assert |Render(i, 10) + [separator] + DAYS[i]| > 1;
  }

  lemma {:induction false} NameTwice(names: seq<string>, i: nat, b: string)
    requires AreNames(names) && i < |names| && b != "" && NoLetters(b)
    ensures ReplaceOrdinals(names[i] + b + names[i], names, 0) == Render(i, 10) + b + names[i]
  {
    RepeatedName(names, i, 0, "", b, "");
    Bare(names[i], b, names[i]);
    Bare(Render(i, 10), b, names[i]);
  }

  lemma {:induction false} NameIsNoNumber(name: string)
    requires |name| == 3 && forall i | 0 <= i < 3 :: Letter(name[i])
    requires DigitValue(name[0]) >= 10
    ensures ToCronInt(name) == Bad(NotANumber)
  {
    NoNumber("", name);
    assert "" + name == name;
  }

  lemma {:induction false} AreNamesOf()
    ensures AreNames(DAYS) && AreNames(MONTHS)
  {
  }

  /** Fields without letters stay as they are, but `?` stands for any day. */
  lemma {:induction false} PlainFields(s: string)
    requires NoLetters(s) && ToUpper(s) == s
    ensures MonthNumbers(s) == s && DaysOfWeek(s) == if s == "?" then "*" else s
    ensures AnyDay(s) == if s == "?" then "*" else s
  {
    AreNamesOf();
    NoLettersStay(s, DAYS, 0);
    NoLettersStay(s, MONTHS, 0);
  }

  // ---- The six fields -----------------------------------------------------------------

  lemma {:induction false} NonEmptyFirst(token: string, tokens: seq<string>)
    ensures NonEmpty([token] + tokens) == (if token == "" then [] else [token]) + NonEmpty(tokens)
  {
    assert ([token] + tokens)[1..] == tokens;
  }

  /** Fields are separated by any number of spaces. */
  lemma {:induction false} FieldsFirst(word: string, rest: string)
    requires ' ' !in word
    ensures Fields(word + [' '] + rest) == (if word == "" then [] else [word]) + Fields(rest)
    ensures Fields(word) == if word == "" then [] else [word]
  {
    SplitFirst(word, ' ', rest);
    NonEmptyFirst(word, Split(rest, ' '));
    if word != "" {
      SplitSingle(word, ' ');
      assert [word][1..] == [];
      assert NonEmpty([word]) == [word] + NonEmpty([]);
    }
  }

  predicate Accepted(value: string, lo: int, hi: int)
    requires lo <= hi
  {
    FieldOf(value, lo, hi).Good?
  }

  /** An expression is accepted exactly if it has six fields and each of them is accepted. */
  lemma {:induction false} ExpressionVerdict(expr: string)
    ensures
      var f := Fields(expr);
      MakeCron(expr).Good? <==>
      && |f| == 6
      && Accepted(f[0], 0, 59) && Accepted(f[1], 0, 59) && Accepted(f[2], 0, 23)
      && Accepted(AnyDay(f[3]), 1, 31) && Accepted(MonthNumbers(f[4]), 1, 12) && Accepted(DaysOfWeek(f[5]), 0, 6)
  {
  }

  predicate AllSet(bits: seq<bool>) { forall j | 0 <= j < |bits| :: bits[j] }

  lemma {:induction false} StarSet(lo: int, hi: int)
    requires lo <= hi && hi - lo < 60
    ensures Accepted("*", lo, hi) && AllSet(FieldOf("*", lo, hi).value)
  {
    StarField(seq(hi - lo + 1, _ => false), lo, hi);
  }

  lemma {:induction false} IfStar(value: string, bits: seq<bool>, lo: int, hi: int)
    requires lo <= hi && hi - lo < 60 && FieldOf(value, lo, hi) == Good(bits)
    ensures value == "*" ==> AllSet(bits)
  {
    StarSet(lo, hi);
  }

  lemma {:induction false} StarTexts(f: string)
    ensures f == "*" ==> MonthNumbers(f) == "*"
    ensures f == "*" || f == "?" ==> AnyDay(f) == DaysOfWeek(f) == "*"
  {
    PlainFields("*");
    PlainFields("?");
  }

  /** A field `*`, and `?` for a day, admits every value. */
  lemma {:induction false} StarAdmitsAll(expr: string)
    requires MakeCron(expr).Good?
    ensures |Fields(expr)| == 6
    ensures
      var c, f := MakeCron(expr).value, Fields(expr);
      && (f[0] == "*" ==> AllSet(c.seconds)) && (f[1] == "*" ==> AllSet(c.minutes)) && (f[2] == "*" ==> AllSet(c.hours))
      && (f[3] == "*" || f[3] == "?" ==> AllSet(c.daysOfMonth)) && (f[4] == "*" ==> AllSet(c.months))
      && (f[5] == "*" || f[5] == "?" ==> AllSet(c.daysOfWeek))
  {
    var c, f := MakeCron(expr).value, Fields(expr);
    StarTexts(f[3]);
    StarTexts(f[4]);
    StarTexts(f[5]);
    IfStar(f[0], c.seconds, 0, 59);
    IfStar(f[1], c.minutes, 0, 59);
    IfStar(f[2], c.hours, 0, 23);
    IfStar(AnyDay(f[3]), c.daysOfMonth, 1, 31);
    IfStar(MonthNumbers(f[4]), c.months, 1, 12);
    IfStar(DaysOfWeek(f[5]), c.daysOfWeek, 0, 6);
  }

  /** `n` stars with a space between them. */
  function Stars(n: nat): string
    requires n > 0
  {
    if n == 1 then "*" else "*" + [' '] + Stars(n - 1)
  }

  predicate AreStars(fields: seq<string>, n: nat) { |fields| == n && forall k | 0 <= k < n :: fields[k] == "*" }

  lemma {:induction false} StarFirst(text: string, rest: string, fields: seq<string>, n: nat)
    requires Fields(rest) == fields && AreStars(fields, n) && text == "*" + [' '] + rest
    ensures AreStars(Fields(text), n + 1)
  {
    FieldsFirst("*", rest);
  }

  lemma {:induction false} StarsFields(n: nat)
    requires n > 0
    ensures AreStars(Fields(Stars(n)), n)
  {
    if n == 1 {
      FieldsFirst("*", "");
    } else {
      StarsFields(n - 1);
      StarFirst(Stars(n), Stars(n - 1), Fields(Stars(n - 1)), n - 1);
    }
  }

  /** The expression of six stars is accepted, and so admits every time (`StarAdmitsAll`). */
  lemma {:induction false} SixStars()
    ensures Stars(6) == "* * * * * *" && MakeCron("* * * * * *").Good?
  {
    StarsFields(6);
    StarsWritten();
    StarFields(Fields("* * * * * *"), "* * * * * *");
  }

  lemma {:induction false} StarsWritten()
    ensures Stars(6) == "* * * * * *"
  {
    assert Stars(2) == "* *" && Stars(3) == "* * *" && Stars(4) == "* * * *" && Stars(5) == "* * * * *";
  }

  lemma {:induction false} StarFields(f: seq<string>, expr: string)
    requires f == Fields(expr) && |f| == 6 && forall k | 0 <= k < 6 :: f[k] == "*"
    ensures MakeCron(expr).Good?
  {
    PlainFields("*");
    StarSet(0, 59);
    StarSet(0, 23);
    StarSet(1, 31);
    StarSet(1, 12);
    StarSet(0, 6);
    ExpressionVerdict(expr);
  }
}
