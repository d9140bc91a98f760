/** Positional numerals: rendering and reading numbers in base 10 and base 16. */
module Digits {

  function DigitChar(d: nat): (c: char)
    requires d < 16
  {
    if d < 10 then '0' + (d as char) else 'a' + ((d - 10) as char)
  }

  /** The value of a digit, upper or lower case; 16 for any other character. */
  function DigitValue(c: char): (d: nat)
    ensures d <= 16
  {
    if '0' <= c <= '9' then (c - '0') as nat
    else if 'a' <= c <= 'f' then (c - 'a') as nat + 10
    else if 'A' <= c <= 'F' then (c - 'A') as nat + 10
    else 16
  }

  /** The digits are those of the hexadecimal system, in either case, and nothing else is one. */
  lemma {:induction false} TheDigits(d: nat, c: char)
    ensures d < 16 ==> DigitValue("0123456789abcdef"[d]) == DigitValue("0123456789ABCDEF"[d]) == d
    ensures DigitValue(c) < 16 ==> c == "0123456789abcdef"[DigitValue(c)] || c == "0123456789ABCDEF"[DigitValue(c)]
  {
  }

  predicate AllDigits(s: string, base: nat) {
    forall i | 0 <= i < |s| :: DigitValue(s[i]) < base
  }

  predicate AllDecimal(s: string) { AllDigits(s, 10) }

  /** Most significant digit first, no leading zeros. */
  function Render(n: nat, base: nat): (s: string)
    requires 2 <= base <= 16
    ensures s != ""
  {
    if n < base then [DigitChar(n)]
    else
      assert n / base < n;
      Render(n / base, base) + [DigitChar(n % base)]
  }

  function Value(s: string, base: nat): nat {
    if s == "" then 0 else Value(s[..|s| - 1], base) * base + DigitValue(s[|s| - 1])
  }

  lemma {:induction false} DigitRoundTrip(d: nat)
    requires d < 16
    ensures DigitValue(DigitChar(d)) == d
  {
  }

  lemma {:induction false} DivMod(n: nat, base: nat)
    requires base > 0
    ensures (n / base) * base + n % base == n
  {
  }

  lemma {:induction false} ValuePush(high: string, c: char, base: nat)
    ensures Value(high + [c], base) == Value(high, base) * base + DigitValue(c)
    ensures AllDigits(high, base) && DigitValue(c) < base ==> AllDigits(high + [c], base)
  {
    assert (high + [c])[..|high|] == high;
  }

  lemma {:induction false} RenderStep(n: nat, base: nat, high: nat, low: nat)
    requires 2 <= base <= 16 && n >= base && high == n / base && low == n % base
    ensures high < n && low < base && high * base + low == n
    ensures Render(n, base) == Render(high, base) + [DigitChar(low)]
  {
    DivMod(n, base);
  }

  lemma {:induction false} RenderDigit(n: nat, base: nat)
    requires 2 <= base <= 16 && n < base
    ensures Render(n, base) == "" + [DigitChar(n)]
  {
  }

  /** A rendered number reads back as itself. */
  lemma {:induction false} RenderRoundTrip(n: nat, base: nat)
    requires 2 <= base <= 16
    ensures AllDigits(Render(n, base), base)
    ensures Value(Render(n, base), base) == n
    decreases n
  {
    if n < base {
      RenderDigit(n, base);
      DigitRoundTrip(n);
      ValuePush("", DigitChar(n), base);
    } else {
      var high, low := n / base, n % base;
      RenderStep(n, base, high, low);
      RenderRoundTrip(high, base);
      DigitRoundTrip(low);
      ValuePush(Render(high, base), DigitChar(low), base);
    }
  }
}
