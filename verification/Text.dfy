/** Searching and splitting text the way the C++ standard library does. */
module Text {
  import opened Basics

  predicate At(s: string, pattern: string, k: nat) { k + |pattern| <= |s| && s[k..k + |pattern|] == pattern }

  /** `std::string::find`: the first occurrence at or after `from`. */
  function Find(s: string, pattern: string, from: nat): (r: Option<nat>)
    ensures r.Some? ==> from <= r.value && r.value + |pattern| <= |s|
    decreases |s| - from
  {
    if from + |pattern| > |s| then None
    else if s[from..from + |pattern|] == pattern then Some(from)
    else Find(s, pattern, from + 1)
  }

  /** The position found is an occurrence, and there is none before it. */
  lemma {:induction false} FindIsFirst(s: string, pattern: string, from: nat)
    ensures
      var r := Find(s, pattern, from);
      && (r.Some? ==> At(s, pattern, r.value))
      && forall k: nat | from <= k && (r.Some? ==> k < r.value) :: !At(s, pattern, k)
    decreases |s| - from
  {
    if from + |pattern| <= |s| && !At(s, pattern, from) {
      FindIsFirst(s, pattern, from + 1);
    }
  }

  lemma {:induction false} FindKnown(s: string, pattern: string, from: nat, at: nat)
    requires from <= at && At(s, pattern, at)
    requires forall k: nat | from <= k < at :: !At(s, pattern, k)
    ensures Find(s, pattern, from) == Some(at)
  {
    FindIsFirst(s, pattern, from);
  }

  lemma {:induction false} FindNone(s: string, pattern: string, from: nat)
    requires forall k: nat | from <= k :: !At(s, pattern, k)
    ensures Find(s, pattern, from) == None
  {
    FindIsFirst(s, pattern, from);
  }

  /** The position of the first `c`, or the length if there is none. */
  function IndexOf(s: string, c: char): (k: nat)
    ensures k <= |s| && (k < |s| ==> s[k] == c)
    ensures forall i | 0 <= i < k :: s[i] != c
  {
    if s == "" || s[0] == c then 0 else 1 + IndexOf(s[1..], c)
  }

  /** Tokens read with `std::getline`: a delimiter at the very end starts no further token. */
  function Split(s: string, delimiter: char): (tokens: seq<string>)
    ensures s != "" ==> tokens != []
    ensures forall i | 0 <= i < |tokens| :: delimiter !in tokens[i]
  {
    if s == "" then []
    else
      var k := IndexOf(s, delimiter);
      [s[..k]] + if k < |s| then Split(s[k + 1..], delimiter) else []
  }

  lemma {:induction false} IndexOfFirst(a: string, c: char, b: string)
    requires c !in a
    ensures IndexOf(a + [c] + b, c) == |a|
    ensures IndexOf(a, c) == |a|
  {
    var s := a + [c] + b;
    assert s[|a|] == c;
    assert forall i | 0 <= i < |a| :: s[i] == a[i];
  }

  lemma {:induction false} SplitSingle(a: string, c: char)
    requires c !in a && a != ""
    ensures Split(a, c) == [a]
  {
    IndexOfFirst(a, c, "");
    assert a[..|a|] == a;
  }

  lemma {:induction false} SplitFirst(a: string, c: char, b: string)
    requires c !in a
    ensures Split(a + [c] + b, c) == [a] + Split(b, c)
  {
    var s := a + [c] + b;
    IndexOfFirst(a, c, b);
    assert s[..|a|] == a && s[|a| + 1..] == b;
  }

  /** White space of the C locale. */
  predicate Space(c: char) { c == ' ' || '\t' <= c <= '\r' }

  lemma {:induction false} Spaces(c: char)
    ensures Space(c) <==> c in " \t\n\U{0b}\U{0c}\r"
  {
  }

  function SkipSpaces(s: string): string {
    if s != "" && Space(s[0]) then SkipSpaces(s[1..]) else s
  }
}
