/** Route patterns (framework/router/http_router.cpp): how a pattern is cut into literals and
    parameters, and how a path is matched against it. The regular expression the router builds
    is modelled as a backtracking matcher on tokens, longest capture first. */
module RoutePattern {
  import opened Basics

  /** A parameter captures a non-empty run without '/', the last one anything on the line. */
  datatype Token = Lit(text: string) | Segment(name: string) | Tail(name: string)

  predicate LineEnd(c: char) { c == '\n' || c == '\r' }

  predicate Admits(t: Token, value: string) {
    match t
    case Lit(_) => false
    case Segment(_) => value != "" && '/' !in value
    case Tail(_) => '\n' !in value && '\r' !in value
  }

  // ---- Filling in and matching ---------------------------------------------------

  function Params(ts: seq<Token>): nat {
    if ts == [] then 0 else (if ts[0].Lit? then 0 else 1) + Params(ts[1..])
  }

  /** The pattern with its parameters replaced by the values. */
  function Fill(ts: seq<Token>, values: seq<string>): string
    requires |values| == Params(ts)
  {
    if ts == [] then ""
    else if ts[0].Lit? then ts[0].text + Fill(ts[1..], values)
    else values[0] + Fill(ts[1..], values[1..])
  }

  predicate AllAdmitted(ts: seq<Token>, values: seq<string>)
    requires |values| == Params(ts)
  {
    if ts == [] then true
    else if ts[0].Lit? then AllAdmitted(ts[1..], values)
    else Admits(ts[0], values[0]) && AllAdmitted(ts[1..], values[1..])
  }

  /** The values fit the path: each is admitted, and filled in they give the path. */
  predicate Fits(ts: seq<Token>, values: seq<string>, path: string) {
    |values| == Params(ts) && AllAdmitted(ts, values) && Fill(ts, values) == path
  }

  /** How far the expression of a parameter could reach. */
  function Reach(t: Token, s: string): (n: nat)
    requires !t.Lit?
    ensures n <= |s|
  {
    if s == "" || (if t.Segment? then s[0] == '/' else LineEnd(s[0])) then 0 else 1 + Reach(t, s[1..])
  }

  function Least(t: Token): nat { if t.Segment? then 1 else 0 }

  function Match(ts: seq<Token>, s: string): Option<seq<string>>
    decreases |ts|, |s| + 1
  {
    if ts == [] then if s == "" then Some([]) else None
    else if ts[0].Lit? then if ts[0].text <= s then Match(ts[1..], s[|ts[0].text|..]) else None
    else Try(ts, s, Reach(ts[0], s))
  }

  /** Captures of at most `k` characters, the longest first. */
  function Try(ts: seq<Token>, s: string, k: nat): Option<seq<string>>
    requires ts != [] && !ts[0].Lit? && k <= |s|
    decreases |ts|, k
  {
    if k < Least(ts[0]) then None
    else
      var rest := Match(ts[1..], s[k..]);
      if rest.Some? then Some([s[..k]] + rest.value)
      else if k == 0 then None
      else Try(ts, s, k - 1)
  }

  lemma {:induction false} ReachAdmits(t: Token, s: string, k: nat)
    requires !t.Lit? && k <= |s|
    ensures Admits(t, s[..k]) <==> Least(t) <= k <= Reach(t, s)
  {
    if k > 0 {
      assert s[..k] == [s[0]] + s[1..][..k - 1];
      if k > 1 || t.Tail? {
        ReachAdmits(t, s[1..], k - 1);
      }
    }
  }

  /** What is captured fits: putting the captures back rebuilds the path. */
  lemma {:induction false} MatchSound(ts: seq<Token>, s: string)
    requires Match(ts, s).Some?
    ensures Fits(ts, Match(ts, s).value, s)
    decreases |ts|, |s| + 1
  {
    if ts != [] {
      if ts[0].Lit? {
        MatchSound(ts[1..], s[|ts[0].text|..]);
        assert s == ts[0].text + s[|ts[0].text|..];
      } else {
        TrySound(ts, s, Reach(ts[0], s));
      }
    }
  }

  lemma {:induction false} TrySound(ts: seq<Token>, s: string, k: nat)
    requires ts != [] && !ts[0].Lit? && k <= Reach(ts[0], s) && Try(ts, s, k).Some?
    ensures Fits(ts, Try(ts, s, k).value, s)
    decreases |ts|, k
  {
    var rest := Match(ts[1..], s[k..]);
    if rest.Some? {
      MatchSound(ts[1..], s[k..]);
      ReachAdmits(ts[0], s, k);
      var values := [s[..k]] + rest.value;
      assert values[0] == s[..k] && values[1..] == rest.value;
      assert s == s[..k] + s[k..];
    } else {
      TrySound(ts, s, k - 1);
    }
  }

  /** `c` is preferred to `d`: equal, or longer at the first parameter where they differ. */
  predicate Preferred(c: seq<string>, d: seq<string>) {
    c == d || (c != [] && d != [] && (|c[0]| > |d[0]| || (c[0] == d[0] && Preferred(c[1..], d[1..]))))
  }

  lemma {:induction false} FitsPeel(ts: seq<Token>, values: seq<string>, s: string)
    requires ts != [] && Fits(ts, values, s)
    ensures ts[0].Lit? ==> ts[0].text <= s && Fits(ts[1..], values, s[|ts[0].text|..])
    ensures !ts[0].Lit? ==>
              values[0] <= s && Admits(ts[0], values[0]) && Fits(ts[1..], values[1..], s[|values[0]|..])
  {
  }

  /** If anything fits, the matcher succeeds, and with the preferred captures. */
  lemma {:induction false} MatchComplete(ts: seq<Token>, values: seq<string>, s: string)
    requires Fits(ts, values, s)
    ensures Match(ts, s).Some? && Preferred(Match(ts, s).value, values)
    decreases |ts|, |s| + 1
  {
    if ts != [] {
      FitsPeel(ts, values, s);
      if ts[0].Lit? {
        MatchComplete(ts[1..], values, s[|ts[0].text|..]);
      } else {
        assert s[..|values[0]|] == values[0];
        ReachAdmits(ts[0], s, |values[0]|);
        TryComplete(ts, values, s, Reach(ts[0], s));
      }
    }
  }

  lemma {:induction false} TryComplete(ts: seq<Token>, values: seq<string>, s: string, k: nat)
    requires ts != [] && !ts[0].Lit? && Fits(ts, values, s) && |values[0]| <= k <= |s|
    ensures Try(ts, s, k).Some? && Preferred(Try(ts, s, k).value, values)
    decreases |ts|, k
  {
    FitsPeel(ts, values, s);
    var rest := Match(ts[1..], s[k..]);
    if k == |values[0]| {
      MatchComplete(ts[1..], values[1..], s[k..]);
      assert values == [values[0]] + values[1..] && s[..k] == values[0];
      assert ([s[..k]] + rest.value)[1..] == rest.value;
    } else if rest.None? {
      TryComplete(ts, values, s, k - 1);
    }
  }

  /** A path matches exactly if some admitted values fill the pattern up to it. */
  lemma {:induction false} MatchIff(ts: seq<Token>, s: string)
    ensures Match(ts, s).Some? <==> exists values :: Fits(ts, values, s)
  {
    if Match(ts, s).Some? {
      MatchSound(ts, s);
    }
    if values :| Fits(ts, values, s) {
      MatchComplete(ts, values, s);
    }
  }

  // ---- When captures are unique ------------------------------------------------------

  /** Tokens as a pattern yields them: no two literals in a row, and the tail is the last
      parameter. */
  predicate Shaped(ts: seq<Token>) {
    ts == [] ||
    (Shaped(ts[1..]) &&
     match ts[0]
     case Lit(_) => |ts| == 1 || !ts[1].Lit?
     case Segment(_) => Params(ts[1..]) > 0
     case Tail(_) => Params(ts[1..]) == 0)
  }

  /** Every parameter but the last is followed by a literal with a '/' in it. */
  predicate Separated(ts: seq<Token>) {
    ts == [] ||
    (Separated(ts[1..]) && (ts[0].Segment? ==> |ts| > 1 && ts[1].Lit? && '/' in ts[1].text))
  }

  /** Matching gives back every list of admitted values. */
  ghost predicate Recovers(ts: seq<Token>) {
    forall values | |values| == Params(ts) && AllAdmitted(ts, values) :: Match(ts, Fill(ts, values)) == Some(values)
  }

  /** Two runs without '/' before the same literal, and the same path, are the same run. */
  lemma {:induction false} SameRun(a: string, b: string, literal: string, s: string)
    requires '/' !in a && '/' !in b && '/' in literal
    requires a + literal <= s && b + literal <= s
    ensures a == b
  {
    var k := FirstSlash(literal);
    FirstSlashAfter(a, literal, s, k);
    FirstSlashAfter(b, literal, s, k);
    assert a == s[..|a|] && b == s[..|b|];
  }

  lemma {:induction false} FirstSlashAfter(a: string, literal: string, s: string, k: nat)
    requires '/' !in a && a + literal <= s && k < |literal| && literal[k] == '/' && '/' !in literal[..k]
    ensures |a| + k < |s| && s[|a| + k] == '/'
    ensures forall i | 0 <= i < |a| + k :: s[i] != '/'
  {
    var t := a + literal;
    assert t[|a| + k] == '/';
    forall i | 0 <= i < |a| + k ensures s[i] != '/' {
      assert s[i] == t[i];
      if i >= |a| {
        assert literal[..k][i - |a|] == s[i];
      } else {
        assert a[i] == s[i];
      }
    }
  }

  lemma {:induction false} FirstSlash(s: string) returns (k: nat)
    requires '/' in s
    ensures k < |s| && s[k] == '/' && '/' !in s[..k]
  {
    k := 0;
    while s[k] != '/'
      invariant k < |s| && '/' !in s[..k] && '/' in s[k..]
      decreases |s| - k
    {
      assert s[k..] == [s[k]] + s[k + 1..] && s[..k + 1] == s[..k] + [s[k]];
      k := k + 1;
    }
  }

  lemma {:induction false} NoParamsFill(ts: seq<Token>, a: string, b: string)
    requires Params(ts) == 0 && Fits(ts, [], a) && Fits(ts, [], b)
    ensures a == b
  {
  }

  /** With every parameter separated from the next, at most one list of values fits a path. */
  lemma {:induction false} FitsOnce(ts: seq<Token>, c: seq<string>, d: seq<string>, s: string)
    requires Shaped(ts) && Separated(ts) && Fits(ts, c, s) && Fits(ts, d, s)
    ensures c == d
  {
    if ts != [] {
      FitsPeel(ts, c, s);
      FitsPeel(ts, d, s);
      match ts[0]
      case Lit(text) => FitsOnce(ts[1..], c, d, s[|text|..]);
      case Segment(_) =>
        FitsPeel(ts[1..], c[1..], s[|c[0]|..]);
        FitsPeel(ts[1..], d[1..], s[|d[0]|..]);
        Prefixed(c[0], ts[1].text, s);
        Prefixed(d[0], ts[1].text, s);
        SameRun(c[0], d[0], ts[1].text, s);
        FitsOnce(ts[1..], c[1..], d[1..], s[|c[0]|..]);
        assert c == [c[0]] + c[1..] && d == [d[0]] + d[1..];
      case Tail(_) =>
        NoParamsFill(ts[1..], s[|c[0]|..], s[|d[0]|..]);
        assert c == [c[0]] && d == [d[0]];
    }
  }

  lemma {:induction false} Prefixed(a: string, b: string, s: string)
    requires a <= s && b <= s[|a|..]
    ensures a + b <= s
  {
  }

  /** An example of two lists of values that fill the pattern up to the same path. */
  lemma {:induction false} FitsTwice(ts: seq<Token>) returns (c: seq<string>, d: seq<string>)
    requires Shaped(ts) && !Separated(ts) && OneLine(ts)
    ensures |c| == Params(ts) && |d| == Params(ts) && AllAdmitted(ts, c) && AllAdmitted(ts, d)
    ensures c != d && Fill(ts, c) == Fill(ts, d)
  {
    if !Separated(ts[1..]) {
      c, d := FitsTwice(ts[1..]);
      if !ts[0].Lit? {
        c, d := ["x"] + c, ["x"] + d;
        assert c[1..] != d[1..];
      }
    } else {
      c, d := Overlapping(ts);
    }
  }

  /** No literal ends a line. */
  predicate OneLine(ts: seq<Token>) {
    forall i | 0 <= i < |ts| && ts[i].Lit? :: '\n' !in ts[i].text && '\r' !in ts[i].text
  }

  function Simple(n: nat): (r: seq<string>)
    ensures |r| == n
  {
    if n == 0 then [] else ["x"] + Simple(n - 1)
  }

  lemma {:induction false} SimpleAdmitted(ts: seq<Token>)
    ensures AllAdmitted(ts, Simple(Params(ts)))
  {
    if ts != [] {
      SimpleAdmitted(ts[1..]);
    }
  }

  predicate Plain(s: string) { s != "" && '/' !in s && '\n' !in s && '\r' !in s }

  /** A parameter followed by another one with no '/' between them can be split in two ways. */
  lemma {:induction false} Overlapping(ts: seq<Token>) returns (c: seq<string>, d: seq<string>)
    requires Shaped(ts) && OneLine(ts) && ts != [] && ts[0].Segment?
    requires !(|ts| > 1 && ts[1].Lit? && '/' in ts[1].text)
    ensures |c| == Params(ts) && |d| == Params(ts) && AllAdmitted(ts, c) && AllAdmitted(ts, d)
    ensures c != d && Fill(ts, c) == Fill(ts, d)
  {
    if ts[1].Lit? {
      var l := ts[1].text;
      var rest := Simple(Params(ts[3..]));
      SimpleAdmitted(ts[3..]);
      PeelTwo(ts, "x", "x" + l + "x", rest);
      PeelTwo(ts, "x" + l + "x", "x", rest);
      c, d := ["x", "x" + l + "x"] + rest, ["x" + l + "x", "x"] + rest;
      SplitsAlike(l, Fill(ts[3..], rest));
      assert c[0] != d[0];
    } else {
      var rest := Simple(Params(ts[2..]));
      SimpleAdmitted(ts[2..]);
      AdjacentTwo(ts, "x", "xx", rest);
      AdjacentTwo(ts, "xx", "x", rest);
      c, d := ["x", "xx"] + rest, ["xx", "x"] + rest;
      assert c[0] != d[0];
    }
  }

  lemma {:induction false} PeelTwo(ts: seq<Token>, a: string, b: string, rest: seq<string>)
    requires |ts| > 2 && ts[0].Segment? && ts[1].Lit? && !ts[2].Lit? && Plain(a) && Plain(b)
    requires |rest| == Params(ts[3..]) && AllAdmitted(ts[3..], rest)
    ensures var v := [a, b] + rest;
      && |v| == Params(ts) && AllAdmitted(ts, v)
      && Fill(ts, v) == a + (ts[1].text + (b + Fill(ts[3..], rest)))
  {
    var v := [a, b] + rest;
    assert v[1..] == [b] + rest && v[1..][1..] == rest;
    assert ts[1..][1..] == ts[2..] && ts[2..][1..] == ts[3..];
    assert Params(ts[2..]) == 1 + Params(ts[3..]) && Params(ts[1..]) == Params(ts[2..]);
    assert Fill(ts[2..], [b] + rest) == b + Fill(ts[3..], rest);
    assert Fill(ts[1..], [b] + rest) == ts[1].text + Fill(ts[2..], [b] + rest);
    assert AllAdmitted(ts[2..], [b] + rest);
  }

  lemma {:induction false} AdjacentTwo(ts: seq<Token>, a: string, b: string, rest: seq<string>)
    requires |ts| > 1 && ts[0].Segment? && !ts[1].Lit? && Plain(a) && Plain(b)
    requires |rest| == Params(ts[2..]) && AllAdmitted(ts[2..], rest)
    ensures var v := [a, b] + rest;
      && |v| == Params(ts) && AllAdmitted(ts, v)
      && Fill(ts, v) == a + (b + Fill(ts[2..], rest))
  {
    var v := [a, b] + rest;
    assert v[1..] == [b] + rest && v[1..][1..] == rest && ts[1..][1..] == ts[2..];
  }

  lemma {:induction false} SplitsAlike(l: string, more: string)
    ensures "x" + (l + (("x" + l + "x") + more)) == ("x" + l + "x") + (l + ("x" + more))
  {
  }

  /** The captures of a pattern are always what was filled in if and only if every parameter but
      the last is followed by a literal with a '/' in it. */
  lemma {:induction false} RecoversIffSeparated(ts: seq<Token>)
    requires Shaped(ts) && OneLine(ts)
    ensures Recovers(ts) <==> Separated(ts)
  {
    if Separated(ts) {
      forall values | |values| == Params(ts) && AllAdmitted(ts, values)
        ensures Match(ts, Fill(ts, values)) == Some(values)
      {
        MatchComplete(ts, values, Fill(ts, values));
        MatchSound(ts, Fill(ts, values));
        FitsOnce(ts, values, Match(ts, Fill(ts, values)).value, Fill(ts, values));
      }
    } else {
      var c, d := FitsTwice(ts);
      assert Some(c) != Some(d);
    }
  }
}
