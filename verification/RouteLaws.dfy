/** What route patterns mean to those who write them (framework/router/http_router.cpp): how
    parameters are written, what they capture, which pattern goes first, and who answers. */
module RouteLaws {
  import opened Basics
  import opened RoutePattern
  import opened RouteParsing
  import opened Router

  // ---- Parameters as written -------------------------------------------------------

  predicate Letter(c: char) { 'a' <= c <= 'z' || 'A' <= c <= 'Z' }

  predicate WordChar(c: char) { Letter(c) || '0' <= c <= '9' || c == '_' }

  /** A name starts with a letter or an underscore, and goes on with those and digits. */
  predicate IsName(s: string) { s != "" && (Letter(s[0]) || s[0] == '_') && forall i | 0 <= i < |s| :: WordChar(s[i]) }

  lemma {:induction false} NameRunOf(name: string, rest: string)
    requires (forall i | 0 <= i < |name| :: WordChar(name[i])) && (rest == "" || !WordChar(rest[0]))
    ensures NameRun(name + rest) == |name|
  {
    if name == "" {
      assert name + rest == rest;
    } else {
      assert (name + rest)[0] == name[0] && (name + rest)[1..] == name[1..] + rest;
      NameRunOf(name[1..], rest);
    }
  }

  /** `:name` is a parameter, up to the end of the name. */
  lemma {:induction false} ColonParam(name: string, rest: string)
    requires IsName(name) && (rest == "" || !WordChar(rest[0]))
    ensures ParamHere([':'] + name + rest) == Some(Param(name, [':'] + name))
  {
    var s := [':'] + name + rest;
    NameRunOf(name, rest);
    assert s[1..] == name + rest;
    assert s[1..|name| + 1] == name && s[..|name| + 1] == [':'] + name;
  }

  /** `{name}` is a parameter. */
  lemma {:induction false} BraceParam(name: string, rest: string)
    requires IsName(name)
    ensures ParamHere(['{'] + name + ['}'] + rest) == Some(Param(name, ['{'] + name + ['}']))
  {
    var s := ['{'] + name + ['}'] + rest;
    NameRunOf(name, ['}'] + rest);
    assert s[1..] == name + (['}'] + rest);
    assert s[1..|name| + 1] == name && s[|name| + 1] == '}' && s[..|name| + 2] == ['{'] + name + ['}'];
  }

  /** Nothing else is: not without a name, and not if the brace stays open. */
  lemma {:induction false} NoParam(s: string)
    ensures s == "" || s[0] !in ":{" || s[1..] == "" || !(Letter(s[1]) || s[1] == '_') ==> ParamHere(s).None?
    ensures s != "" && s[0] == '{' && '}' !in s ==> ParamHere(s).None?
  {
  }

  // ---- Patterns as written ----------------------------------------------------------

  predicate PlainText(s: string) { s != "" && ':' !in s && '{' !in s }

  /** A parameter written in braces, or with a colon and then followed by nothing that could belong
      to its name. */
  predicate Spelled(p: Piece, rest: string) {
    && p.Param? && IsName(p.name)
    && (p.source == ['{'] + p.name + ['}'] || (p.source == [':'] + p.name && (rest == "" || !WordChar(rest[0]))))
  }

  predicate Writable(ps: seq<Piece>) {
    ps == [] ||
    (Writable(ps[1..]) &&
     match ps[0]
     case Text(t) => PlainText(t) && (|ps| == 1 || ps[1].Param?)
     case Param(_, _) => Spelled(ps[0], Source(ps[1..])))
  }

  lemma {:induction false} SpelledHere(p: Piece, rest: string)
    requires Spelled(p, rest)
    ensures ParamHere(p.source + rest) == Some(p)
  {
    if p.source == ['{'] + p.name + ['}'] {
      BraceParam(p.name, rest);
    } else {
      ColonParam(p.name, rest);
    }
  }

  lemma {:induction false} ParamFirst(p: Piece, rest: string)
    requires Spelled(p, rest)
    ensures FirstCut(p.source + rest) == Cut("", Some(p), rest)
    ensures Pieces(p.source + rest) == [p] + Pieces(rest)
  {
    SpelledHere(p, rest);
    assert (p.source + rest)[|p.source|..] == rest;
  }

  lemma {:induction false} TextCut(text: string, rest: string)
    requires ':' !in text && '{' !in text
    ensures
      var c := FirstCut(rest);
      FirstCut(text + rest) == Cut(text + c.literal, c.param, c.rest)
  {
    if text == "" {
      assert text + rest == rest;
    } else {
      NoParam(text + rest);
      assert (text + rest)[0] == text[0] && (text + rest)[1..] == text[1..] + rest;
      TextCut(text[1..], rest);
    }
  }

  lemma {:induction false} TextFirst(text: string, rest: string)
    requires PlainText(text) && FirstCut(rest).literal == ""
    ensures Pieces(text + rest) == [Text(text)] + Pieces(rest)
  {
    TextCut(text, rest);
    assert text + "" == text;
  }

  /** Round trip: a pattern written from texts and parameters is read as exactly those. */
  lemma {:induction false} PatternRoundTrip(ps: seq<Piece>)
    requires Writable(ps)
    ensures Pieces(Source(ps)) == ps
  {
    if ps != [] {
      PatternRoundTrip(ps[1..]);
      var rest := Source(ps[1..]);
      if ps[0].Param? {
        ParamFirst(ps[0], rest);
      } else {
        if |ps| > 1 {
          ParamFirst(ps[1], Source(ps[1..][1..]));
        }
        TextFirst(ps[0].source, rest);
      }
    }
  }

  /** What is matched literally, and what is a segment or the tail, is as written. */
  lemma {:induction false} TokenAt(ps: seq<Piece>, i: nat)
    requires i < |ps|
    ensures |Tokens(ps)| == |ps|
    ensures Tokens(ps)[i] ==
            if ps[i].Text? then Lit(ps[i].source)
            else if ParamCount(ps[i + 1..]) == 0 then Tail(ps[i].name)
            else Segment(ps[i].name)
  {
    TokenParams(ps);
    if i > 0 {
      TokenAt(ps[1..], i - 1);
      assert ps[1..][i..] == ps[i + 1..];
    }
  }

  function ParamNames(ps: seq<Piece>): seq<string> {
    if ps == [] then [] else (if ps[0].Param? then [ps[0].name] else []) + ParamNames(ps[1..])
  }

  lemma {:induction false} NamesAsWritten(ps: seq<Piece>)
    ensures Names(Tokens(ps)) == ParamNames(ps)
  {
    if ps != [] {
      NamesAsWritten(ps[1..]);
      assert Tokens(ps)[1..] == Tokens(ps[1..]);
    }
  }

  // ---- What parameters capture -----------------------------------------------------------

  /** A tail takes all that is left of the line, be it empty or more than one segment. */
  lemma {:induction false} TailTakesAll(name: string, s: string)
    ensures Match([Tail(name)], s) == if '\n' !in s && '\r' !in s then Some([s]) else None
  {
    var t := Tail(name);
    ReachAdmits(t, s, |s|);
    assert s[..|s|] == s && s[|s|..] == "" && [t][1..] == [];
    if Admits(t, s) {
      WholeCapture(t, s);
    } else {
      LoneCapture(t, s, Reach(t, s));
    }
  }

  /** A segment takes a non-empty run without '/'. */
  lemma {:induction false} SegmentTakesRun(name: string, s: string)
    ensures Match([Segment(name)], s) == if s != "" && '/' !in s then Some([s]) else None
  {
    var t := Segment(name);
    ReachAdmits(t, s, |s|);
    assert s[..|s|] == s && s[|s|..] == "" && [t][1..] == [];
    if Admits(t, s) {
      WholeCapture(t, s);
    } else {
      LoneCapture(t, s, Reach(t, s));
    }
  }

  lemma {:induction false} WholeCapture(t: Token, s: string)
    requires !t.Lit? && Reach(t, s) == |s| >= Least(t)
    ensures Match([t], s) == Some([s])
  {
    assert [t][1..] == [] && s[|s|..] == "" && s[..|s|] == s;
    assert Match([t][1..], s[|s|..]) == Some([]);
    assert [s] + [] == [s];
  }

  /** A parameter alone captures the whole text or nothing. */
  lemma {:induction false} LoneCapture(t: Token, s: string, k: nat)
    requires !t.Lit? && (k < |s| || (k == |s| && Least(t) > k))
    ensures Try([t], s, k).None?
    decreases k
  {
    assert [t][1..] == [];
    if k < |s| {
      assert s[k..] != "";
      if k > 0 {
        LoneCapture(t, s, k - 1);
      }
    }
  }

  // ---- Which route goes first ---------------------------------------------------------------

  lemma {:induction false} SegmentsAppend(s: string, t: string, n: nat)
    requires n <= |s| && s <= t
    ensures Segments(t, n) == Segments(s, n)
  {
    if n > 0 {
      SegmentsAppend(s, t, n - 1);
    }
  }

  /** A slash adds no segment, a word after a slash, or at the start, adds one. */
  lemma {:induction false} SegmentsOfWord(s: string, word: string)
    requires word != "" && '/' !in word && (s == "" || s[|s| - 1] == '/')
    ensures Segments(s + word, |s + word|) == Segments(s, |s|) + 1
    ensures Segments(s + word + "/", |s + word + "/"|) == Segments(s + word, |s + word|)
  {
    var t := s + word;
    RunCounts(t, |s|, |t|);
    SegmentsAppend(s, t, |s|);
    SegmentsAppend(t, t + "/", |t|);
  }

  /** A route without parameters goes before one that has a parameter in place of its last segment. */
  lemma {:induction false} LiteralGoesFirst(prefix: string, word: string, other: string, a: Route, b: Route)
    requires WellParsed(a) && WellParsed(b) && IsName(other)
    requires PlainText(prefix) && prefix[|prefix| - 1] == '/' && PlainText(word) && '/' !in word
    requires a.path == prefix + word && b.path == prefix + (['{'] + other + ['}'])
    ensures MoreSpecific(a, b) && !MoreSpecific(b, a)
  {
    var p := Param(other, ['{'] + other + ['}']);
    OneText(prefix + word);
    TextAndParam(prefix, p);
    SegmentsOfWord(prefix, word);
  }

  lemma {:induction false} OneText(text: string)
    requires PlainText(text)
    ensures Pieces(text) == [Text(text)] && LiteralSegments([Text(text)]) == Segments(text, |text|)
    ensures Params(PatternTokens(text)) == 0
  {
    assert [Text(text)][1..] == [];
    assert Source([Text(text)]) == text;
    PatternRoundTrip([Text(text)]);
    TokenParams([Text(text)]);
  }

  lemma {:induction false} TextAndParam(text: string, p: Piece)
    requires PlainText(text) && Spelled(p, "")
    ensures Pieces(text + p.source) == [Text(text), p]
    ensures LiteralSegments(Pieces(text + p.source)) == Segments(text, |text|)
    ensures Params(PatternTokens(text + p.source)) == 1
  {
    var ps := [Text(text), p];
    assert ps[1..] == [p] && [p][1..] == [];
    assert Source([p]) == p.source && Source(ps) == text + p.source;
    PatternRoundTrip(ps);
    TokenParams(ps);
    assert LiteralSegments([p]) == 0 && ParamCount([p]) == 1;
  }

  /** Of two routes with as many literal segments the one with fewer parameters goes first. */
  lemma {:induction false} FewerParametersGoFirst(a: Route, b: Route)
    requires a.literals == b.literals && a.dynamics < b.dynamics
    ensures MoreSpecific(a, b) && !MoreSpecific(b, a)
  {
  }

  // ---- Who answers ------------------------------------------------------------------------------

  /** A registered handler answers its own kind of request and verb; HEAD is answered by the GET
      handler, if there is no HEAD handler, unless it is to be streamed. */
  lemma {:induction false} HandlerStored(r: Route, kind: Kind, m: Verb, h: Handler, other: Kind, n: Verb)
    ensures
      var after := WithHandler(r, kind, m, h);
      && TableHandler(after, kind, m) == Some(h)
      && (other != kind ==> TableHandler(after, other, n) == TableHandler(r, other, n))
      && (n != m && !(n == Head && m == Get) ==> TableHandler(after, kind, n) == TableHandler(r, kind, n))
      && (m == Get && TableHandler(r, kind, Head).None? ==>
            TableHandler(after, kind, Head) == if kind == Stream then None else Some(h))
      && after.path == r.path && after.tokens == r.tokens
  {
  }

  /** Nobody answers on a new route. */
  lemma {:induction false} NewRouteIsSilent(path: string, kind: Kind, m: Verb)
    ensures TableHandler(NewRoute(path), kind, m).None? && NewRoute(path).path == path
  {
  }

  /** Only the names of the parameters are bound. */
  lemma {:induction false} BindOnly(names: seq<string>, values: seq<string>, name: string)
    requires |names| == |values|
    ensures name in Bind(names, values) <==> name in names
  {
    if names != [] {
      var n := |names| - 1;
      BindOnly(names[..n], values[..n], name);
      assert names == names[..n] + [names[n]];
    }
  }

  // ---- The base path ---------------------------------------------------------------------------

  predicate AllSlashes(s: string) { forall i | 0 <= i < |s| :: s[i] == '/' }

  /** The base is the path without the slashes at its end. */
  lemma {:induction false} BaseStrips(path: string) returns (slashes: string)
    ensures path == Base(path) + slashes && AllSlashes(slashes)
    ensures |Base(path)| > 1 ==> Base(path)[|Base(path)| - 1] != '/'
    ensures path != "" ==> Base(path) != ""
  {
    if |path| > 1 && path[|path| - 1] == '/' {
      slashes := BaseStrips(path[..|path| - 1]);
      assert path == path[..|path| - 1] + "/";
      slashes := slashes + "/";
    } else {
      slashes := "";
    }
  }

  /** Under a base, patterns that start with a slash are put behind it, "/" being the base itself;
      others are refused. Without one every pattern stands for itself. */
  lemma {:induction false} UnderBase(base: string, rest: string)
    requires base != ""
    ensures Registered(base, "/") == Some(base)
    ensures rest != "" ==> Registered(base, "/" + rest) == Some(base + "/" + rest)
    ensures rest == "" || rest[0] != '/' ==> Registered(base, rest).None?
    ensures Registered("", rest) == Some(rest)
  {
    assert ("/" + rest)[0] == '/';
    assert base + ("/" + rest) == base + "/" + rest;
    assert base + "" == base;
    if rest != "" {
      assert ("/" + rest)[1..] == rest;
    }
  }
}
