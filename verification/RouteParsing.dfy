/** Cutting a route pattern into tokens and counting its segments (`parse_path_pattern` of
    framework/router/http_router.cpp). */
module RouteParsing {
  import opened Basics
  import opened RoutePattern

  // ---- Pieces: literal text and parameters -----------------------------------------

  predicate NameStart(c: char) { 'a' <= c <= 'z' || 'A' <= c <= 'Z' || c == '_' }

  predicate NameChar(c: char) { NameStart(c) || '0' <= c <= '9' }

  function NameRun(s: string): (n: nat)
    ensures n <= |s|
  {
    if s == "" || !NameChar(s[0]) then 0 else 1 + NameRun(s[1..])
  }

  /** The longest name at the start of the text; 0 if there is none. */
  function NameLength(s: string): (n: nat)
    ensures n <= |s|
  {
    if s != "" && NameStart(s[0]) then NameRun(s) else 0
  }

  /** A parameter as written, `:name` or `{name}`. */
  datatype Piece = Text(source: string) | Param(name: string, source: string)

  function ParamHere(s: string): (r: Option<Piece>)
    ensures r.Some? ==> r.value.Param? && r.value.source != "" && r.value.source <= s
    ensures r.Some? ==> r.value.source == ":" + r.value.name || r.value.source == "{" + r.value.name + "}"
  {
    if s == "" then None
    else
      var n := NameLength(s[1..]);
      if n == 0 then None
      else
        assert s[..n + 1] == [s[0]] + s[1..n + 1];
        if s[0] == ':' then Some(Param(s[1..n + 1], s[..n + 1]))
        else if s[0] == '{' && n + 1 < |s| && s[n + 1] == '}' then
          assert s[..n + 2] == [s[0]] + s[1..n + 1] + [s[n + 1]];
          Some(Param(s[1..n + 1], s[..n + 2]))
        else None
  }

  /** The text up to the first parameter, that parameter, and what follows it. */
  datatype Cut = Cut(literal: string, param: Option<Piece>, rest: string)

  function FirstCut(s: string): (c: Cut)
    ensures c.param.Some? ==> c.param.value.Param? && |c.rest| < |s|
  {
    if s == "" then Cut("", None, "")
    else
      var here := ParamHere(s);
      if here.Some? then Cut("", here, s[|here.value.source|..])
      else
        var c := FirstCut(s[1..]);
        Cut([s[0]] + c.literal, c.param, c.rest)
  }

  /** No parameter starts in the first `n` characters. */
  predicate NoParamIn(s: string, n: nat)
    requires n <= |s|
  {
    forall i | 0 <= i < n :: ParamHere(s[i..]).None?
  }

  function CutSource(c: Cut): string { c.literal + (if c.param.Some? then c.param.value.source else "") + c.rest }

  lemma {:induction false} NoParamFirst(s: string, n: nat)
    requires s != "" && ParamHere(s).None? && n < |s| && NoParamIn(s[1..], n)
    ensures NoParamIn(s, n + 1)
  {
    forall i | 0 <= i < n + 1 ensures ParamHere(s[i..]).None? {
      if i == 0 {
        assert s[0..] == s;
      } else {
        assert s[i..] == s[1..][i - 1..];
      }
    }
  }

  lemma {:induction false} CutFirst(c: Cut, head: char, s: string)
    requires s != "" && s[0] == head && s[1..] == CutSource(c)
    ensures s == CutSource(Cut([head] + c.literal, c.param, c.rest))
  {
    var source := if c.param.Some? then c.param.value.source else "";
    Associate([head], c.literal, source + c.rest);
    Associate(c.literal, source, c.rest);
    Associate([head] + c.literal, source, c.rest);
    assert s == [head] + s[1..];
  }

  /** The cut loses nothing, and no parameter starts inside the literal. */
  lemma {:induction false} CutIsFirst(s: string)
    ensures
      var c := FirstCut(s);
      s == CutSource(c) && (c.param.None? ==> c.rest == "") && |c.literal| <= |s| && NoParamIn(s, |c.literal|)
  {
    if s != "" && ParamHere(s).None? {
      var c := FirstCut(s[1..]);
      CutIsFirst(s[1..]);
      CutFirst(c, s[0], s);
      NoParamFirst(s, |c.literal|);
    }
  }

  function TextPiece(s: string): seq<Piece> { if s == "" then [] else [Text(s)] }

  function Pieces(s: string): seq<Piece>
    decreases |s|
  {
    var c := FirstCut(s);
    TextPiece(c.literal) + if c.param.None? then [] else [c.param.value] + Pieces(c.rest)
  }

  function Source(ps: seq<Piece>): string { if ps == [] then "" else ps[0].source + Source(ps[1..]) }

  lemma {:induction false} SourceConcat(a: seq<Piece>, b: seq<Piece>)
    ensures Source(a + b) == Source(a) + Source(b)
  {
    if a == [] {
      assert a + b == b;
    } else {
      assert (a + b)[1..] == a[1..] + b;
      SourceConcat(a[1..], b);
    }
  }

  lemma {:induction false} TextSource(s: string)
    ensures Source(TextPiece(s)) == s
  {
  }

  lemma {:induction false} OneSource(p: Piece)
    ensures Source([p]) == p.source
  {
    assert Source([p][1..]) == "";
  }

  /** Nothing of the pattern is lost or invented. */
  lemma {:induction false} PiecesCover(s: string)
    ensures Source(Pieces(s)) == s
    decreases |s|
  {
    var c := FirstCut(s);
    CutIsFirst(s);
    TextSource(c.literal);
    if c.param.Some? {
      PiecesCover(c.rest);
      OneSource(c.param.value);
      SourceConcat([c.param.value], Pieces(c.rest));
      SourceConcat(TextPiece(c.literal), [c.param.value] + Pieces(c.rest));
      Associate(c.literal, c.param.value.source, c.rest);
    } else {
      assert TextPiece(c.literal) + [] == TextPiece(c.literal);
    }
  }

  // ---- Tokens --------------------------------------------------------------------

  function ParamCount(ps: seq<Piece>): nat {
    if ps == [] then 0 else (if ps[0].Param? then 1 else 0) + ParamCount(ps[1..])
  }

  /** The last parameter becomes a tail, all others segments. */
  function Tokens(ps: seq<Piece>): seq<Token> {
    if ps == [] then []
    else
      [match ps[0]
       case Text(t) => Lit(t)
       case Param(name, _) => if ParamCount(ps[1..]) == 0 then Tail(name) else Segment(name)]
      + Tokens(ps[1..])
  }

  function PatternTokens(pattern: string): seq<Token> { Tokens(Pieces(pattern)) }

  lemma {:induction false} TokenParams(ps: seq<Piece>)
    ensures Params(Tokens(ps)) == ParamCount(ps) && |Tokens(ps)| == |ps|
    ensures ps != [] ==> Tokens(ps)[0].Lit? == ps[0].Text?
  {
    if ps != [] {
      TokenParams(ps[1..]);
      assert Tokens(ps)[1..] == Tokens(ps[1..]);
    }
  }

  predicate Alternating(ps: seq<Piece>) {
    ps == [] || (Alternating(ps[1..]) && (ps[0].Text? ==> |ps| == 1 || ps[1].Param?))
  }

  lemma {:induction false} PieceThenParam(text: string, p: Piece, rest: seq<Piece>)
    requires p.Param? && Alternating(rest)
    ensures Alternating(TextPiece(text) + ([p] + rest))
  {
    var ps := [p] + rest;
    assert ps[1..] == rest;
    if text == "" {
      assert TextPiece(text) + ps == ps;
    } else {
      assert (TextPiece(text) + ps)[1..] == ps;
    }
  }

  lemma {:induction false} PiecesAlternate(s: string)
    ensures Alternating(Pieces(s))
    decreases |s|
  {
    var c := FirstCut(s);
    if c.param.Some? {
      PiecesAlternate(c.rest);
      PieceThenParam(c.literal, c.param.value, Pieces(c.rest));
    } else {
      LoneText(c.literal);
      assert TextPiece(c.literal) + [] == TextPiece(c.literal);
    }
  }

  lemma {:induction false} LoneText(s: string)
    ensures Alternating(TextPiece(s))
  {
    assert s != "" ==> TextPiece(s)[1..] == [];
  }

  lemma {:induction false} TokensShaped(ps: seq<Piece>)
    requires Alternating(ps)
    ensures Shaped(Tokens(ps))
  {
    if ps != [] {
      TokensShaped(ps[1..]);
      TokenParams(ps[1..]);
      assert Tokens(ps)[1..] == Tokens(ps[1..]);
    }
  }

  /** The tokens of any pattern have the shape that matching relies on. */
  lemma {:induction false} PatternShaped(pattern: string)
    ensures Shaped(PatternTokens(pattern))
  {
    PiecesAlternate(pattern);
    TokensShaped(Pieces(pattern));
  }

  // ---- Counting segments ------------------------------------------------------------

  /** Positions in a literal where a run without '/' starts. */
  function Segments(s: string, upTo: nat): nat
    requires upTo <= |s|
  {
    if upTo == 0 then 0
    else Segments(s, upTo - 1) + if s[upTo - 1] != '/' && (upTo == 1 || s[upTo - 2] == '/') then 1 else 0
  }

  function LiteralSegments(ps: seq<Piece>): nat {
    if ps == [] then 0
    else (if ps[0].Text? then Segments(ps[0].source, |ps[0].source|) else 0) + LiteralSegments(ps[1..])
  }

  method FindSlash(s: string, start: nat) returns (k: nat)
    requires start <= |s|
    ensures start <= k <= |s| && (k < |s| ==> s[k] == '/')
    ensures forall i | start <= i < k :: s[i] != '/'
  {
    k := start;
    while k < |s| && s[k] != '/'
      invariant start <= k <= |s|
      invariant forall i | start <= i < k :: s[i] != '/'
    {
      k := k + 1;
    }
  }

  /** A run without '/' after a '/' or the start counts once. */
  lemma {:induction false} RunCounts(s: string, start: nat, k: nat)
    requires start <= k <= |s| && (start == 0 || s[start - 1] == '/')
    requires forall i | start <= i < k :: s[i] != '/'
    ensures Segments(s, k) == Segments(s, start) + if k > start then 1 else 0
  {
    if k > start {
      RunCounts(s, start, k - 1);
    }
  }

  method CountSegments(s: string) returns (n: nat)
    ensures n == Segments(s, |s|)
  {
    n := 0;
    var start := 0;
    var found := FindSlash(s, 0);
    while found < |s|
      invariant start <= found <= |s| && (start == 0 || s[start - 1] == '/')
      invariant found < |s| ==> s[found] == '/'
      invariant forall i | start <= i < found :: s[i] != '/'
      invariant n == Segments(s, start)
      decreases |s| - found
    {
      RunCounts(s, start, found);
      if found > start {
        n := n + 1;
      }
      start := found + 1;
      found := FindSlash(s, start);
    }
    RunCounts(s, start, |s|);
    if |s| > start {
      n := n + 1;
    }
  }

  // ---- The parsing loop ---------------------------------------------------------------

  method CountParams(pattern: string) returns (n: nat)
    ensures n == ParamCount(Pieces(pattern))
  {
    n := 0;
    var cut := FirstCut(pattern);
    PiecesCount(pattern);
    while cut.param.Some?
      invariant n + CutParams(cut) == ParamCount(Pieces(pattern))
      decreases cut.param.Some?, |cut.rest|
    {
      n := n + 1;
      PiecesCount(cut.rest);
      cut := FirstCut(cut.rest);
    }
  }

  function CutParams(c: Cut): nat { if c.param.None? then 0 else 1 + ParamCount(Pieces(c.rest)) }

  lemma {:induction false} PiecesCount(s: string)
    ensures ParamCount(Pieces(s)) == CutParams(FirstCut(s))
  {
    var c := FirstCut(s);
    TextCounts(c.literal);
    if c.param.Some? {
      RoundAdds(c.literal, c.param.value, Pieces(c.rest));
    } else {
      assert TextPiece(c.literal) + [] == TextPiece(c.literal);
    }
  }

  lemma {:induction false} CountsConcat(a: seq<Piece>, b: seq<Piece>)
    ensures ParamCount(a + b) == ParamCount(a) + ParamCount(b)
    ensures LiteralSegments(a + b) == LiteralSegments(a) + LiteralSegments(b)
  {
    if a == [] {
      assert a + b == b;
    } else {
      assert (a + b)[1..] == a[1..] + b;
      CountsConcat(a[1..], b);
    }
  }

  lemma {:induction false} TokensConcat(a: seq<Piece>, b: seq<Piece>)
    requires ParamCount(a) == 0
    ensures Tokens(a + b) == Tokens(a) + Tokens(b)
  {
    if a == [] {
      assert a + b == b;
    } else {
      assert (a + b)[1..] == a[1..] + b;
      TokensConcat(a[1..], b);
    }
  }

  function TextTokens(s: string): seq<Token> { if s == "" then [] else [Lit(s)] }

  lemma {:induction false} TextCounts(s: string)
    ensures ParamCount(TextPiece(s)) == 0 && LiteralSegments(TextPiece(s)) == Segments(s, |s|)
    ensures Tokens(TextPiece(s)) == TextTokens(s)
  {
    assert s != "" ==> TextPiece(s)[1..] == [];
  }

  /** What a literal and a parameter add to the counts and the tokens. */
  lemma {:induction false} RoundAdds(text: string, p: Piece, rest: seq<Piece>)
    requires p.Param?
    ensures
      var ps := TextPiece(text) + ([p] + rest);
      && ParamCount(ps) == 1 + ParamCount(rest)
      && LiteralSegments(ps) == Segments(text, |text|) + LiteralSegments(rest)
      && Tokens(ps) == TextTokens(text) + [ParamToken(p.name, ParamCount(rest) == 0)] + Tokens(rest)
  {
    TextCounts(text);
    CountsConcat(TextPiece(text), [p] + rest);
    TokensConcat(TextPiece(text), [p] + rest);
    assert ([p] + rest)[1..] == rest;
  }

  function ParamToken(name: string, last: bool): Token { if last then Tail(name) else Segment(name) }

  function Names(ts: seq<Token>): seq<string> {
    if ts == [] then [] else (if ts[0].Lit? then [] else [ts[0].name]) + Names(ts[1..])
  }

  lemma {:induction false} NamesConcat(a: seq<Token>, b: seq<Token>)
    ensures Names(a + b) == Names(a) + Names(b)
  {
    if a == [] {
      assert a + b == b;
    } else {
      assert (a + b)[1..] == a[1..] + b;
      NamesConcat(a[1..], b);
    }
  }

  method ParsePathPattern(pattern: string)
    returns (tokens: seq<Token>, names: seq<string>, literals: nat, dynamics: nat)
    ensures tokens == PatternTokens(pattern) && names == Names(tokens)
    ensures literals == LiteralSegments(Pieces(pattern)) && dynamics == Params(tokens)
  {
    var count := CountParams(pattern);
    tokens, names, literals, dynamics := [], [], 0, 0;
    var rest := pattern;
    var cut := FirstCut(rest);
    while cut.param.Some?
      invariant cut == FirstCut(rest)
      invariant Parsed(pattern, rest, tokens, names, literals, dynamics) && count == ParamCount(Pieces(pattern))
      decreases |rest|
    {
      var more := CountSegments(cut.literal);
      var p := cut.param.value;
      ParamRound(pattern, rest, tokens, names, literals, dynamics, cut.literal, p, cut.rest);
      var t := ParamToken(p.name, dynamics + 1 == count);
      tokens, names := tokens + TextTokens(cut.literal) + [t], names + [p.name];
      literals, dynamics := literals + more, dynamics + 1;
      rest := cut.rest;
      cut := FirstCut(rest);
    }
    var more := CountSegments(cut.literal);
    LastRound(pattern, rest, tokens, names, literals, dynamics, cut.literal);
    tokens, literals := tokens + TextTokens(cut.literal), literals + more;
  }

  /** What has been parsed, and the rest of the pattern, make up the whole. */
  ghost predicate Parsed(pattern: string, rest: string, tokens: seq<Token>, names: seq<string>, literals: nat, dynamics: nat) {
    && dynamics + ParamCount(Pieces(rest)) == ParamCount(Pieces(pattern))
    && tokens + Tokens(Pieces(rest)) == PatternTokens(pattern)
    && names == Names(tokens)
    && literals + LiteralSegments(Pieces(rest)) == LiteralSegments(Pieces(pattern))
  }

  lemma {:induction false} LastRound(pattern: string, rest: string, tokens: seq<Token>, names: seq<string>, literals: nat, dynamics: nat,
                                     literal: string)
    requires Parsed(pattern, rest, tokens, names, literals, dynamics) && FirstCut(rest) == Cut(literal, None, FirstCut(rest).rest)
    ensures tokens + TextTokens(literal) == PatternTokens(pattern) && names == Names(tokens + TextTokens(literal))
    ensures literals + Segments(literal, |literal|) == LiteralSegments(Pieces(pattern))
    ensures dynamics == Params(PatternTokens(pattern))
  {
    assert Pieces(rest) == TextPiece(literal);
    TextCounts(literal);
    NamesConcat(tokens, TextTokens(literal));
    NoNames(literal);
    TokenParams(Pieces(pattern));
  }

  lemma {:induction false} ParamRound(pattern: string, rest: string, tokens: seq<Token>, names: seq<string>, literals: nat, dynamics: nat,
                                      literal: string, p: Piece, after: string)
    requires Parsed(pattern, rest, tokens, names, literals, dynamics) && FirstCut(rest) == Cut(literal, Some(p), after)
    ensures Parsed(pattern, after,
                   tokens + TextTokens(literal) + [ParamToken(p.name, dynamics + 1 == ParamCount(Pieces(pattern)))],
                   names + [p.name], literals + Segments(literal, |literal|), dynamics + 1)
  {
    var t := ParamToken(p.name, dynamics + 1 == ParamCount(Pieces(pattern)));
    RoundAdds(literal, p, Pieces(after));
    TakeToken(tokens, TextTokens(literal), t, Tokens(Pieces(after)));
    NamesConcat(tokens, TextTokens(literal));
    NoNames(literal);
    NamesConcat(tokens + TextTokens(literal), [t]);
    OneName(t);
  }

  lemma {:induction false} NoNames(s: string)
    ensures Names(TextTokens(s)) == []
  {
    assert s != "" ==> TextTokens(s)[1..] == [];
  }

  lemma {:induction false} OneName(t: Token)
    requires !t.Lit?
    ensures Names([t]) == [t.name]
  {
    assert [t][1..] == [];
  }

  lemma {:induction false} TakeToken(a: seq<Token>, b: seq<Token>, t: Token, c: seq<Token>)
    ensures a + (b + [t] + c) == (a + b + [t]) + c
  {
  }
}
