/** The route table and its dispatch decisions (framework/router/http_router.cpp and
    http_router.hpp). Handlers are named by numbers. */
module Router {
  import opened Basics
  import opened RoutePattern
  import opened RouteParsing

  datatype Verb = Get | Head | Other(name: string)

  type Handler = nat

  /** `add_route`, `async_route` and `stream` each fill their own table of handlers. */
  datatype Kind = Plain | Async | Stream

  datatype Route = Route(path: string, tokens: seq<Token>, names: seq<string>, literals: nat, dynamics: nat,
                         handlers: map<Verb, Handler>, asyncHandlers: map<Verb, Handler>,
                         streamHandlers: map<Verb, Handler>)

  predicate WellParsed(r: Route) {
    && r.tokens == PatternTokens(r.path) && r.names == Names(r.tokens)
    && r.literals == LiteralSegments(Pieces(r.path)) && r.dynamics == Params(r.tokens)
  }

  function WithHandler(r: Route, kind: Kind, m: Verb, h: Handler): Route {
    match kind
    case Plain => r.(handlers := r.handlers[m := h])
    case Async => r.(asyncHandlers := r.asyncHandlers[m := h])
    case Stream => r.(streamHandlers := r.streamHandlers[m := h])
  }

  // ---- Specificity --------------------------------------------------------------

  /** More literal segments first; then fewer parameters. */
  predicate MoreSpecific(a: Route, b: Route) {
    a.literals > b.literals || (a.literals == b.literals && a.dynamics < b.dynamics)
  }

  predicate Sorted(rs: seq<Route>) { forall i, j | 0 <= i < j < |rs| :: !MoreSpecific(rs[j], rs[i]) }

  predicate HasPath(rs: seq<Route>, path: string) { exists i | 0 <= i < |rs| :: rs[i].path == path }

  predicate Distinct(rs: seq<Route>) { forall i, j | 0 <= i < j < |rs| :: rs[i].path != rs[j].path }

  /** Inserting into a sorted table. */
  method Insert(rs: seq<Route>, r: Route) returns (out: seq<Route>)
    requires Sorted(rs)
    ensures Sorted(out) && multiset(out) == multiset(rs) + multiset{r}
    ensures Distinct(rs) && !HasPath(rs, r.path) ==> Distinct(out)
  {
    var k := |rs|;
    while k > 0 && MoreSpecific(r, rs[k - 1])
      invariant 0 <= k <= |rs|
      invariant forall i | k <= i < |rs| :: MoreSpecific(r, rs[i])
    {
      k := k - 1;
    }
    InsertSorts(rs, k, r);
    InsertKeeps(rs, k, r);
    out := rs[..k] + [r] + rs[k..];
  }

  lemma {:induction false} InsertSorts(rs: seq<Route>, k: nat, r: Route)
    requires Sorted(rs) && k <= |rs| && (k == 0 || !MoreSpecific(r, rs[k - 1]))
    requires forall i | k <= i < |rs| :: MoreSpecific(r, rs[i])
    ensures Sorted(rs[..k] + [r] + rs[k..])
  {
    var out := rs[..k] + [r] + rs[k..];
    forall i, j | 0 <= i < j < |out| ensures !MoreSpecific(out[j], out[i]) {
      var a, b := if i < k then i else i - 1, if j < k then j else j - 1;
      assert i != k ==> out[i] == rs[a];
      assert j != k ==> out[j] == rs[b];
      assert out[k] == r;
      if j == k && i < k - 1 {
        assert !MoreSpecific(rs[k - 1], rs[i]);
      }
    }
  }

  lemma {:induction false} InsertKeeps(rs: seq<Route>, k: nat, r: Route)
    requires k <= |rs|
    ensures var out := rs[..k] + [r] + rs[k..];
      && multiset(out) == multiset(rs) + multiset{r}
      && (Distinct(rs) && !HasPath(rs, r.path) ==> Distinct(out))
  {
    assert rs == rs[..k] + rs[k..];
    if Distinct(rs) && !HasPath(rs, r.path) {
      InsertDistinct(rs, k, r);
    }
  }

  lemma {:induction false} InsertDistinct(rs: seq<Route>, k: nat, r: Route)
    requires k <= |rs| && Distinct(rs) && !HasPath(rs, r.path)
    ensures Distinct(rs[..k] + [r] + rs[k..])
  {
    var out := rs[..k] + [r] + rs[k..];
    forall i, j | 0 <= i < j < |out| ensures out[i].path != out[j].path {
      var a, b := if i < k then i else i - 1, if j < k then j else j - 1;
      assert i != k ==> out[i] == rs[a];
      assert j != k ==> out[j] == rs[b];
    }
  }

  /** `std::sort` by specificity: some sorted arrangement of the same routes. */
  method Sort(rs: seq<Route>) returns (out: seq<Route>)
    ensures Sorted(out) && multiset(out) == multiset(rs)
    ensures Distinct(rs) ==> Distinct(out)
  {
    out := [];
    for i := 0 to |rs|
      invariant Sorted(out) && multiset(out) == multiset(rs[..i])
      invariant Distinct(rs) ==> Distinct(out)
    {
      if Distinct(rs) {
        NewPath(rs, i, out);
      }
      out := Insert(out, rs[i]);
      assert rs[..i + 1] == rs[..i] + [rs[i]];
    }
    assert rs[..|rs|] == rs;
  }

  lemma {:induction false} NewPath(rs: seq<Route>, i: nat, out: seq<Route>)
    requires i < |rs| && Distinct(rs) && multiset(out) == multiset(rs[..i])
    ensures !HasPath(out, rs[i].path)
  {
    forall j | 0 <= j < |out| ensures out[j].path != rs[i].path {
      assert out[j] in multiset(rs[..i]);
      var k :| 0 <= k < i && rs[..i][k] == out[j];
    }
  }

  // ---- Deciding a request ---------------------------------------------------------

  predicate Matches(r: Route, path: string) { Match(r.tokens, path).Some? }

  /** A HEAD request falls back on the GET handler. */
  function HandlerFor(handlers: map<Verb, Handler>, m: Verb): Option<Handler> {
    if m in handlers then Some(handlers[m])
    else if m == Head && Get in handlers then Some(handlers[Get])
    else None
  }

  /** The handler is the one of the verb, or, for HEAD if there is none, the one of GET. */
  predicate Answers(handlers: map<Verb, Handler>, m: Verb, h: Handler) {
    || (m in handlers && handlers[m] == h)
    || (m == Head && Head !in handlers && Get in handlers && handlers[Get] == h)
  }

  /** The route settles the request: it has a handler, or the method is one for which a matching
      route without a handler means "method not allowed". */
  predicate Settles(r: Route, path: string, m: Verb) {
    Matches(r, path) && (HandlerFor(r.handlers, m).Some? || (m != Get && m != Head))
  }

  datatype Outcome =
    | Handled(route: Route, handler: Handler, params: map<string, string>)
    | MethodNotAllowed(route: Route)
    | Unrouted

  function Bind(names: seq<string>, values: seq<string>): map<string, string>
    requires |names| == |values|
  {
    if names == [] then map[]
    else
      var n := |names| - 1;
      Bind(names[..n], values[..n])[names[n] := values[n]]
  }

  /** Every name is bound to the value of its last occurrence. */
  lemma {:induction false} BindLast(names: seq<string>, values: seq<string>, i: nat)
    requires |names| == |values| && i < |names| && names[i] !in names[i + 1..]
    ensures names[i] in Bind(names, values) && Bind(names, values)[names[i]] == values[i]
  {
    var n := |names| - 1;
    if i < n {
      assert names[n] == names[i + 1..][n - i - 1];
      assert names[..n][i + 1..] == names[i + 1..][..n - i - 1];
      BindLast(names[..n], values[..n], i);
    }
  }

  lemma {:induction false} NamesCount(ts: seq<Token>)
    ensures |Names(ts)| == Params(ts)
  {
    if ts != [] {
      NamesCount(ts[1..]);
    }
  }

  lemma {:induction false} MatchCount(r: Route, path: string)
    requires WellParsed(r) && Matches(r, path)
    ensures |Match(r.tokens, path).value| == |r.names|
  {
    MatchSound(r.tokens, path);
    NamesCount(r.tokens);
  }

  /** The parameters are bound to values that fill the pattern of the route up to the path. */
  predicate BoundTo(r: Route, path: string, params: map<string, string>) {
    && Matches(r, path)
    && var values := Match(r.tokens, path).value;
       Fits(r.tokens, values, path) && |values| == |r.names| && params == Bind(r.names, values)
  }

  method BindParams(names: seq<string>, values: seq<string>) returns (params: map<string, string>)
    requires |names| == |values|
    ensures params == Bind(names, values)
  {
    params := map[];
    for i := 0 to |names|
      invariant params == Bind(names[..i], values[..i])
    {
      assert names[..i + 1][..i] == names[..i] && values[..i + 1][..i] == values[..i];
      params := params[names[i] := values[i]];
    }
    assert names[..|names|] == names && values[..|names|] == values;
  }

  function Base(path: string): string {
    if |path| > 1 && path[|path| - 1] == '/' then Base(path[..|path| - 1]) else path
  }

  /** A pattern under the base path; `None` for a pattern the router rejects. */
  function Registered(base: string, pattern: string): Option<string> {
    if base == "" then Some(pattern)
    else if pattern == "" || pattern[0] != '/' then None
    else Some(base + if pattern == "/" then "" else pattern)
  }

  function Lookup(rs: seq<Route>, path: string): Option<Route> {
    if rs == [] then None else if rs[0].path == path then Some(rs[0]) else Lookup(rs[1..], path)
  }

  lemma {:induction false} LookupFinds(rs: seq<Route>, path: string)
    ensures Lookup(rs, path).Some? ==> Lookup(rs, path).value in rs && Lookup(rs, path).value.path == path
    ensures Lookup(rs, path).None? ==> forall r | r in rs :: r.path != path
  {
    if rs != [] && rs[0].path != path {
      LookupFinds(rs[1..], path);
      assert rs == [rs[0]] + rs[1..];
    }
  }

  lemma {:induction false} OnlyOne(rs: seq<Route>, r: Route)
    requires Distinct(rs) && r in rs
    ensures Lookup(rs, r.path) == Some(r)
  {
    LookupFinds(rs, r.path);
  }

  lemma {:induction false} SameMembers(a: seq<Route>, b: seq<Route>)
    requires multiset(a) == multiset(b)
    ensures forall r :: r in a <==> r in b
  {
    forall r ensures r in a <==> r in b {
      assert (r in a <==> r in multiset(a)) && (r in b <==> r in multiset(b));
    }
  }

  /** Two tables with the same routes answer every lookup alike. */
  lemma {:induction false} SameLookups(a: seq<Route>, b: seq<Route>)
    requires Distinct(a) && Distinct(b) && multiset(a) == multiset(b)
    ensures forall q :: Lookup(a, q) == Lookup(b, q)
  {
    forall q ensures Lookup(a, q) == Lookup(b, q) {
      LookupFinds(a, q);
      LookupFinds(b, q);
      SameMembers(a, b);
      if Lookup(a, q).Some? {
        OnlyOne(b, Lookup(a, q).value);
      }
    }
  }

  lemma {:induction false} LookupUpdated(rs: seq<Route>, i: nat, r: Route)
    requires i < |rs| && Distinct(rs) && r.path == rs[i].path
    ensures Distinct(rs[i := r])
    ensures forall q :: Lookup(rs[i := r], q) == if q == r.path then Some(r) else Lookup(rs, q)
  {
    var after := rs[i := r];
    assert forall k | 0 <= k < |after| :: after[k] == r || after[k] == rs[k];
    forall q ensures Lookup(after, q) == if q == r.path then Some(r) else Lookup(rs, q) {
      LookupFinds(rs, q);
      LookupFinds(after, q);
      if q == r.path {
        assert after[i] == r;
        OnlyOne(after, r);
      } else if Lookup(rs, q).Some? {
        var k :| 0 <= k < |rs| && rs[k] == Lookup(rs, q).value;
        assert after[k] == rs[k];
        OnlyOne(after, rs[k]);
      }
    }
  }

  lemma {:induction false} HandlerKeeps(r: Route, kind: Kind, m: Verb, h: Handler)
    requires WellParsed(r)
    ensures
      var after := WithHandler(r, kind, m, h);
      WellParsed(after) && after.path == r.path && after.literals == r.literals && after.dynamics == r.dynamics
  {
  }

  lemma {:induction false} StaysSorted(rs: seq<Route>, i: nat, r: Route)
    requires i < |rs| && Sorted(rs) && r.literals == rs[i].literals && r.dynamics == rs[i].dynamics
    ensures Sorted(rs[i := r]) && forall x | x in rs[i := r] :: x == r || x in rs
  {
    var after := rs[i := r];
    forall j, k | 0 <= j < k < |after| ensures !MoreSpecific(after[k], after[j]) {
      assert !MoreSpecific(rs[k], rs[j]);
    }
  }

  lemma {:induction false} LookupAppended(rs: seq<Route>, r: Route, q: string)
    requires !HasPath(rs, r.path)
    ensures Lookup(rs + [r], q) == if q == r.path then Some(r) else Lookup(rs, q)
  {
    if rs == [] {
      assert rs + [r] == [r] && [r][1..] == [];
    } else {
      assert (rs + [r])[1..] == rs[1..] + [r];
      assert rs[0].path != r.path;
      assert forall i | 0 <= i < |rs[1..]| :: rs[1..][i] == rs[i + 1];
      LookupAppended(rs[1..], r, q);
    }
  }

  lemma {:induction false} DistinctAppended(rs: seq<Route>, r: Route)
    requires Distinct(rs) && !HasPath(rs, r.path)
    ensures Distinct(rs + [r])
  {
  }

  /** A sorted table with one route more finds that route, and the others as before. */
  lemma {:induction false} AppendedAndSorted(rs: seq<Route>, r: Route, sorted: seq<Route>)
    requires !HasPath(rs, r.path) && Distinct(rs + [r]) && Distinct(sorted)
    requires multiset(sorted) == multiset(rs + [r])
    ensures forall x | x in sorted :: x == r || x in rs
    ensures forall q :: Lookup(sorted, q) == if q == r.path then Some(r) else Lookup(rs, q)
  {
    SameMembers(sorted, rs + [r]);
    SameLookups(rs + [r], sorted);
    forall q ensures Lookup(sorted, q) == if q == r.path then Some(r) else Lookup(rs, q) {
      LookupAppended(rs, r, q);
    }
  }

  function NewRoute(path: string): (r: Route)
    ensures WellParsed(r)
  {
    var ts := PatternTokens(path);
    Route(path, ts, Names(ts), LiteralSegments(Pieces(path)), Params(ts), map[], map[], map[])
  }

  /** The route that a registration adds or extends. */
  function Extended(rs: seq<Route>, path: string, kind: Kind, m: Verb, h: Handler): Route {
    WithHandler(if Lookup(rs, path).Some? then Lookup(rs, path).value else NewRoute(path), kind, m, h)
  }

  /** No route of the table that satisfies the condition is more specific. */
  predicate FirstMatching(rs: seq<Route>, r: Route, path: string) {
    r in rs && Matches(r, path) && forall q | q in rs && Matches(q, path) :: !MoreSpecific(q, r)
  }

  function FirstMatch(rs: seq<Route>, path: string): Option<Route> {
    if rs == [] then None else if Matches(rs[0], path) then Some(rs[0]) else FirstMatch(rs[1..], path)
  }

  /** In a sorted table no match is more specific than the first one. */
  lemma {:induction false} FirstMatchIsFirst(rs: seq<Route>, path: string)
    requires Sorted(rs)
    ensures FirstMatch(rs, path).Some? ==> FirstMatching(rs, FirstMatch(rs, path).value, path)
    ensures FirstMatch(rs, path).None? ==> forall r | r in rs :: !Matches(r, path)
  {
    if rs != [] {
      assert rs == [rs[0]] + rs[1..];
      if !Matches(rs[0], path) {
        FirstMatchIsFirst(rs[1..], path);
      }
    }
  }

  lemma {:induction false} FirstMatchAt(rs: seq<Route>, path: string, i: nat)
    requires i <= |rs| && forall k | 0 <= k < i :: !Matches(rs[k], path)
    ensures FirstMatch(rs, path) == FirstMatch(rs[i..], path)
  {
    if i == 0 {
      assert rs[0..] == rs;
    } else {
      FirstMatchAt(rs, path, i - 1);
      assert rs[i - 1..][1..] == rs[i..];
    }
  }

  predicate FirstSettling(rs: seq<Route>, r: Route, path: string, m: Verb) {
    r in rs && Settles(r, path, m) && forall q | q in rs && Settles(q, path, m) :: !MoreSpecific(q, r)
  }

  class HttpRouter {
    var basePath: string
    var routes: seq<Route>

    /** Sorted by specificity, one route for a path, each with the tokens of its path. */
    ghost predicate Valid()
      reads this
    {
      Sorted(routes) && Distinct(routes) && forall r | r in routes :: WellParsed(r)
    }

    constructor ()
      ensures Valid() && basePath == "" && routes == []
    {
      basePath, routes := "", [];
    }

    /** Trailing slashes are dropped; false for a path that does not start with '/'. */
    method SetBasePath(path: string) returns (ok: bool)
      modifies this`basePath
      ensures ok <==> path == "" || path[0] == '/'
      ensures basePath == if !ok then old(basePath) else if Base(path) == "/" then "" else Base(path)
    {
      if path != "" && path[0] != '/' {
        return false;
      }
      var p := path;
      while |p| > 1 && p[|p| - 1] == '/'
        invariant Base(p) == Base(path)
        decreases |p|
      {
        p := p[..|p| - 1];
      }
      basePath := if p == "/" then "" else p;
      return true;
    }

    /** Registering a handler: the route of that path gets it, replacing only the handler of the
        same kind and method; every other route stays. */
    method Register(pattern: string, kind: Kind, m: Verb, h: Handler) returns (ok: bool)
      requires Valid()
      modifies this`routes
      ensures Valid() && ok == Registered(basePath, pattern).Some?
      ensures !ok ==> routes == old(routes)
      ensures ok ==>
        var path := Registered(basePath, pattern).value;
        forall q :: Lookup(routes, q) ==
                    if q == path then Some(Extended(old(routes), path, kind, m, h)) else Lookup(old(routes), q)
    {
      var registered := Registered(basePath, pattern);
      if registered.None? {
        return false;
      }
      var path := registered.value;
      for i := 0 to |routes|
        invariant routes == old(routes) && !HasPath(routes[..i], path)
      {
        if routes[i].path == path {
          UpdateRoute(i, kind, m, h);
          return true;
        }
        assert routes[..i + 1] == routes[..i] + [routes[i]];
      }
      assert routes[..|routes|] == routes;
      AddRoute(path, kind, m, h);
      return true;
    }

    /** An existing route gains or replaces a handler. */
    method UpdateRoute(i: nat, kind: Kind, m: Verb, h: Handler)
      requires Valid() && i < |routes|
      modifies this`routes
      ensures Valid()
      ensures forall q :: Lookup(routes, q) ==
                          if q == old(routes)[i].path then Some(Extended(old(routes), q, kind, m, h)) else Lookup(old(routes), q)
    {
      OnlyOne(routes, routes[i]);
      var r := WithHandler(routes[i], kind, m, h);
      HandlerKeeps(routes[i], kind, m, h);
      LookupUpdated(routes, i, r);
      StaysSorted(routes, i, r);
      routes := routes[i := r];
    }

    method AddRoute(path: string, kind: Kind, m: Verb, h: Handler)
      requires Valid() && !HasPath(routes, path)
      modifies this`routes
      ensures Valid()
      ensures forall q :: Lookup(routes, q) ==
                          if q == path then Some(Extended(old(routes), path, kind, m, h)) else Lookup(old(routes), q)
    {
      var tokens, names, literals, dynamics := ParsePathPattern(path);
      var r := WithHandler(Route(path, tokens, names, literals, dynamics, map[], map[], map[]), kind, m, h);
      assert r == WithHandler(NewRoute(path), kind, m, h);
      DistinctAppended(routes, r);
      var sorted := Sort(routes + [r]);
      AppendedAndSorted(routes, r, sorted);
      LookupFinds(routes, path);
      routes := sorted;
    }

    /** Dispatching a request: the first route that settles it. Its handler runs with the captured
        values, which put back into its pattern give the path. */
    method Dispatch(path: string, m: Verb) returns (outcome: Outcome)
      requires Valid()
      ensures outcome.Unrouted? ==> forall r | r in routes :: !Settles(r, path, m)
      ensures outcome.Unrouted? ==>
                forall r | r in routes && Matches(r, path) ::
                  (m == Get || m == Head) && m !in r.handlers && (m == Head ==> Get !in r.handlers)
      ensures !outcome.Unrouted? ==> FirstSettling(routes, outcome.route, path, m)
      ensures outcome.MethodNotAllowed? ==> m != Get && m != Head && m !in outcome.route.handlers
      ensures outcome.Handled? ==>
                && Answers(outcome.route.handlers, m, outcome.handler)
                && BoundTo(outcome.route, path, outcome.params)
    {
      for i := 0 to |routes|
        invariant forall k | 0 <= k < i :: !Settles(routes[k], path, m)
      {
        var r := routes[i];
        var matches := Match(r.tokens, path);
        if matches.Some? {
          var h := HandlerFor(r.handlers, m);
          if h.Some? {
            MatchCount(r, path);
            MatchSound(r.tokens, path);
            var params := BindParams(r.names, matches.value);
            return Handled(r, h.value, params);
          }
          if m != Get && m != Head {
            return MethodNotAllowed(r);
          }
        }
      }
      return Unrouted;
    }

    /** Whether a request is streamed is decided by the first match alone, which is a most
        specific one (`FirstMatchIsFirst`). */
    method IsStreamRoute(path: string, m: Verb) returns (yes: bool)
      requires Valid()
      ensures var r := FirstMatch(routes, path); yes <==> r.Some? && m in r.value.streamHandlers
    {
      for i := 0 to |routes|
        invariant forall k | 0 <= k < i :: !Matches(routes[k], path)
      {
        if Match(routes[i].tokens, path).Some? {
          FirstMatchAt(routes, path, i);
          return m in routes[i].streamHandlers;
        }
      }
      FirstMatchAt(routes, path, |routes|);
      return false;
    }

    /** Streaming a request: handled exactly when `IsStreamRoute` says so, by the same route. */
    method DispatchStream(path: string, m: Verb) returns (outcome: Outcome)
      requires Valid()
      ensures Decided(outcome, FirstMatch(routes, path), path, m, Stream)
    {
      outcome := DispatchFirst(path, m, Stream);
    }

    method DispatchAsync(path: string, m: Verb) returns (outcome: Outcome)
      requires Valid()
      ensures Decided(outcome, FirstMatch(routes, path), path, m, Async)
    {
      outcome := DispatchFirst(path, m, Async);
    }

    method DispatchFirst(path: string, m: Verb, kind: Kind) returns (outcome: Outcome)
      requires Valid()
      ensures Decided(outcome, FirstMatch(routes, path), path, m, kind)
    {
      for i := 0 to |routes|
        invariant forall k | 0 <= k < i :: !Matches(routes[k], path)
      {
        var r := routes[i];
        var matches := Match(r.tokens, path);
        if matches.Some? {
          FirstMatchAt(routes, path, i);
          MatchCount(r, path);
          MatchSound(r.tokens, path);
          var h := TableHandler(r, kind, m);
          if h.None? {
            return Unrouted;
          }
          var params := BindParams(r.names, matches.value);
          return Handled(r, h.value, params);
        }
      }
      FirstMatchAt(routes, path, |routes|);
      return Unrouted;
    }
  }

  /** Only asynchronous and plain handlers answer HEAD requests in place of GET. */
  function TableHandler(r: Route, kind: Kind, m: Verb): Option<Handler> {
    match kind
    case Plain => HandlerFor(r.handlers, m)
    case Async => HandlerFor(r.asyncHandlers, m)
    case Stream => if m in r.streamHandlers then Some(r.streamHandlers[m]) else None
  }

  /** The first match decides alone: the request is handled exactly if that route has a handler for
      it, and the values bound, put back into its pattern, give the path. */
  predicate Decided(outcome: Outcome, first: Option<Route>, path: string, m: Verb, kind: Kind) {
    && !outcome.MethodNotAllowed?
    && (outcome.Handled? <==> first.Some? && TableHandler(first.value, kind, m).Some?)
    && (outcome.Handled? ==>
          && outcome.route == first.value && Some(outcome.handler) == TableHandler(first.value, kind, m)
          && BoundTo(outcome.route, path, outcome.params))
  }
}
