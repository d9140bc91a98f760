/** What a run of the streaming proxy (framework/client/http_proxy_session.cpp) comes to: the first
    failure ends it and is what is reported; without one, bodies of any size get through. */
module ProxyRuns {
  import opened Basics
  import opened Proxy

  // ---- Failures ------------------------------------------------------------------

  predicate Fails(e: Event) { e.Completed? && e.ec != 0 }

  lemma {:induction false} StepReports(st: State, b: Bodies, e: Event)
    requires Inv(st, b) && Enabled(st, b, e)
    ensures st.reports == []
    ensures var t := Next(st, b, e);
      if Fails(e) then t.reports == [e.ec] && t.ops == [] else t.reports == [] || t.reports == [0]
  {
    assert st.ops[..e.at] + st.ops[e.at + 1..] == [];
    assert [] + [0] == [0] && (Fails(e) ==> [] + [e.ec] == [e.ec]);
  }

  lemma {:induction false} OverIsOver(st: State, b: Bodies, es: seq<Event>)
    requires Inv(st, b) && CanRun(st, b, es) && st.ops == []
    ensures es == []
  {
  }

  lemma {:induction false} RunReports(st: State, b: Bodies, es: seq<Event>)
    requires Inv(st, b) && CanRun(st, b, es) && (st.reports == [] || st.reports == [0])
    ensures forall i | 0 <= i < |es| && Fails(es[i]) :: i == |es| - 1 && Run(st, b, es).reports == [es[i].ec]
    ensures (forall i | 0 <= i < |es| :: !Fails(es[i])) ==> Run(st, b, es).reports == [] || Run(st, b, es).reports == [0]
    decreases |es|
  {
    if es != [] {
      var t := Next(st, b, es[0]);
      StepKeepsInv(st, b, es[0]);
      StepReports(st, b, es[0]);
      assert forall i | 0 < i < |es| :: es[i] == es[1..][i - 1];
      if Fails(es[0]) {
        OverIsOver(t, b, es[1..]);
      } else {
        RunReports(t, b, es[1..]);
      }
    }
  }

  /** In every run: a failure is the last thing that happens, and its code is the one report; if
      nothing fails, nothing but success is ever reported. */
  lemma {:induction false} FailureIsReported(requestBuffer: string, responseBuffer: string, b: Bodies, es: seq<Event>)
    requires CanRun(Init(requestBuffer, responseBuffer), b, es)
    ensures
      var st := Run(Init(requestBuffer, responseBuffer), b, es);
      && (forall i | 0 <= i < |es| && Fails(es[i]) :: i == |es| - 1 && st.reports == [es[i].ec])
      && ((forall i | 0 <= i < |es| :: !Fails(es[i])) ==> st.reports == [] || st.reports == [0])
  {
    RunReports(Init(requestBuffer, responseBuffer), b, es);
  }

  // ---- Getting through ---------------------------------------------------------------

  lemma {:induction false} RunOn(st: State, b: Bodies, a: seq<Event>, c: seq<Event>)
    requires CanRun(st, b, a) && CanRun(Run(st, b, a), b, c)
    ensures CanRun(st, b, a + c) && Run(st, b, a + c) == Run(Run(st, b, a), b, c)
    decreases |a|
  {
    if a == [] {
      assert a + c == c;
    } else {
      assert (a + c)[1..] == a[1..] + c;
      RunOn(Next(st, b, a[0]), b, a[1..], c);
    }
  }

  lemma {:induction false} RunFirst(st: State, b: Bodies, e: Event, es: seq<Event>)
    requires Enabled(st, b, e) && CanRun(Next(st, b, e), b, es)
    ensures CanRun(st, b, [e] + es) && Run(st, b, [e] + es) == Run(Next(st, b, e), b, es)
  {
    assert ([e] + es)[1..] == es;
  }

  /** Before `op`, nothing reported. */
  predicate At(st: State, b: Bodies, op: Op) {
    Inv(st, b) && st.ops == [op] && st.s.requestBuffer != "" && st.s.responseBuffer != ""
  }

  /** The completion of an operation other than a read. */
  lemma {:induction false} Done(st: State, b: Bodies, op: Op) returns (t: State)
    requires At(st, b, op) && !op.ReadRequest? && !op.ReadResponse? && !op.FinishResponse?
    ensures Enabled(st, b, Completed(0, 0)) && t == Next(st, b, Completed(0, 0))
    ensures
      At(t, b, match op
               case Connect => ReadRequest
               case WriteRequest(_, done) => if done then FinishRequest else ReadRequest
               case FinishRequest => ReadHead
               case ReadHead => StartResponse
               case StartResponse => ReadResponse
               case WriteResponse(_, done) => if done then FinishResponse else ReadResponse
               case _ => op)
    ensures t.request.taken == st.request.taken && t.response.taken == st.response.taken
  {
    t := Next(st, b, Completed(0, 0));
    StepKeepsInv(st, b, Completed(0, 0));
    assert st.ops[..0] + st.ops[1..] == [];
  }

  /** The next piece of a body: as much of it as the buffer takes. */
  function Piece(t: Transfer, body: string, buffer: string): string
    requires t.taken <= body
  {
    body[|t.taken|..|t.taken| + Min(|buffer|, |body| - |t.taken|)]
  }

  lemma {:induction false} PieceDelivers(t: Transfer, body: string, buffer: string)
    requires t.taken <= body && buffer != ""
    ensures
      var data := Piece(t, body, buffer);
      && Delivers(t, body, buffer, data, t.taken + data == body)
      && (data == "" ==> t.taken == body)
  {
    var data := Piece(t, body, buffer);
    assert t.taken + data == body[..|t.taken| + |data|];
  }

  lemma {:induction false} Got(st: State, b: Bodies, op: Op) returns (e: Event, t: State)
    requires At(st, b, op) && (op.ReadRequest? || op.ReadResponse?)
    ensures Enabled(st, b, e) && t == Next(st, b, e) && e.Got?
    ensures
      op.ReadRequest? ==>
        && t.request.taken == st.request.taken + e.data && st.request.taken <= b.inbound
        && (if e.data == "" then At(t, b, FinishRequest)
            else At(t, b, WriteRequest(|e.data|, e.done)) && (e.done <==> t.request.taken == b.inbound))
    ensures
      op.ReadResponse? ==>
        && t.response.taken == st.response.taken + e.data && st.response.taken <= b.upstream
        && (if e.data == "" then At(t, b, FinishResponse)
            else At(t, b, WriteResponse(|e.data|, e.done)) && (e.done <==> t.response.taken == b.upstream))
  {
    if op.ReadRequest? {
      PieceDelivers(st.request, b.inbound, st.s.requestBuffer);
      var data := Piece(st.request, b.inbound, st.s.requestBuffer);
      e := Event.Got(0, data, st.request.taken + data == b.inbound);
    } else {
      PieceDelivers(st.response, b.upstream, st.s.responseBuffer);
      var data := Piece(st.response, b.upstream, st.s.responseBuffer);
      e := Event.Got(0, data, st.response.taken + data == b.upstream);
    }
    t := Next(st, b, e);
    StepKeepsInv(st, b, e);
    assert st.ops[..0] + st.ops[1..] == [];
  }

  lemma {:induction false} RequestGoes(st: State, b: Bodies) returns (es: seq<Event>)
    requires At(st, b, ReadRequest) && st.request.taken <= b.inbound
    ensures CanRun(st, b, es) && At(Run(st, b, es), b, FinishRequest)
    decreases |b.inbound| - |st.request.taken|
  {
    var e, t := Got(st, b, ReadRequest);
    es := [];
    if e.data != "" {
      var u := Done(t, b, WriteRequest(|e.data|, e.done));
      if !e.done {
        es := RequestGoes(u, b);
      }
      RunFirst(t, b, Completed(0, 0), es);
      es := [Completed(0, 0)] + es;
    }
    RunFirst(st, b, e, es);
    es := [e] + es;
  }

  lemma {:induction false} ResponseGoes(st: State, b: Bodies) returns (es: seq<Event>)
    requires At(st, b, ReadResponse) && st.response.taken <= b.upstream
    ensures CanRun(st, b, es) && At(Run(st, b, es), b, FinishResponse)
    decreases |b.upstream| - |st.response.taken|
  {
    var e, t := Got(st, b, ReadResponse);
    es := [];
    if e.data != "" {
      var u := Done(t, b, WriteResponse(|e.data|, e.done));
      if !e.done {
        es := ResponseGoes(u, b);
      }
      RunFirst(t, b, Completed(0, 0), es);
      es := [Completed(0, 0)] + es;
    }
    RunFirst(st, b, e, es);
    es := [e] + es;
  }

  /** From the end of the request to the response body. */
  lemma {:induction false} Between(st: State, b: Bodies) returns (es: seq<Event>)
    requires At(st, b, FinishRequest)
    ensures CanRun(st, b, es) && At(Run(st, b, es), b, ReadResponse) && Run(st, b, es).response.taken == ""
  {
    var e := Completed(0, 0);
    var t := Done(st, b, FinishRequest);
    var u := Done(t, b, ReadHead);
    var v := Done(u, b, StartResponse);
    RunFirst(u, b, e, []);
    RunFirst(t, b, e, [e] + []);
    RunFirst(st, b, e, [e] + ([e] + []));
    es := [e] + ([e] + ([e] + []));
  }

  lemma {:induction false} Last(st: State, b: Bodies)
    requires At(st, b, FinishResponse)
    ensures CanRun(st, b, [Completed(0, 0)]) && Run(st, b, [Completed(0, 0)]).reports == [0]
  {
    assert st.ops[..0] + st.ops[1..] == [];
    assert [] + [0] == [0];
    RunFirst(st, b, Completed(0, 0), []);
    assert [Completed(0, 0)] + [] == [Completed(0, 0)];
  }

  /** Bodies of any size get through buffers of any size but zero: there is a run that reports
      success, and so has forwarded both of them whole (`Conservation`). */
  lemma {:induction false} GetsThrough(requestBuffer: string, responseBuffer: string, b: Bodies) returns (es: seq<Event>)
    requires requestBuffer != "" && responseBuffer != ""
    ensures CanRun(Init(requestBuffer, responseBuffer), b, es)
    ensures Run(Init(requestBuffer, responseBuffer), b, es).reports == [0]
  {
    var start := Init(requestBuffer, responseBuffer);
    var connected := Done(start, b, Connect);
    var request := RequestGoes(connected, b);
    var between := Between(Run(connected, b, request), b);
    RunOn(connected, b, request, between);
    es := Finishes(connected, b, request + between);
    RunFirst(start, b, Completed(0, 0), es);
    es := [Completed(0, 0)] + es;
  }

  lemma {:induction false} Finishes(st: State, b: Bodies, es: seq<Event>) returns (all: seq<Event>)
    requires CanRun(st, b, es) && At(Run(st, b, es), b, ReadResponse) && Run(st, b, es).response.taken == ""
    ensures CanRun(st, b, all) && Run(st, b, all).reports == [0]
  {
    var response := ResponseGoes(Run(st, b, es), b);
    RunOn(st, b, es, response);
    Last(Run(st, b, es + response), b);
    RunOn(st, b, es + response, [Completed(0, 0)]);
    all := es + response + [Completed(0, 0)];
  }
}
