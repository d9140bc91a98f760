/** The streaming proxy (framework/client/http_proxy_session.cpp): the request body is pumped
    upstream through one buffer, then the response body downstream through another. Each
    completion of an operation is one step; user cancellation shows as a failing completion. */
module Proxy {
  /** A completion's error code; 0 stands for success. */
  type Ec = int

  /** An asynchronous operation. A write names how much of the buffer it was given. */
  datatype Op =
    | Connect
    | ReadRequest | WriteRequest(n: nat, done: bool) | FinishRequest
    | ReadHead | StartResponse
    | ReadResponse | WriteResponse(n: nat, done: bool) | FinishResponse

  datatype Session = Session(requestBuffer: string, responseBuffer: string, completed: bool, attached: bool)

  /** A body on its way: what was read off its source and what its target has taken. */
  datatype Transfer = Transfer(taken: string, delivered: string, finished: bool)

  /** `ops` are the operations under way; nothing in the state itself keeps them from being many. */
  datatype State = State(s: Session, ops: seq<Op>, request: Transfer, response: Transfer, reports: seq<Ec>)

  /** The bodies that the two sources will deliver. */
  datatype Bodies = Bodies(inbound: string, upstream: string)

  function Init(requestBuffer: string, responseBuffer: string): State {
    State(Session(requestBuffer, responseBuffer, false, true), [Connect],
          Transfer("", "", false), Transfer("", "", false), [])
  }

  /** The completion of the operation at position `at`. */
  datatype Event = Completed(at: nat, ec: Ec) | Got(at: nat, data: string, done: bool)

  /** A source delivers the next bytes of its body, at most a buffer full, and says when the
      body is over. */
  predicate Delivers(t: Transfer, body: string, buffer: string, data: string, done: bool) {
    |data| <= |buffer| && t.taken + data <= body && (done ==> t.taken + data == body)
  }

  predicate Enabled(st: State, b: Bodies, e: Event) {
    e.at < |st.ops| &&
    match e
    case Completed(at, ec) => (st.ops[at].ReadRequest? || st.ops[at].ReadResponse?) ==> ec != 0
    case Got(at, data, done) =>
      || (st.ops[at].ReadRequest? && Delivers(st.request, b.inbound, st.s.requestBuffer, data, done))
      || (st.ops[at].ReadResponse? && Delivers(st.response, b.upstream, st.s.responseBuffer, data, done))
  }

  function Finish(st: State, ec: Ec): State {
    if st.s.completed then st
    else st.(s := st.s.(completed := true, attached := false), reports := st.reports + [ec])
  }

  function Fill(buffer: string, data: string): (r: string)
    requires |data| <= |buffer|
    ensures |r| == |buffer| && r[..|data|] == data
  {
    data + buffer[|data|..]
  }

  function Begin(st: State, op: Op): State { st.(ops := st.ops + [op]) }

  /** What follows once a piece of the request has been dealt with. */
  function AfterRequest(st: State, done: bool): State { Begin(st, if done then FinishRequest else ReadRequest) }

  function AfterResponse(st: State, done: bool): State { Begin(st, if done then FinishResponse else ReadResponse) }

  function Next(st: State, b: Bodies, e: Event): State
    requires Enabled(st, b, e)
  {
    After(st.(ops := st.ops[..e.at] + st.ops[e.at + 1..]), st.ops[e.at], b, e)
  }

  /** The callback of `op`, which is no longer under way. */
  function After(st: State, op: Op, b: Bodies, e: Event): State
    requires e.Got? ==> op.ReadRequest? || op.ReadResponse?
    requires e.Got? && op.ReadRequest? ==> |e.data| <= |st.s.requestBuffer|
    requires e.Got? && op.ReadResponse? ==> |e.data| <= |st.s.responseBuffer|
  {
    match e
    case Got(_, data, done) =>
      if op.ReadRequest? then
        var got := st.(s := st.s.(requestBuffer := Fill(st.s.requestBuffer, data)),
                       request := st.request.(taken := st.request.taken + data));
        if data != "" then Begin(got, WriteRequest(|data|, done)) else AfterRequest(got, done)
      else
        var got := st.(s := st.s.(responseBuffer := Fill(st.s.responseBuffer, data)),
                       response := st.response.(taken := st.response.taken + data));
        if data != "" then Begin(got, WriteResponse(|data|, done)) else AfterResponse(got, done)
    case Completed(_, ec) =>
      if ec != 0 then Finish(st, ec)
      else
        match op
        case Connect => Begin(st, ReadRequest)
        case ReadRequest => st
        case WriteRequest(n, done) =>
          AfterRequest(st.(request := st.request.(delivered := st.request.delivered + Taken(st.s.requestBuffer, n))), done)
        case FinishRequest => Begin(st.(request := st.request.(finished := true)), ReadHead)
        case ReadHead => Begin(st, StartResponse)
        case StartResponse => Begin(st, ReadResponse)
        case ReadResponse => st
        case WriteResponse(n, done) =>
          AfterResponse(st.(response := st.response.(delivered := st.response.delivered + Taken(st.s.responseBuffer, n))), done)
        case FinishResponse => Finish(st.(response := st.response.(finished := true)), 0)
  }

  /** What a write of `n` bytes takes from the buffer, as it is when the write completes. */
  function Taken(buffer: string, n: nat): string { if n <= |buffer| then buffer[..n] else buffer }

  // ---- The invariant ---------------------------------------------------------------

  /** Between a read and the completion of its write the buffer holds exactly what is missing at
      the target; otherwise nothing is missing. */
  predicate Pumping(t: Transfer, body: string, buffer: string, writing: bool, n: nat, done: bool) {
    && t.taken <= body
    && (if writing then n <= |buffer| && t.delivered + buffer[..n] == t.taken && (done ==> t.taken == body)
        else t.delivered == t.taken)
  }

  predicate Whole(t: Transfer, body: string) { t.delivered == t.taken == body }

  predicate RequestInv(st: State, op: Op, body: string) {
    match op
    case WriteRequest(n, done) => !st.request.finished && Pumping(st.request, body, st.s.requestBuffer, true, n, done)
    case Connect => !st.request.finished && st.request.taken == st.request.delivered == ""
    case ReadRequest => !st.request.finished && Pumping(st.request, body, st.s.requestBuffer, false, 0, false)
    case FinishRequest => !st.request.finished && Whole(st.request, body)
    case _ => st.request.finished && Whole(st.request, body)
  }

  predicate ResponseInv(st: State, op: Op, body: string) {
    match op
    case WriteResponse(n, done) => Pumping(st.response, body, st.s.responseBuffer, true, n, done)
    case ReadResponse => Pumping(st.response, body, st.s.responseBuffer, false, 0, false)
    case FinishResponse => Whole(st.response, body)
    case _ => st.response.taken == st.response.delivered == ""
  }

  /** One operation until the completion is reported, none after it, and one report. A reported
      success has forwarded both bodies whole. */
  predicate ReportInv(st: State, b: Bodies) {
    && |st.ops| == (if st.s.completed then 0 else 1) && (st.s.attached <==> !st.s.completed)
    && |st.reports| == (if st.s.completed then 1 else 0)
    && (!st.s.completed ==> !st.response.finished)
    && (st.reports == [0] ==>
          st.request == Transfer(b.inbound, b.inbound, true) && st.response == Transfer(b.upstream, b.upstream, true))
    && st.request.delivered <= b.inbound && st.response.delivered <= b.upstream
  }

  predicate Inv(st: State, b: Bodies) {
    && ReportInv(st, b)
    && (st.ops != [] ==> RequestInv(st, st.ops[0], b.inbound) && ResponseInv(st, st.ops[0], b.upstream))
  }

  lemma {:induction false} PumpRead(t: Transfer, body: string, buffer: string, data: string, done: bool)
    requires Pumping(t, body, buffer, false, 0, false) && Delivers(t, body, buffer, data, done)
    ensures
      var u := t.(taken := t.taken + data);
      if data != "" then Pumping(u, body, Fill(buffer, data), true, |data|, done)
      else Pumping(u, body, Fill(buffer, data), false, 0, false) && (done ==> Whole(u, body))
  {
  }

  lemma {:induction false} PumpWritten(t: Transfer, body: string, buffer: string, n: nat, done: bool)
    requires Pumping(t, body, buffer, true, n, done)
    ensures
      var u := t.(delivered := t.delivered + Taken(buffer, n));
      Pumping(u, body, buffer, false, 0, false) && (done ==> Whole(u, body))
  {
  }

  lemma {:induction false} StepKeepsInv(st: State, b: Bodies, e: Event)
    requires Inv(st, b) && Enabled(st, b, e)
    ensures Inv(Next(st, b, e), b)
  {
    assert st.ops[..e.at] + st.ops[e.at + 1..] == [];
    var rest := st.(ops := []);
    var op := st.ops[0];
    match e
    case Got(_, data, done) =>
      GotKeepsInv(rest, op, b, e);
    case Completed(_, ec) =>
      if ec != 0 || op == FinishResponse {
        FinishKeepsInv(rest, op, b, ec);
      } else {
        DoneKeepsInv(rest, op, b, e);
      }
  }

  /** The state while the only operation's callback runs. */
  predicate Between(st: State, op: Op, b: Bodies) {
    && st.ops == [] && !st.s.completed && st.s.attached && st.reports == [] && !st.response.finished
    && RequestInv(st, op, b.inbound) && ResponseInv(st, op, b.upstream)
    && st.request.delivered <= b.inbound && st.response.delivered <= b.upstream
  }

  lemma {:induction false} GotKeepsInv(st: State, op: Op, b: Bodies, e: Event)
    requires Between(st, op, b) && e.Got? && (op.ReadRequest? || op.ReadResponse?)
    requires op.ReadRequest? ==> Delivers(st.request, b.inbound, st.s.requestBuffer, e.data, e.done)
    requires op.ReadResponse? ==> Delivers(st.response, b.upstream, st.s.responseBuffer, e.data, e.done)
    ensures Inv(After(st, op, b, e), b)
  {
    if op.ReadRequest? {
      PumpRead(st.request, b.inbound, st.s.requestBuffer, e.data, e.done);
    } else {
      PumpRead(st.response, b.upstream, st.s.responseBuffer, e.data, e.done);
    }
  }

  lemma {:induction false} DoneKeepsInv(st: State, op: Op, b: Bodies, e: Event)
    requires Between(st, op, b) && e.Completed? && e.ec == 0
    requires !op.ReadRequest? && !op.ReadResponse? && !op.FinishResponse?
    ensures Inv(After(st, op, b, e), b)
  {
    match op
    case WriteRequest(n, done) => PumpWritten(st.request, b.inbound, st.s.requestBuffer, n, done);
    case WriteResponse(n, done) => PumpWritten(st.response, b.upstream, st.s.responseBuffer, n, done);
    case _ =>
  }

  lemma {:induction false} FinishKeepsInv(st: State, op: Op, b: Bodies, ec: Ec)
    requires Between(st, op, b) && (ec != 0 || op == FinishResponse)
    ensures Inv(After(st, op, b, Completed(0, ec)), b)
  {
    assert st.reports + [ec] == [ec];
    assert [ec][0] == ec;
  }

  /** While a write is under way nothing else is, and so nothing touches its buffer: the only
      step that can follow is its own completion, and that leaves both buffers as they are. */
  lemma {:induction false} BufferKept(st: State, b: Bodies, e: Event, w: nat)
    requires Inv(st, b) && Enabled(st, b, e)
    requires w < |st.ops| && (st.ops[w].WriteRequest? || st.ops[w].WriteResponse?)
    ensures e.Completed? && e.at == w
    ensures Next(st, b, e).s.requestBuffer == st.s.requestBuffer
    ensures Next(st, b, e).s.responseBuffer == st.s.responseBuffer
  {
  }

  // ---- Runs ---------------------------------------------------------------------------

  ghost predicate CanRun(st: State, b: Bodies, es: seq<Event>)
    decreases |es|
  {
    es == [] || (Enabled(st, b, es[0]) && CanRun(Next(st, b, es[0]), b, es[1..]))
  }

  ghost function Run(st: State, b: Bodies, es: seq<Event>): State
    requires CanRun(st, b, es)
    decreases |es|
  {
    if es == [] then st else Run(Next(st, b, es[0]), b, es[1..])
  }

  lemma {:induction false} RunKeepsInv(st: State, b: Bodies, es: seq<Event>)
    requires Inv(st, b) && CanRun(st, b, es)
    ensures Inv(Run(st, b, es), b)
    decreases |es|
  {
    if es != [] {
      StepKeepsInv(st, b, es[0]);
      RunKeepsInv(Next(st, b, es[0]), b, es[1..]);
    }
  }

  /** Conservation, in every run: what the targets have taken are prefixes of the bodies; one
      operation is under way until the completion, which is reported once; and after a reported
      success both bodies have been forwarded whole and in order. */
  lemma {:induction false} Conservation(requestBuffer: string, responseBuffer: string, b: Bodies, es: seq<Event>)
    requires CanRun(Init(requestBuffer, responseBuffer), b, es)
    ensures
      var st := Run(Init(requestBuffer, responseBuffer), b, es);
      && st.request.delivered <= b.inbound && st.response.delivered <= b.upstream
      && |st.reports| <= 1 && |st.ops| == (if st.reports == [] then 1 else 0)
      && (st.reports == [0] ==> st.request.delivered == b.inbound && st.response.delivered == b.upstream)
      && (st.reports == [0] ==> st.request.finished && st.response.finished)
  {
    RunKeepsInv(Init(requestBuffer, responseBuffer), b, es);
  }

  // ---- The class -----------------------------------------------------------------------

  /** The session; the operations under way, the transfers and the reports are ghost. */
  class HttpProxySession {
    var requestBuffer: string
    var responseBuffer: string
    var completed: bool
    var attached: bool

    ghost var ops: seq<Op>
    ghost var request: Transfer
    ghost var response: Transfer
    ghost var reports: seq<Ec>
    ghost const bodies: Bodies

    ghost function View(): State
      reads this
    {
      State(Session(requestBuffer, responseBuffer, completed, attached), ops, request, response, reports)
    }

    ghost predicate Valid()
      reads this
    {
      Inv(View(), bodies)
    }

    /** `start`: connecting is the first operation. */
    constructor (requestBuffer: string, responseBuffer: string, ghost bodies: Bodies)
      ensures Valid() && View() == Init(requestBuffer, responseBuffer) && this.bodies == bodies
    {
      this.requestBuffer, this.responseBuffer, this.bodies := requestBuffer, responseBuffer, bodies;
      completed, attached := false, true;
      ops, request, response, reports := [Connect], Transfer("", "", false), Transfer("", "", false), [];
    }

    method FinishSession(ec: Ec)
      modifies this
      ensures View() == Finish(old(View()), ec)
      ensures completed && reports == if old(completed) then old(reports) else old(reports) + [ec]
    {
      if completed {
        return;
      }
      completed := true;
      attached := false;
      reports := reports + [ec];
    }

    /** The operation is over and its callback runs. */
    ghost method Over()
      requires Valid() && ops != []
      modifies this`ops
      ensures ops == [] == old(ops)[..0] + old(ops)[1..]
    {
      ops := [];
    }

    /** The callback of `pump_request`'s read. */
    method OnRequestRead(data: string, done: bool)
      requires Valid() && Enabled(View(), bodies, Got(0, data, done)) && ops[0] == ReadRequest
      modifies this
      ensures Valid() && View() == Next(old(View()), bodies, Got(0, data, done))
      ensures ops == [if data != "" then WriteRequest(|data|, done) else if done then FinishRequest else ReadRequest]
      ensures requestBuffer[..|data|] == data && responseBuffer == old(responseBuffer) && reports == []
    {
      StepKeepsInv(View(), bodies, Got(0, data, done));
      Over();
      requestBuffer := data + requestBuffer[|data|..];
      request := request.(taken := request.taken + data);
      ops := ops + [if data != "" then WriteRequest(|data|, done) else if done then FinishRequest else ReadRequest];
    }

    /** The callback of `pump_response`'s read. */
    method OnResponseRead(data: string, done: bool)
      requires Valid() && Enabled(View(), bodies, Got(0, data, done)) && ops[0] == ReadResponse
      modifies this
      ensures Valid() && View() == Next(old(View()), bodies, Got(0, data, done))
      ensures ops == [if data != "" then WriteResponse(|data|, done) else if done then FinishResponse else ReadResponse]
      ensures responseBuffer[..|data|] == data && requestBuffer == old(requestBuffer) && reports == []
    {
      StepKeepsInv(View(), bodies, Got(0, data, done));
      Over();
      responseBuffer := data + responseBuffer[|data|..];
      response := response.(taken := response.taken + data);
      ops := ops + [if data != "" then WriteResponse(|data|, done) else if done then FinishResponse else ReadResponse];
    }

    /** The callback of the write in `pump_request`; `done` is what the read before it said. */
    method OnRequestWritten(ec: Ec, done: bool)
      requires Valid() && Enabled(View(), bodies, Completed(0, ec)) && ops[0].WriteRequest? && ops[0].done == done
      modifies this
      ensures Valid() && View() == Next(old(View()), bodies, Completed(0, ec))
      ensures if ec == 0 then ops == [if done then FinishRequest else ReadRequest] && reports == [] else reports == [ec]
    {
      StepKeepsInv(View(), bodies, Completed(0, ec));
      ghost var n := ops[0].n;
      Over();
      if ec != 0 {
        FinishSession(ec);
        return;
      }
      request := request.(delivered := request.delivered + Taken(requestBuffer, n));
      ops := ops + [if done then FinishRequest else ReadRequest];
    }

    /** The callback of the write in `pump_response`. */
    method OnResponseWritten(ec: Ec, done: bool)
      requires Valid() && Enabled(View(), bodies, Completed(0, ec)) && ops[0].WriteResponse? && ops[0].done == done
      modifies this
      ensures Valid() && View() == Next(old(View()), bodies, Completed(0, ec))
      ensures if ec == 0 then ops == [if done then FinishResponse else ReadResponse] && reports == [] else reports == [ec]
    {
      StepKeepsInv(View(), bodies, Completed(0, ec));
      ghost var n := ops[0].n;
      Over();
      if ec != 0 {
        FinishSession(ec);
        return;
      }
      response := response.(delivered := response.delivered + Taken(responseBuffer, n));
      ops := ops + [if done then FinishResponse else ReadResponse];
    }

    /** The callback of `start`. */
    method OnConnected(ec: Ec)
      requires Valid() && Enabled(View(), bodies, Completed(0, ec)) && ops[0] == Connect
      modifies this
      ensures Valid() && View() == Next(old(View()), bodies, Completed(0, ec))
      ensures if ec == 0 then ops == [ReadRequest] && reports == [] else reports == [ec]
    {
      StepKeepsInv(View(), bodies, Completed(0, ec));
      Over();
      if ec != 0 {
        FinishSession(ec);
        return;
      }
      ops := ops + [ReadRequest];
    }

    /** The callback of `finish_request`. */
    method OnRequestFinished(ec: Ec)
      requires Valid() && Enabled(View(), bodies, Completed(0, ec)) && ops[0] == FinishRequest
      modifies this
      ensures Valid() && View() == Next(old(View()), bodies, Completed(0, ec))
      ensures if ec == 0 then ops == [ReadHead] && reports == [] else reports == [ec]
    {
      StepKeepsInv(View(), bodies, Completed(0, ec));
      Over();
      if ec != 0 {
        FinishSession(ec);
        return;
      }
      request := request.(finished := true);
      ops := ops + [ReadHead];
    }

    /** The first callback of `read_response_head`. */
    method OnHeadRead(ec: Ec)
      requires Valid() && Enabled(View(), bodies, Completed(0, ec)) && ops[0] == ReadHead
      modifies this
      ensures Valid() && View() == Next(old(View()), bodies, Completed(0, ec))
      ensures if ec == 0 then ops == [StartResponse] && reports == [] else reports == [ec]
    {
      StepKeepsInv(View(), bodies, Completed(0, ec));
      Over();
      if ec != 0 {
        FinishSession(ec);
        return;
      }
      ops := ops + [StartResponse];
    }

    /** The second callback of `read_response_head`. */
    method OnResponseStarted(ec: Ec)
      requires Valid() && Enabled(View(), bodies, Completed(0, ec)) && ops[0] == StartResponse
      modifies this
      ensures Valid() && View() == Next(old(View()), bodies, Completed(0, ec))
      ensures if ec == 0 then ops == [ReadResponse] && reports == [] else reports == [ec]
    {
      StepKeepsInv(View(), bodies, Completed(0, ec));
      Over();
      if ec != 0 {
        FinishSession(ec);
        return;
      }
      ops := ops + [ReadResponse];
    }

    /** The last callback of `pump_response`. */
    method OnResponseFinished(ec: Ec)
      requires Valid() && Enabled(View(), bodies, Completed(0, ec)) && ops[0] == FinishResponse
      modifies this
      ensures Valid() && View() == Next(old(View()), bodies, Completed(0, ec))
      ensures reports == [ec] && ops == [] && completed && !attached
    {
      StepKeepsInv(View(), bodies, Completed(0, ec));
      Over();
      if ec != 0 {
        FinishSession(ec);
        return;
      }
      response := response.(finished := true);
      FinishSession(0);
    }
  }
}
