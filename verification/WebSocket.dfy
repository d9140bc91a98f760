/** The write and close protocol of a WebSocket session
    (framework/websocket/websocket_session.cpp). All callbacks run on one strand, so each is one
    step; sends, completions and read failures arrive in any order. */
module WebSocket {
  import opened Basics

  datatype Kind = TextFrame | BinaryFrame | Ping | Pong | CloseFrame

  datatype Frame = Frame(kind: Kind, payload: string, code: nat)

  /** The three flags and the queue. */
  datatype Session = Session(queue: seq<Frame>, writing: bool, closed: bool, closePending: bool)

  datatype Phase = Handshaking | Reading | Ended

  /** An operation handed to the stream: a frame, or the close of `close_stream`. */
  datatype Op = Sent(frame: Frame) | StreamClose

  /** The stream: the frame whose `on_write` is due, and whether a `close_stream` close is due. */
  datatype Link = Link(phase: Phase, inFlight: Option<Frame>, closing: bool)

  /** The history: frames queued, operations started, whether one was started beside another, how
      the writes went, during which of them (by its number) the session ended, notices to the
      router, and whether the stream was found shut. */
  datatype Past = Past(accepted: seq<Frame>, log: seq<Op>, clash: bool, results: seq<bool>, endedDuring: Option<nat>,
                       notices: nat, shut: bool, registered: bool)

  datatype State = State(s: Session, link: Link, past: Past)

  const INIT: State :=
    State(Session([], false, false, false), Link(Handshaking, None, false), Past([], [], false, [], None, 0, false, false))

  datatype Event =
    | Opened(ok: bool, open: bool)
    | Send(frame: Frame)
    | Written(ok: bool, open: bool)
    | ReadFailed(open: bool)
    | StreamClosed

  /** `open` is what the stream answers if it is asked whether it is open. */
  predicate Enabled(st: State, e: Event) {
    match e
    case Opened(_, _) => st.link.phase == Handshaking
    case Send(_) => st.link.phase != Handshaking
    case Written(_, _) => st.link.inFlight.Some?
    case ReadFailed(_) => st.link.phase == Reading
    case StreamClosed => st.link.closing
  }

  predicate IsClose(op: Op) { op.StreamClose? || op.frame.kind == CloseFrame }

  /** Handing an operation to the stream. */
  function Begin(link: Link, p: Past, op: Op): Past {
    p.(log := p.log + [op], clash := p.clash || link.inFlight.Some? || link.closing)
  }

  function CloseTheStream(st: State, open: bool): State {
    if !open then st.(past := st.past.(shut := true))
    else st.(link := st.link.(closing := true), past := Begin(st.link, st.past, StreamClose))
  }

  /** With nothing to write: the writer stops, and a postponed close is carried out. */
  function Rest(st: State, open: bool): State {
    var stopped := st.(s := st.s.(queue := [], writing := false, closePending := false));
    if st.s.closePending then CloseTheStream(stopped, open) else stopped
  }

  function WriteNext(st: State, open: bool): State {
    if st.s.closed || st.s.queue == [] then Rest(st, open)
    else
      var f := st.s.queue[0];
      State(st.s.(queue := st.s.queue[1..], closed := f.kind == CloseFrame),
            st.link.(inFlight := Some(f)), Begin(st.link, st.past, Sent(f)))
  }

  /** The session ends: the router is told, and a write in flight is remembered. */
  function EndPast(s: Session, p: Past): Past {
    p.(notices := p.notices + 1, registered := false, endedDuring := if s.writing then Some(|p.results|) else None)
  }

  /** The write in flight is over. */
  function Completed(st: State, ok: bool): State {
    st.(link := st.link.(inFlight := None), past := st.past.(results := st.past.results + [ok]))
  }

  function DoClose(st: State, open: bool): State {
    if st.s.closed then st
    else
      var ended := State(st.s.(closed := true, queue := [], closePending := st.s.closePending || st.s.writing), st.link,
                         EndPast(st.s, st.past));
      if st.s.writing then ended else CloseTheStream(ended, open)
  }

  function Next(st: State, e: Event): State
    requires Enabled(st, e)
  {
    match e
    case Opened(ok, open) =>
      if ok then st.(link := st.link.(phase := Reading), past := st.past.(registered := true))
      else DoClose(st.(link := st.link.(phase := Ended)), open)
    case Send(f) =>
      if st.s.closed then st
      else
        var queued := st.(s := st.s.(queue := st.s.queue + [f]), past := st.past.(accepted := st.past.accepted + [f]));
        if st.s.writing then queued else WriteNext(queued.(s := queued.s.(writing := true)), true)
    case Written(ok, open) =>
      var done := Completed(st, ok);
      if ok then WriteNext(done, open) else DoClose(done.(s := done.s.(writing := false)), open)
    case ReadFailed(open) => DoClose(st.(link := st.link.(phase := Ended)), open)
    case StreamClosed => st.(link := st.link.(closing := false))
  }

  // ---- The invariant ------------------------------------------------------------

  /** `writing_` says exactly whether an operation with an `on_write` is in flight; no operation
      was ever started beside another. */
  ghost predicate OneAtATime(s: Session, link: Link, p: Past) {
    && (s.writing <==> link.inFlight.Some?)
    && !(link.inFlight.Some? && link.closing)
    && !p.clash
  }

  /** A close is postponed only on a closed session that has not closed its stream yet; a closed
      session that is still writing either postpones its close or is writing it. */
  ghost predicate Closing(s: Session, link: Link, p: Past) {
    && (s.closePending ==> s.closed && !AnyClose(p.log) && p.notices == 1)
    && (s.closed && s.writing && !s.closePending ==> AnyClose(p.log))
    && (link.closing ==> s.closed)
  }

  /** A close frame that was sent. */
  predicate IsCloseFrame(op: Op) { op.Sent? && op.frame.kind == CloseFrame }

  ghost predicate SentClose(log: seq<Op>) { exists i | 0 <= i < |log| :: IsCloseFrame(log[i]) }

  ghost predicate AnyClose(log: seq<Op>) { exists i | 0 <= i < |log| :: IsClose(log[i]) }

  /** A close is the last operation ever started, and only of a closed session. */
  ghost predicate CloseIsLast(s: Session, p: Past) {
    && (forall i | 0 <= i < |p.log| - 1 :: !IsClose(p.log[i]))
    && (AnyClose(p.log) ==> s.closed)
  }

  function FramesOf(log: seq<Op>): seq<Frame> {
    if log == [] then []
    else
      var op := log[|log| - 1];
      FramesOf(log[..|log| - 1]) + if op.Sent? then [op.frame] else []
  }

  /** Frames are started in the order in which they were queued; until the session is closed,
      none is lost. */
  ghost predicate InOrder(s: Session, p: Past) {
    && FramesOf(p.log) <= p.accepted
    && (!s.closed ==> FramesOf(p.log) + s.queue == p.accepted)
    && (!s.closed && !s.writing ==> s.queue == [])
  }

  /** The router is told of the end at most once, and the session is then out of the registry. */
  ghost predicate Notices(s: Session, link: Link, p: Past) {
    && p.notices <= 1 && (p.notices == 1 ==> s.closed && !p.registered)
    && (link.phase == Handshaking ==> !s.closed && !s.writing && p.notices == 0 && !p.registered)
    && (link.phase != Handshaking && p.notices == 0 ==> p.registered)
    && (s.closed && p.notices == 0 ==> p.log != [] && IsClose(p.log[|p.log| - 1]) && p.log[|p.log| - 1].Sent?)
  }

  /** A closed session at rest has closed its stream, unless the stream was found shut or the
      close is still postponed. */
  ghost predicate Settled(s: Session, p: Past) {
    && (s.closed && !s.writing ==> (AnyClose(p.log) <==> !p.shut && !s.closePending))
    && (p.shut ==> s.closed && !s.writing)
  }

  /** The router is told exactly of the sessions that closed without sending a close frame. */
  ghost predicate Reported(s: Session, p: Past) { p.notices == 1 <==> s.closed && !SentClose(p.log) }

  /** A close is postponed while the write during which the session ended goes on, and for good if
      that write, the last one, then fails. */
  ghost predicate Postponed(s: Session, link: Link, p: Past) {
    && |FramesOf(p.log)| == |p.results| + (if link.inFlight.Some? then 1 else 0)
    && (p.endedDuring.Some? ==> EndedDuring(s, p, p.endedDuring.value))
    && (p.endedDuring.None? ==> !s.closePending)
  }

  ghost predicate EndedDuring(s: Session, p: Past, n: nat) {
    && s.closed && n < |FramesOf(p.log)| && FramesOf(p.log)[n].kind != CloseFrame
    && (s.writing ==> s.closePending && n == |p.results|)
    && (!s.writing ==> n == |p.results| - 1 && (s.closePending <==> !p.results[n]))
  }

  ghost predicate Inv(st: State) {
    && OneAtATime(st.s, st.link, st.past) && Closing(st.s, st.link, st.past) && CloseIsLast(st.s, st.past)
    && InOrder(st.s, st.past) && Notices(st.s, st.link, st.past) && Settled(st.s, st.past)
    && Reported(st.s, st.past) && Postponed(st.s, st.link, st.past)
  }

  lemma {:induction false} FramesPush(log: seq<Op>, op: Op)
    ensures FramesOf(log + [op]) == FramesOf(log) + if op.Sent? then [op.frame] else []
  {
    assert (log + [op])[..|log|] == log;
  }

  lemma {:induction false} ClosePush(log: seq<Op>, op: Op)
    requires !AnyClose(log)
    ensures AnyClose(log + [op]) <==> IsClose(op)
    ensures forall i | 0 <= i < |log + [op]| - 1 :: !IsClose((log + [op])[i])
  {
    assert (log + [op])[|log|] == op;
    assert forall i | 0 <= i < |log| :: (log + [op])[i] == log[i];
  }

  lemma {:induction false} SentPush(log: seq<Op>, op: Op)
    requires !AnyClose(log)
    ensures !SentClose(log)
    ensures SentClose(log + [op]) <==> IsCloseFrame(op)
  {
    assert (log + [op])[|log|] == op;
    forall i | 0 <= i < |log| ensures !IsCloseFrame(log[i]) && (log + [op])[i] == log[i] {
      assert !IsClose(log[i]);
    }
  }

  lemma {:induction false} NoCloseFrame(log: seq<Op>)
    requires !AnyClose(log)
    ensures forall k | 0 <= k < |FramesOf(log)| :: FramesOf(log)[k].kind != CloseFrame
  {
    if log != [] {
      var before := log[..|log| - 1];
      assert forall i | 0 <= i < |before| :: before[i] == log[i];
      NoCloseFrame(before);
      assert !IsClose(log[|log| - 1]);
    }
  }

  lemma {:induction false} InitInv()
    ensures Inv(INIT)
  {
  }

  /** Closing the stream of a session just closed at rest, or at the end of its last write. */
  lemma {:induction false} CloseStreamInv(st: State, open: bool)
    requires st.s.closed && !st.s.writing && !st.s.closePending && !AnyClose(st.past.log) && st.link.inFlight.None?
    requires !st.link.closing && !st.past.clash && FramesOf(st.past.log) <= st.past.accepted
    requires st.past.notices == 1 && !st.past.registered && st.link.phase != Handshaking && !st.past.shut
    requires Postponed(st.s, st.link, st.past)
    ensures Inv(CloseTheStream(st, open))
  {
    SentPush(st.past.log, StreamClose);
    ClosePush(st.past.log, StreamClose);
    FramesPush(st.past.log, StreamClose);
  }

  /** What holds when a write has ended well, before the next one is started. */
  ghost predicate Between(st: State) {
    && st.link.inFlight.None? && st.s.writing && !st.past.clash && (st.link.closing ==> st.s.closed)
    && (st.s.closePending ==> st.s.closed && !AnyClose(st.past.log) && st.past.notices == 1)
    && !st.link.closing
    && CloseIsLast(st.s, st.past) && InOrder(st.s, st.past) && Notices(st.s, st.link, st.past)
    && (st.s.closed && !st.s.closePending ==> AnyClose(st.past.log)) && !st.past.shut
    && Reported(st.s, st.past) && JustWritten(st.s, st.past)
  }

  /** Every started write is over; if the session ended during the last one, it went well. */
  ghost predicate JustWritten(s: Session, p: Past) {
    && |FramesOf(p.log)| == |p.results|
    && (p.endedDuring.Some? ==>
          && var n := p.endedDuring.value;
             s.closed && n == |p.results| - 1 && p.results[n] && FramesOf(p.log)[n].kind != CloseFrame)
    && (p.endedDuring.None? ==> !s.closePending)
  }

  lemma {:induction false} WriteNextInv(st: State, open: bool)
    requires Between(st)
    ensures Inv(WriteNext(st, open))
  {
    if st.s.closed || st.s.queue == [] {
      if st.s.closePending {
        var stopped := st.(s := st.s.(queue := [], writing := false, closePending := false));
        CloseStreamInv(stopped, open);
      }
    } else {
      var f := st.s.queue[0];
      assert !AnyClose(st.past.log);
      ClosePush(st.past.log, Sent(f));
      SentPush(st.past.log, Sent(f));
      FramesPush(st.past.log, Sent(f));
      assert FramesOf(st.past.log) + [f] + st.s.queue[1..] == FramesOf(st.past.log) + st.s.queue;
    }
  }

  lemma {:induction false} DoCloseInv(st: State, open: bool)
    requires st.link.phase != Handshaking
    requires OneAtATime(st.s, st.link, st.past) && Closing(st.s, st.link, st.past) && CloseIsLast(st.s, st.past)
    requires FramesOf(st.past.log) <= st.past.accepted && Settled(st.s, st.past)
    requires Postponed(st.s, st.link, st.past)
    requires if st.s.closed then Inv(st) else st.past.notices == 0
    ensures Inv(DoClose(st, open))
  {
    if !st.s.closed {
      SentPush(st.past.log, StreamClose);
      NoCloseFrame(st.past.log);
      if !st.s.writing {
        CloseStreamInv(State(st.s.(closed := true, queue := []), st.link, EndPast(st.s, st.past)), open);
      }
    }
  }

  lemma {:induction false} SendInv(st: State, f: Frame)
    requires Inv(st) && Enabled(st, Send(f))
    ensures Inv(Next(st, Send(f)))
  {
    if !st.s.closed {
      var queued := st.(s := st.s.(queue := st.s.queue + [f]), past := st.past.(accepted := st.past.accepted + [f]));
      assert FramesOf(st.past.log) + queued.s.queue == st.past.accepted + [f];
      if !st.s.writing {
        WriteNextInv(queued.(s := queued.s.(writing := true)), true);
      }
    }
  }

  lemma {:induction false} WrittenInv(st: State, ok: bool, open: bool)
    requires Inv(st) && Enabled(st, Written(ok, open))
    ensures Inv(Next(st, Written(ok, open)))
  {
    var done := Completed(st, ok);
    if ok {
      WriteNextInv(done, open);
    } else {
      DoCloseInv(done.(s := done.s.(writing := false)), open);
    }
  }

  lemma {:induction false} StepKeepsInv(st: State, e: Event)
    requires Inv(st) && Enabled(st, e)
    ensures Inv(Next(st, e))
  {
    match e
    case Opened(ok, open) =>
      if !ok {
        DoCloseInv(st.(link := st.link.(phase := Ended)), open);
      }
    case Send(f) => SendInv(st, f);
    case Written(ok, open) => WrittenInv(st, ok, open);
    case ReadFailed(open) => DoCloseInv(st.(link := st.link.(phase := Ended)), open);
    case StreamClosed =>
  }

  // ---- Runs -----------------------------------------------------------------------

  ghost predicate CanRun(st: State, es: seq<Event>)
    decreases |es|
  {
    es == [] || (Enabled(st, es[0]) && CanRun(Next(st, es[0]), es[1..]))
  }

  ghost function Run(st: State, es: seq<Event>): State
    requires CanRun(st, es)
    decreases |es|
  {
    if es == [] then st else Run(Next(st, es[0]), es[1..])
  }

  lemma {:induction false} RunKeepsInv(st: State, es: seq<Event>)
    requires Inv(st) && CanRun(st, es)
    ensures Inv(Run(st, es))
    decreases |es|
  {
    if es != [] {
      StepKeepsInv(st, es[0]);
      RunKeepsInv(Next(st, es[0]), es[1..]);
    }
  }

  /** Every run: `writing_` tells exactly whether a frame is in flight, no operation is ever
      started beside another, frames leave in the order they were queued in, at most one close
      is started and nothing after it, and the router is notified at most once. */
  lemma {:induction false} CloseProtocol(es: seq<Event>)
    requires CanRun(INIT, es)
    ensures
      var st := Run(INIT, es);
      && (st.s.writing <==> st.link.inFlight.Some?) && !st.past.clash
      && FramesOf(st.past.log) <= st.past.accepted
      && (forall i | 0 <= i < |st.past.log| - 1 :: !IsClose(st.past.log[i]))
      && (st.s.closePending ==> st.s.closed)
      && st.past.notices <= 1
  {
    InitInv();
    RunKeepsInv(INIT, es);
  }

  /** While the session is open and idle, everything queued has been handed to the stream. */
  lemma {:induction false} IdleHasSentAll(es: seq<Event>)
    requires CanRun(INIT, es) && !Run(INIT, es).s.closed && !Run(INIT, es).s.writing
    ensures FramesOf(Run(INIT, es).past.log) == Run(INIT, es).past.accepted
  {
    InitInv();
    RunKeepsInv(INIT, es);
    var st := Run(INIT, es);
    assert FramesOf(st.past.log) + [] == FramesOf(st.past.log);
  }

  /** A closed session at rest has closed its stream exactly if the stream was not found shut and
      no close is left postponed. */
  lemma {:induction false} ClosedAtRest(es: seq<Event>)
    requires CanRun(INIT, es) && Run(INIT, es).s.closed && !Run(INIT, es).s.writing
    ensures var st := Run(INIT, es); AnyClose(st.past.log) <==> !st.past.shut && !st.s.closePending
  {
    InitInv();
    RunKeepsInv(INIT, es);
  }

  /** From a closed session at rest no operation is ever started again: in particular, a close
      that a failed write left postponed is never issued. */
  lemma {:induction false} RestIsFinal(st: State, es: seq<Event>)
    requires Inv(st) && CanRun(st, es) && st.s.closed && !st.s.writing
    ensures var t := Run(st, es); t.past.log == st.past.log && t.s.closePending == st.s.closePending && t.s.closed
    decreases |es|
  {
    if es != [] {
      StepKeepsInv(st, es[0]);
      RestIsFinal(Next(st, es[0]), es[1..]);
    }
  }

  /** A close stays postponed exactly if the session ended during the write of a frame, which was
      no close frame, and that write then failed. It was the last write. */
  lemma {:induction false} PostponedForGood(es: seq<Event>)
    requires CanRun(INIT, es) && Run(INIT, es).s.closed && !Run(INIT, es).s.writing
    ensures
      var p := Run(INIT, es).past;
      && |FramesOf(p.log)| == |p.results|
      && (p.endedDuring.Some? ==>
            p.endedDuring.value == |p.results| - 1 && FramesOf(p.log)[p.endedDuring.value].kind != CloseFrame)
      && (Run(INIT, es).s.closePending <==> p.endedDuring.Some? && !p.results[p.endedDuring.value])
  {
    InitInv();
    RunKeepsInv(INIT, es);
  }

  /** That happens: a text is being written, reading fails, and so does the write. */
  lemma {:induction false} ClosePostponedForGood(f: Frame, open: bool)
    requires f.kind == TextFrame
    ensures
      var es := [Opened(true, true), Send(f), ReadFailed(open), Written(false, open)];
      && CanRun(INIT, es)
      && var st := Run(INIT, es);
         st.s.closed && !st.s.writing && st.s.closePending && !AnyClose(st.past.log) && !st.past.shut
  {
    var a, b, c, d := Opened(true, true), Send(f), ReadFailed(open), Written(false, open);
    var st := Next(Next(INIT, a), b);
    assert st.s.writing && st.link.inFlight == Some(f) && !st.s.closed;
    RunTwo(st, c, d);
    RunFirst(Next(INIT, a), b, [c, d]);
    RunFirst(INIT, a, [b] + [c, d]);
    assert [a] + ([b] + [c, d]) == [a, b, c, d];
    assert st.past.log == [Sent(f)];
  }

  /** Of the closed sessions exactly those are reported, once, and taken out of the registry, that
      did not send a close frame. */
  lemma {:induction false} ReportedIff(es: seq<Event>)
    requires CanRun(INIT, es) && Run(INIT, es).s.closed
    ensures var p := Run(INIT, es).past;
      if SentClose(p.log) then p.notices == 0 && p.registered else p.notices == 1 && !p.registered
  {
    InitInv();
    RunKeepsInv(INIT, es);
  }

  /** A session that closes itself with a queued close frame is never reported as closed, and
      stays in the registry. */
  lemma {:induction false} SelfCloseIsSilent(st: State, es: seq<Event>)
    requires Inv(st) && CanRun(st, es) && SentClose(st.past.log)
    ensures var t := Run(st, es); t.s.closed && t.past.notices == 0 && t.past.registered
    decreases |es|
  {
    if es != [] {
      StepKeepsInv(st, es[0]);
      SelfCloseIsSilent(Next(st, es[0]), es[1..]);
    }
  }

  /** Such sessions exist: opening and then sending a close frame is enough. */
  lemma {:induction false} SelfCloseHappens(f: Frame)
    requires f.kind == CloseFrame
    ensures var es := [Opened(true, true), Send(f)];
      CanRun(INIT, es) && Run(INIT, es).s.closed && SentClose(Run(INIT, es).past.log)
  {
    var a, b := Opened(true, true), Send(f);
    RunTwo(INIT, a, b);
    assert Run(INIT, [a, b]).past.log == [Sent(f)];
    assert IsCloseFrame([Sent(f)][0]);
  }

  lemma {:induction false} RunFirst(st: State, e: Event, es: seq<Event>)
    requires Enabled(st, e) && CanRun(Next(st, e), es)
    ensures CanRun(st, [e] + es) && Run(st, [e] + es) == Run(Next(st, e), es)
  {
    assert ([e] + es)[1..] == es;
  }

  lemma {:induction false} RunTwo(st: State, a: Event, b: Event)
    requires Enabled(st, a) && Enabled(Next(st, a), b)
    ensures CanRun(st, [a, b]) && Run(st, [a, b]) == Next(Next(st, a), b)
  {
    RunFirst(Next(st, a), b, []);
    RunFirst(st, a, [b]);
    assert [a] + [b] == [a, b] && [b] + [] == [b];
  }

  // ---- Fragments of long messages ----------------------------------------------------

  const FRAGMENT_SIZE: nat := 16 * 1024

  /** The buffers of a long message: together the payload, each full but the last. */
  method Fragments(payload: string) returns (parts: seq<string>)
    ensures Flatten(parts) == payload
    ensures forall i | 0 <= i < |parts| :: 0 < |parts[i]| <= 16384
    ensures forall i | 0 <= i < |parts| - 1 :: |parts[i]| == 16384
  {
    parts := [];
    var offset := 0;
    while offset < |payload|
      invariant offset <= |payload| && Flatten(parts) == payload[..offset]
      invariant forall i | 0 <= i < |parts| :: 0 < |parts[i]| <= FRAGMENT_SIZE
      invariant forall i | 0 <= i < |parts| :: |parts[i]| == FRAGMENT_SIZE || offset == |payload|
      invariant forall i | 0 <= i < |parts| - 1 :: |parts[i]| == FRAGMENT_SIZE
    {
      var size := Min(FRAGMENT_SIZE, |payload| - offset);
      FlattenPush(parts, payload[offset..offset + size]);
      assert payload[..offset] + payload[offset..offset + size] == payload[..offset + size];
      parts := parts + [payload[offset..offset + size]];
      offset := offset + size;
    }
    assert payload[..|payload|] == payload;
  }

  // ---- The class -------------------------------------------------------------------

  /** The session object; ghost fields hold the stream and the history. Each method is told
      what the stream answers when asked whether it is open. */
  class WebsocketSession {
    var queue: seq<Frame>
    var writing: bool
    var closed: bool
    var closePending: bool

    ghost var link: Link
    ghost var past: Past

    ghost function View(): State
      reads this
    {
      State(Session(queue, writing, closed, closePending), link, past)
    }

    constructor ()
      ensures View() == INIT
    {
      queue, writing, closed, closePending := [], false, false, false;
      link, past := Link(Handshaking, None, false), Past([], [], false, [], None, 0, false, false);
    }

    /** Starting an operation on the stream. */
    ghost method Start(op: Op)
      modifies this`link, this`past
      ensures past == Begin(old(link), old(past), op)
      ensures link == if op.Sent? then old(link).(inFlight := Some(op.frame)) else old(link).(closing := true)
    {
      past := Begin(link, past, op);
      link := if op.Sent? then link.(inFlight := Some(op.frame)) else link.(closing := true);
    }

    method CloseStream(open: bool)
      modifies this`link, this`past
      ensures View() == CloseTheStream(old(View()), open)
      ensures open ==> link.closing && past.log == old(past).log + [StreamClose] && past.shut == old(past).shut
      ensures !open ==> past.shut && link == old(link) && past.log == old(past).log
    {
      if !open {
        past := past.(shut := true);
        return;
      }
      Start(StreamClose);
    }

    method DoWriteNext(open: bool)
      modifies this
      ensures View() == WriteNext(old(View()), open)
      ensures !old(closed) && old(queue) != [] ==>
                queue == old(queue)[1..] && link.inFlight == Some(old(queue)[0]) && past.log == old(past).log + [Sent(old(queue)[0])]
      ensures old(closed) || old(queue) == [] ==> !writing && !closePending && queue == []
    {
      if closed || queue == [] {
        queue := [];
        writing := false;
        if closePending {
          closePending := false;
          CloseStream(open);
        }
        return;
      }
      var frame := queue[0];
      queue := queue[1..];
      closed := frame.kind == CloseFrame;
      Start(Sent(frame));
    }

    /** The posted part of `send_frame`. */
    method SendFrame(frame: Frame)
      requires Enabled(View(), Send(frame))
      modifies this
      ensures View() == Next(old(View()), Send(frame))
      ensures past.accepted == if old(closed) then old(past).accepted else old(past).accepted + [frame]
      ensures !old(closed) && old(writing) ==> queue == old(queue) + [frame] && link == old(link)
    {
      if closed {
        return;
      }
      queue := queue + [frame];
      past := past.(accepted := past.accepted + [frame]);
      if !writing {
        writing := true;
        DoWriteNext(true);
      }
    }

    method OnWrite(ok: bool, open: bool)
      requires Enabled(View(), Written(ok, open))
      modifies this
      ensures View() == Next(old(View()), Written(ok, open))
      ensures !ok ==> closed && !writing
    {
      link := link.(inFlight := None);
      past := past.(results := past.results + [ok]);
      if !ok {
        writing := false;
        EndSession(open);
        return;
      }
      DoWriteNext(open);
    }

    /** `do_close`. */
    method EndSession(open: bool)
      modifies this
      ensures View() == DoClose(old(View()), open) && closed
      ensures !old(closed) ==> queue == [] && past.notices == old(past).notices + 1 && !past.registered
      ensures !old(closed) ==> closePending == (old(closePending) || old(writing))
    {
      if closed {
        return;
      }
      closed := true;
      queue := [];
      past := EndPast(View().s, past);
      if writing {
        closePending := true;
        return;
      }
      CloseStream(open);
    }

    method OnReadFailed(open: bool)
      requires Enabled(View(), ReadFailed(open))
      modifies this
      ensures View() == Next(old(View()), ReadFailed(open)) && closed
    {
      link := link.(phase := Ended);
      EndSession(open);
    }

    method OnHandshake(ok: bool, open: bool)
      requires Enabled(View(), Opened(ok, open))
      modifies this
      ensures View() == Next(old(View()), Opened(ok, open))
      ensures if ok then past.registered && link.phase == Reading && closed == old(closed) else closed
    {
      if !ok {
        link := link.(phase := Ended);
        EndSession(open);
        return;
      }
      link := link.(phase := Reading);
      past := past.(registered := true);
    }
  }
}
