/** What a run of a WebSocket session (framework/websocket/websocket_session.cpp) comes to: which
    frames were taken from its callers, when it is closed, and when its stream is. */
module WebSocketRuns {
  import opened Basics
  import opened WebSocket

  // ---- The frames taken ----------------------------------------------------------

  /** The frames of the sends that found the session open, in order. */
  ghost function Taken(st: State, es: seq<Event>): seq<Frame>
    requires CanRun(st, es)
    decreases |es|
  {
    if es == [] then []
    else (if es[0].Send? && !st.s.closed then [es[0].frame] else []) + Taken(Next(st, es[0]), es[1..])
  }

  lemma {:induction false} StepTakes(st: State, e: Event)
    requires Enabled(st, e)
    ensures Next(st, e).past.accepted ==
            st.past.accepted + if e.Send? && !st.s.closed then [e.frame] else []
  {
  }

  lemma {:induction false} RunTakes(st: State, es: seq<Event>)
    requires CanRun(st, es)
    ensures Run(st, es).past.accepted == st.past.accepted + Taken(st, es)
    decreases |es|
  {
    if es == [] {
      assert st.past.accepted + [] == st.past.accepted;
    } else {
      StepTakes(st, es[0]);
      RunTakes(Next(st, es[0]), es[1..]);
      Associate(st.past.accepted, if es[0].Send? && !st.s.closed then [es[0].frame] else [],
                Taken(Next(st, es[0]), es[1..]));
    }
  }

  /** In every run the stream is given a prefix of the frames that were sent while the session was
      open, in their order; an open session that is not writing has been given all of them. */
  lemma {:induction false} TakenAreWritten(es: seq<Event>)
    requires CanRun(INIT, es)
    ensures var t := Run(INIT, es);
      && FramesOf(t.past.log) <= Taken(INIT, es)
      && (!t.s.closed && !t.s.writing ==> FramesOf(t.past.log) == Taken(INIT, es))
  {
    RunTakes(INIT, es);
    assert [] + Taken(INIT, es) == Taken(INIT, es);
    CloseProtocol(es);
    if !Run(INIT, es).s.closed && !Run(INIT, es).s.writing {
      IdleHasSentAll(es);
    }
  }

  // ---- When a session is closed --------------------------------------------------------

  /** A failed handshake, a failed read, or a failed write. */
  predicate Fails(e: Event) { (e.Opened? && !e.ok) || (e.Written? && !e.ok) || e.ReadFailed? }

  predicate SomeFails(es: seq<Event>) { exists i | 0 <= i < |es| :: Fails(es[i]) }

  lemma {:induction false} FailsFirst(es: seq<Event>)
    requires es != []
    ensures SomeFails(es) <==> Fails(es[0]) || SomeFails(es[1..])
  {
    assert forall i | 0 < i < |es| :: es[i] == es[1..][i - 1];
  }

  lemma {:induction false} SentOn(log: seq<Op>, op: Op)
    ensures SentClose(log + [op]) <==> SentClose(log) || IsCloseFrame(op)
  {
    assert (log + [op])[|log|] == op;
    assert forall i | 0 <= i < |log| :: (log + [op])[i] == log[i];
  }

  lemma {:induction false} CloseStreamSends(st: State, open: bool)
    ensures var t := CloseTheStream(st, open); t.s == st.s && (SentClose(t.past.log) <==> SentClose(st.past.log))
  {
    SentOn(st.past.log, StreamClose);
  }

  lemma {:induction false} WriteNextCloses(st: State, open: bool)
    ensures
      var t := WriteNext(st, open);
      && (t.s.closed ==> st.s.closed || SentClose(t.past.log)) && (st.s.closed ==> t.s.closed)
      && (SentClose(st.past.log) ==> SentClose(t.past.log))
      && (SentClose(t.past.log) && !SentClose(st.past.log) ==> t.s.closed)
  {
    if st.s.closed || st.s.queue == [] {
      CloseStreamSends(st.(s := st.s.(queue := [], writing := false, closePending := false)), open);
    } else {
      SentOn(st.past.log, Sent(st.s.queue[0]));
    }
  }

  lemma {:induction false} DoCloseCloses(st: State, open: bool)
    ensures var t := DoClose(st, open); t.s.closed && (SentClose(t.past.log) <==> SentClose(st.past.log))
  {
    CloseStreamSends(State(st.s.(closed := true, queue := [], closePending := st.s.closePending || st.s.writing), st.link,
                           EndPast(st.s, st.past)), open);
  }

  lemma {:induction false} StepCloses(st: State, e: Event)
    requires Inv(st) && Enabled(st, e)
    ensures
      var t := Next(st, e);
      && (t.s.closed <==> st.s.closed || Fails(e) || SentClose(t.past.log))
      && (SentClose(st.past.log) ==> SentClose(t.past.log))
  {
    StepKeepsInv(st, e);
    match e
    case Opened(ok, open) => DoCloseCloses(st.(link := st.link.(phase := Ended)), open);
    case Send(f) =>
      var queued := st.(s := st.s.(queue := st.s.queue + [f]), past := st.past.(accepted := st.past.accepted + [f]));
      WriteNextCloses(queued.(s := queued.s.(writing := true)), true);
    case Written(ok, open) =>
      WriteNextCloses(Completed(st, ok), open);
      DoCloseCloses(Completed(st, ok).(s := Completed(st, ok).s.(writing := false)), open);
    case ReadFailed(open) => DoCloseCloses(st.(link := st.link.(phase := Ended)), open);
    case StreamClosed =>
  }

  lemma {:induction false} RunCloses(st: State, es: seq<Event>)
    requires Inv(st) && CanRun(st, es)
    ensures var t := Run(st, es);
      && (t.s.closed <==> st.s.closed || SomeFails(es) || SentClose(t.past.log))
      && (SentClose(st.past.log) ==> SentClose(t.past.log))
    decreases |es|
  {
    if es != [] {
      StepCloses(st, es[0]);
      StepKeepsInv(st, es[0]);
      FailsFirst(es);
      RunCloses(Next(st, es[0]), es[1..]);
    }
  }

  /** In every run: a session is closed if and only if its handshake, a read or a write failed, or it
      sent a close frame. */
  lemma {:induction false} ClosedIff(es: seq<Event>)
    requires CanRun(INIT, es)
    ensures Run(INIT, es).s.closed <==> SomeFails(es) || SentClose(Run(INIT, es).past.log)
  {
    InitInv();
    RunCloses(INIT, es);
  }

  // ---- When its stream is ------------------------------------------------------------------

  /** Whenever it was asked, the stream said that it was open; and no write failed. */
  predicate Smooth(e: Event) { e.Send? || e.StreamClosed? || (e.open && (e.Written? ==> e.ok)) }

  lemma {:induction false} StepSmooth(st: State, e: Event)
    requires Enabled(st, e) && Smooth(e) && !st.past.shut
    requires forall i | 0 <= i < |st.past.results| :: st.past.results[i]
    ensures !Next(st, e).past.shut
    ensures forall i | 0 <= i < |Next(st, e).past.results| :: Next(st, e).past.results[i]
  {
  }

  lemma {:induction false} RunSmooth(st: State, es: seq<Event>)
    requires CanRun(st, es) && !st.past.shut && forall i | 0 <= i < |es| :: Smooth(es[i])
    requires forall i | 0 <= i < |st.past.results| :: st.past.results[i]
    ensures var t := Run(st, es); !t.past.shut && forall i | 0 <= i < |t.past.results| :: t.past.results[i]
    decreases |es|
  {
    if es != [] {
      StepSmooth(st, es[0]);
      assert forall i | 0 < i < |es| :: es[i] == es[1..][i - 1];
      RunSmooth(Next(st, es[0]), es[1..]);
    }
  }

  /** If no write failed and the stream never said that it was shut, a closed session that is not
      writing has closed its stream or sent a close frame. */
  lemma {:induction false} StreamIsClosed(es: seq<Event>)
    requires CanRun(INIT, es) && (forall i | 0 <= i < |es| :: Smooth(es[i]))
    requires Run(INIT, es).s.closed && !Run(INIT, es).s.writing
    ensures AnyClose(Run(INIT, es).past.log)
  {
    RunSmooth(INIT, es);
    ClosedAtRest(es);
    PostponedForGood(es);
  }

  // ---- Everything queued can be written -----------------------------------------------------

  lemma {:induction false} WritesGoOn(st: State) returns (es: seq<Event>)
    requires Inv(st)
    ensures CanRun(st, es) && (forall i | 0 <= i < |es| :: es[i] == Written(true, true)) && !Run(st, es).s.writing
    ensures !st.s.closed ==> Run(st, es).past.accepted == st.past.accepted
    decreases |st.s.queue| + (if st.s.writing then 1 else 0)
  {
    if !st.s.writing {
      es := [];
    } else {
      var e := Written(true, true);
      StepKeepsInv(st, e);
      es := WritesGoOn(Next(st, e));
      RunFirst(st, e, es);
      StepTakes(st, e);
      MoreWrites(Next(st, e), es);
      es := [e] + es;
    }
  }

  lemma {:induction false} MoreWrites(st: State, es: seq<Event>)
    requires CanRun(st, es) && forall i | 0 <= i < |es| :: es[i] == Written(true, true)
    ensures Run(st, es).past.accepted == st.past.accepted
    decreases |es|
  {
    if es != [] {
      StepTakes(st, es[0]);
      assert forall i | 0 < i < |es| :: es[i] == es[1..][i - 1];
      MoreWrites(Next(st, es[0]), es[1..]);
    }
  }

  /** From every state of an open session successful writes lead to one in which every queued frame
      was given to the stream, or a close frame was. */
  lemma {:induction false} QueueDrains(st: State) returns (es: seq<Event>)
    requires Inv(st) && !st.s.closed
    ensures CanRun(st, es) && forall i | 0 <= i < |es| :: es[i] == Written(true, true)
    ensures
      var t := Run(st, es);
      FramesOf(t.past.log) == st.past.accepted || SentClose(t.past.log)
  {
    es := WritesGoOn(st);
    RunKeepsInv(st, es);
    RunCloses(st, es);
    var t := Run(st, es);
    if !t.s.closed {
      assert FramesOf(t.past.log) + [] == FramesOf(t.past.log);
    }
  }
}
