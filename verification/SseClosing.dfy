/** What a run of the SSE session (framework/sse/sse_session.cpp) comes to: when it starts, when it
    ends and with which error, and that closing it leads to a finished stream. */
module SseClosing {
  import opened Basics
  import opened SseSession

  // ---- The flags of a run --------------------------------------------------------

  /** The completions and calls that end a session. */
  predicate Ends(a: Action) {
    a.FinishDone? || a.Abort? || (a.StartDone? && a.ec != 0) || (a.WriteDone? && a.ec != 0)
  }

  predicate SomeEnds(actions: seq<Action>) { exists i | 0 <= i < |actions| :: Ends(actions[i]) }

  /** The error of the first action that ends a session. */
  function FirstError(actions: seq<Action>): Ec
    requires SomeEnds(actions)
  {
    if Ends(actions[0]) then actions[0].ec
    else
      assert forall i | 0 < i < |actions| :: actions[i] == actions[1..][i - 1];
      FirstError(actions[1..])
  }

  lemma {:induction false} StepFlags(s: State, a: Action)
    requires Enabled(s, a)
    ensures
      var f, g := s.flags, Next(s, a).flags;
      && (g.closing <==> f.closing || a.Close?)
      && (g.started <==> f.started || a == StartDone(0))
      && (g.closed <==> f.closed || Ends(a))
      && (g.startRequested <==> f.startRequested || (a.Start? && !f.closed))
      && (a.Start? && !f.closed && !f.startRequested ==> g.starting)
      && (!a.StartDone? && f.starting ==> g.starting)
  {
  }

  lemma {:induction false} StepError(s: State, a: Action)
    requires Enabled(s, a)
    ensures Next(s, a).hooks.closeError == if !s.flags.closed && Ends(a) then a.ec else s.hooks.closeError
  {
  }

  lemma {:induction false} EndsFirst(actions: seq<Action>)
    requires actions != []
    ensures SomeEnds(actions) <==> Ends(actions[0]) || SomeEnds(actions[1..])
  {
    assert forall i | 0 < i < |actions| :: actions[i] == actions[1..][i - 1];
  }

  lemma {:induction false} InFirst(a: Action, actions: seq<Action>)
    requires actions != []
    ensures a in actions <==> a == actions[0] || a in actions[1..]
  {
    assert actions == [actions[0]] + actions[1..];
  }

  /** In every run: a session is closing if and only if it was told to, started if and only if the
      response started, and ended if and only if something ended it. */
  lemma {:induction false} RunFlags(s: State, actions: seq<Action>, t: State)
    requires Run(s, actions, t)
    ensures t.flags.closing <==> s.flags.closing || Close in actions
    ensures t.flags.started <==> s.flags.started || StartDone(0) in actions
    ensures t.flags.closed <==> s.flags.closed || SomeEnds(actions)
    decreases |actions|
  {
    if actions != [] {
      StepFlags(s, actions[0]);
      InFirst(Close, actions);
      InFirst(StartDone(0), actions);
      EndsFirst(actions);
      RunFlags(Next(s, actions[0]), actions[1..], t);
    }
  }

  /** An ended session keeps the error of whatever ended it first. */
  lemma {:induction false} RunError(s: State, actions: seq<Action>, t: State)
    requires Run(s, actions, t) && !s.flags.closed && SomeEnds(actions)
    ensures t.hooks.closeError == FirstError(actions)
    decreases |actions|
  {
    var a := actions[0];
    StepFlags(s, a);
    StepError(s, a);
    EndsFirst(actions);
    if Ends(a) {
      ErrorStays(Next(s, a), actions[1..], t);
    } else {
      RunError(Next(s, a), actions[1..], t);
    }
  }

  lemma {:induction false} ErrorStays(s: State, actions: seq<Action>, t: State)
    requires Run(s, actions, t) && s.flags.closed
    ensures t.hooks.closeError == s.hooks.closeError
    decreases |actions|
  {
    if actions != [] {
      StepFlags(s, actions[0]);
      StepError(s, actions[0]);
      ErrorStays(Next(s, actions[0]), actions[1..], t);
    }
  }

  /** Once an open session was asked to start, the response has started or its start is due. */
  lemma {:induction false} StartIsDue(s: State, actions: seq<Action>, t: State)
    requires Run(s, actions, t) && !t.flags.closed
    requires s.flags.startRequested ==> s.flags.started || s.flags.starting
    requires s.flags.startRequested || Start in actions
    ensures t.flags.started || Enabled(t, StartDone(0))
    decreases |actions|
  {
    if actions != [] {
      var a := actions[0];
      StepFlags(s, a);
      InFirst(Start, actions);
      RunFlags(Next(s, a), actions[1..], t);
      StartIsDue(Next(s, a), actions[1..], t);
    }
  }

  // ---- Coming to rest ----------------------------------------------------------------

  predicate AtRest(s: State) { s.owed == 0 && s.writer.op.Idle? }

  /** The step that the writer can take, with success, unless it is at rest. */
  function Move(s: State): (a: Action)
    requires !AtRest(s)
    ensures Enabled(s, a) && Internal(a) && (a.WriteDone? || a.FinishDone? ==> a.ec == 0)
  {
    match s.writer.op
    case Idle => WriteNext
    case Decided(_) => Issue
    case Issued(Write(value)) => WriteDone(0, |value|)
    case Issued(Finish) => FinishDone(0)
  }

  lemma {:induction false} StepReachable(s: State, a: Action)
    requires Reachable(s) && Enabled(s, a)
    ensures Reachable(Next(s, a))
  {
    var actions :| Run(Init(s.limit), actions, s);
    RunOn(Init(s.limit), actions, s, [a], Next(s, a));
  }

  lemma {:induction false} RunOn(s: State, a: seq<Action>, t: State, b: seq<Action>, u: State)
    requires Run(s, a, t) && Run(t, b, u)
    ensures Run(s, a + b, u)
    decreases |a|
  {
    if a == [] {
      assert a + b == b;
    } else {
      RunOn(Next(s, a[0]), a[1..], t, b, u);
      assert (a + b)[1..] == a[1..] + b;
    }
  }

  predicate AllMoves(actions: seq<Action>) {
    forall i | 0 <= i < |actions| ::
      Internal(actions[i]) && (actions[i].WriteDone? || actions[i].FinishDone? ==> actions[i].ec == 0)
  }

  /** From every reachable state the writer alone comes to rest, with every operation succeeding. */
  lemma {:induction false} Drains(s: State) returns (actions: seq<Action>, t: State)
    requires Reachable(s)
    ensures Run(s, actions, t) && AllMoves(actions) && AtRest(t)
    decreases Work(s)
  {
    if AtRest(s) {
      actions, t := [], s;
    } else {
      var a := Move(s);
      WriterComesToRest(s, a);
      StepReachable(s, a);
      actions, t := Drains(Next(s, a));
      assert ([a] + actions)[1..] == actions;
      actions := [a] + actions;
    }
  }

  // ---- Closing ------------------------------------------------------------------------

  /** No operation failed and nobody aborted. */
  predicate Graceful(actions: seq<Action>) {
    forall i | 0 <= i < |actions| :: Ends(actions[i]) ==> actions[i].FinishDone?
  }

  lemma {:induction false} FinishStays(s: State, actions: seq<Action>, t: State)
    requires Run(s, actions, t) && s.past.finishIssued
    ensures t.past.finishIssued
    decreases |actions|
  {
    if actions != [] {
      FinishStays(Next(s, actions[0]), actions[1..], t);
    }
  }

  lemma {:induction false} FinishedByIssue(s: State, actions: seq<Action>, t: State)
    requires Inv(s) && Run(s, actions, t) && Graceful(actions) && !s.flags.closed && t.flags.closed
    ensures t.past.finishIssued
    decreases |actions|
  {
    if actions != [] {
      var a := actions[0];
      StepKeepsInv(s, a);
      StepFlags(s, a);
      if Ends(a) {
        FinishStays(s, actions, t);
      } else {
        assert forall i | 0 < i < |actions| :: actions[i] == actions[1..][i - 1];
        FinishedByIssue(Next(s, a), actions[1..], t);
      }
    }
  }

  /** Closing ends a session: in every run in which the response started and the session was told to
      close, a session at rest has ended. If no operation failed and nobody aborted, the stream
      was asked to finish, and the wire holds exactly the accepted values. */
  lemma {:induction false} ClosingEnds(limit: nat, actions: seq<Action>, s: State)
    requires limit < UINT64_LIMIT && Run(Init(limit), actions, s)
    requires StartDone(0) in actions && Close in actions && AtRest(s)
    ensures s.flags.closed
    ensures Graceful(actions) ==> s.past.finishIssued && s.past.wire == Flatten(s.past.sent)
  {
    RunFlags(Init(limit), actions, s);
    LimitKept(Init(limit), actions, s);
    if !s.flags.closed {
      NoLostWakeup(s);
    }
    if Graceful(actions) {
      FinishedByIssue(Init(limit), actions, s);
      OrderedDelivery(s);
    }
  }

  lemma {:induction false} LimitKept(s: State, actions: seq<Action>, t: State)
    requires Run(s, actions, t)
    ensures t.limit == s.limit
    decreases |actions|
  {
    if actions != [] {
      LimitKept(Next(s, actions[0]), actions[1..], t);
    }
  }

  /** Closing can always be carried out: from any state of a started, open session, however busy, a
      call of `close` and successful operations lead to a finished stream with everything that
      was accepted before, and nothing else. */
  lemma {:induction false} CloseLeadsToFinish(s: State) returns (actions: seq<Action>, t: State)
    requires Reachable(s) && s.flags.started && !s.flags.closed
    ensures Run(s, [Close] + actions, t) && AllMoves(actions)
    ensures t.flags.closed && t.past.finishIssued && t.past.wire == Flatten(s.past.sent)
  {
    var closing := Next(s, Close);
    StepReachable(s, Close);
    actions, t := Drains(closing);
    assert ([Close] + actions)[1..] == actions;
    RunFlags(closing, actions, t);
    MovesReach(closing, actions, t);
    if !t.flags.closed {
      NoLostWakeup(t);
    }
    ReachableInv(closing);
    MovesAreGraceful(actions);
    FinishedByIssue(closing, actions, t);
    OrderedDelivery(t);
    MovesSendNothing(closing, actions, t);
  }

  lemma {:induction false} MovesReach(s: State, actions: seq<Action>, t: State)
    requires Reachable(s) && Run(s, actions, t)
    ensures Reachable(t)
    decreases |actions|
  {
    if actions != [] {
      StepReachable(s, actions[0]);
      MovesReach(Next(s, actions[0]), actions[1..], t);
    }
  }

  lemma {:induction false} MovesAreGraceful(actions: seq<Action>)
    requires AllMoves(actions)
    ensures Graceful(actions)
  {
  }

  lemma {:induction false} MovesSendNothing(s: State, actions: seq<Action>, t: State)
    requires Run(s, actions, t) && AllMoves(actions)
    ensures t.past.sent == s.past.sent
    decreases |actions|
  {
    if actions != [] {
      assert forall i | 0 < i < |actions| :: actions[i] == actions[1..][i - 1];
      MovesSendNothing(Next(s, actions[0]), actions[1..], t);
    }
  }

  /** A value is accepted if and only if the session is open and the queue, with it, fits the limit. */
  lemma {:induction false} AcceptsIff(s: State, size: nat)
    requires Reachable(s)
    ensures Accepts(s, size) <==> !s.flags.closing && !s.flags.closed && TotalSize(s.writer.queue) + size <= s.limit
  {
    ReachableInv(s);
  }
}
