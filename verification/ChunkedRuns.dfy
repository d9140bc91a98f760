/** What a run of the chunked writer (framework/session/http_session.cpp) comes to: the buffers for
    which `write_chunk` answered true are the body that the recipient decodes. */
module ChunkedRuns {
  import opened Basics
  import opened ChunkedCoding
  import opened ChunkedResponse

  // ---- The answers of a run ------------------------------------------------------

  /** A run from `s` to `t` in which exactly the pushes of `accepted` were answered true before the
      last chunk was pushed, and those of `late` after that; `final` says whether it was before. */
  ghost predicate PushRun(s: State, final: bool, actions: seq<Action>, t: State, accepted: seq<string>, late: seq<string>)
    decreases |actions|
  {
    if actions == [] then s == t && accepted == [] && late == []
    else
      var a, rest := actions[0], actions[1..];
      && Enabled(s, a)
      && var next := Next(s, a);
         if !a.Push? || s.w.error != 0 then PushRun(next, final || a.PushFinal?, rest, t, accepted, late)
         else if final then late != [] && late[0] == a.buffer && PushRun(next, final, rest, t, accepted, late[1..])
         else accepted != [] && accepted[0] == a.buffer && PushRun(next, final, rest, t, accepted[1..], late)
  }

  lemma {:induction false} StepAccepts(s: State, a: Action)
    requires Enabled(s, a)
    ensures
      var p, q, ok := s.past, Next(s, a).past, a.Push? && s.w.error == 0;
      && q.accepted == (if ok && !s.w.finalQueued then p.accepted + [a.buffer] else p.accepted)
      && q.late == (if ok && s.w.finalQueued then p.late + [a.buffer] else p.late)
    ensures Next(s, a).w.finalQueued <==> s.w.finalQueued || a.PushFinal?
    ensures Next(s, a).w.error == if a.WriteDone? && a.ec != 0 then a.ec else s.w.error
  {
  }

  lemma {:induction false} Cons(before: seq<string>, values: seq<string>)
    requires values != []
    ensures (before + [values[0]]) + values[1..] == before + values
  {
  }

  /** What is accepted in a run are the buffers whose push was answered true. */
  lemma {:induction false} PushRunIsRun(s: State, final: bool, actions: seq<Action>, t: State, accepted: seq<string>, late: seq<string>)
    requires PushRun(s, final, actions, t, accepted, late) && final == s.w.finalQueued
    ensures Run(s, actions, t)
    ensures t.past.accepted == s.past.accepted + accepted && t.past.late == s.past.late + late
    decreases |actions|
  {
    if actions == [] {
      assert s.past.accepted + [] == s.past.accepted && s.past.late + [] == s.past.late;
    } else {
      var a := actions[0];
      StepAccepts(s, a);
      if !a.Push? || s.w.error != 0 {
        PushRunIsRun(Next(s, a), final || a.PushFinal?, actions[1..], t, accepted, late);
      } else if final {
        PushRunIsRun(Next(s, a), final, actions[1..], t, accepted, late[1..]);
        Cons(s.past.late, late);
      } else {
        PushRunIsRun(Next(s, a), final, actions[1..], t, accepted[1..], late);
        Cons(s.past.accepted, accepted);
      }
    }
  }

  /** Every run has its answers. */
  lemma {:induction false} RunAnswers(s: State, final: bool, actions: seq<Action>, t: State)
    returns (accepted: seq<string>, late: seq<string>)
    requires Run(s, actions, t)
    ensures PushRun(s, final, actions, t, accepted, late)
    decreases |actions|
  {
    if actions == [] {
      accepted, late := [], [];
    } else {
      var a := actions[0];
      accepted, late := RunAnswers(Next(s, a), final || a.PushFinal?, actions[1..], t);
      if a.Push? && s.w.error == 0 {
        assert ([a.buffer] + late)[1..] == late && ([a.buffer] + accepted)[1..] == accepted;
        if final {
          late := [a.buffer] + late;
        } else {
          accepted := [a.buffer] + accepted;
        }
      }
    }
  }

  /** End to end: once success was reported, what the recipient decodes are the buffers for which
      `write_chunk` answered true before the handler returned, up to the first empty one; so all
      of them if and only if none was empty. */
  lemma {:induction false} BodyIsWhatWasPushed(actions: seq<Action>, t: State, accepted: seq<string>, late: seq<string>)
    requires PushRun(INIT, false, actions, t, accepted, late) && 0 in t.past.reports
    ensures Decode(t.past.wire).Some?
    ensures
      var body := Decode(t.past.wire).value.body;
      body == Flatten(accepted[..BeforeEmpty(accepted)])
    ensures
      var decoded := Decode(t.past.wire).value;
      (exists tail :: t.past.wire == Message(accepted) + tail && decoded == Decoded(Flatten(accepted), tail)) <==> "" !in accepted
  {
    PushRunIsRun(INIT, false, actions, t, accepted, late);
    assert [] + accepted == accepted;
    ReportedResponseDecodes(t);
    var tail := t.past.wire[|Message(accepted)|..];
    assert t.past.wire == Message(accepted) + tail;
    if other :| t.past.wire == Message(accepted) + other && Decode(t.past.wire).value == Decoded(Flatten(accepted), other) {
      assert other == tail;
    }
  }

  // ---- What becomes of a run -----------------------------------------------------------

  predicate Fails(a: Action) { a.WriteDone? && a.ec != 0 }

  predicate SomeFails(actions: seq<Action>) { exists i | 0 <= i < |actions| :: Fails(actions[i]) }

  lemma {:induction false} RunFlags(s: State, actions: seq<Action>, t: State)
    requires Run(s, actions, t)
    ensures t.w.finalQueued <==> s.w.finalQueued || PushFinal in actions
    ensures t.w.error != 0 <==> s.w.error != 0 || SomeFails(actions)
    decreases |actions|
  {
    if actions != [] {
      StepAccepts(s, actions[0]);
      assert actions == [actions[0]] + actions[1..];
      assert forall i | 0 < i < |actions| :: actions[i] == actions[1..][i - 1];
      RunFlags(Next(s, actions[0]), actions[1..], t);
    }
  }

  predicate AtRest(s: State) { s.strand == Strand(false, None, 0) }

  /** In every run in which the handler returned, a writer at rest has reported the response: as
      written if no write failed, and then everything pushed is on the wire; with an error if one did. */
  lemma {:induction false} ReportedAtRest(actions: seq<Action>, t: State)
    requires Run(INIT, actions, t) && PushFinal in actions && AtRest(t)
    ensures !SomeFails(actions) ==>
              t.past.reports == [0] && t.past.wire == Message(t.past.accepted) + Flatten(Frames(t.past.late))
    ensures SomeFails(actions) ==> exists i | 0 <= i < |t.past.reports| :: t.past.reports[i] != 0
  {
    RunFlags(INIT, actions, t);
    ReachableInv(t);
    AtRestReported(t);
    if !SomeFails(actions) {
      LateFramesFollow(t);
    } else {
      FailureReported(INIT, actions, t);
    }
  }

  lemma {:induction false} StepReports(s: State, a: Action)
    requires Enabled(s, a)
    ensures s.past.reports <= Next(s, a).past.reports
    ensures Fails(a) ==> a.ec in Next(s, a).past.reports
  {
    if Fails(a) {
      assert Next(s, a).past.reports[|s.past.reports|] == a.ec;
    }
  }

  /** A failed write is always reported. */
  lemma {:induction false} FailureReported(s: State, actions: seq<Action>, t: State)
    requires Run(s, actions, t)
    ensures s.past.reports <= t.past.reports
    ensures SomeFails(actions) ==> exists i | 0 <= i < |t.past.reports| :: t.past.reports[i] != 0
    decreases |actions|
  {
    if actions != [] {
      var a := actions[0];
      StepReports(s, a);
      assert forall i | 0 < i < |actions| :: actions[i] == actions[1..][i - 1];
      FailureReported(Next(s, a), actions[1..], t);
      if Fails(a) {
        var i :| 0 <= i < |Next(s, a).past.reports| && Next(s, a).past.reports[i] == a.ec;
        assert t.past.reports[i] == a.ec;
      }
    }
  }

  // ---- Coming to rest ---------------------------------------------------------------------

  /** The step that can be taken, with success, unless the writer is at rest. */
  function Move(s: State): (a: Action)
    requires !AtRest(s)
    ensures Enabled(s, a) && !a.Push? && !a.PushFinal? && !Fails(a)
  {
    if s.strand.owed > 0 then Schedule
    else if s.strand.posted then RunPosted
    else WriteDone(0, |s.strand.inFlight.value|)
  }

  predicate AllMoves(actions: seq<Action>) {
    forall i | 0 <= i < |actions| :: !actions[i].Push? && !actions[i].PushFinal? && !Fails(actions[i])
  }

  lemma {:induction false} Drains(s: State) returns (actions: seq<Action>, t: State)
    ensures Run(s, actions, t) && AllMoves(actions) && AtRest(t)
    decreases Work(s)
  {
    if AtRest(s) {
      actions, t := [], s;
    } else {
      var a := Move(s);
      WriterComesToRest(s, a);
      actions, t := Drains(Next(s, a));
      assert ([a] + actions)[1..] == actions;
      actions := [a] + actions;
    }
  }

  /** A response can always be completed: from any reachable state of a running handler without a
      failed write, returning and successful writes lead to a reported response whose wire is the
      message of exactly the buffers accepted before. */
  lemma {:induction false} ResponseCompletes(s: State) returns (actions: seq<Action>, t: State)
    requires Reachable(s) && !s.w.finalQueued && s.w.error == 0
    ensures Run(s, [PushFinal] + actions, t) && AllMoves(actions)
    ensures t.past.reports == [0] && t.past.wire == Message(s.past.accepted)
  {
    var returned := Next(s, PushFinal);
    actions, t := Drains(returned);
    assert ([PushFinal] + actions)[1..] == actions;
    var before :| Run(INIT, before, s);
    RunOn(INIT, before, s, [PushFinal] + actions, t);
    RunFlags(returned, actions, t);
    MovesAcceptNothing(returned, actions, t);
    ReachableInv(s);
    ReachableInv(t);
    AtRestReported(t);
    LateFramesFollow(t);
    assert Message(t.past.accepted) + Flatten(Frames([])) == Message(t.past.accepted);
  }

  lemma {:induction false} MovesAcceptNothing(s: State, actions: seq<Action>, t: State)
    requires Run(s, actions, t) && AllMoves(actions)
    ensures t.past.accepted == s.past.accepted && t.past.late == s.past.late
    decreases |actions|
  {
    if actions != [] {
      StepAccepts(s, actions[0]);
      assert forall i | 0 < i < |actions| :: actions[i] == actions[1..][i - 1];
      MovesAcceptNothing(Next(s, actions[0]), actions[1..], t);
    }
  }
}
