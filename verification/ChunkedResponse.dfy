/** The chunked response writer (framework/session/http_session.cpp, `ChunkWriteState`,
    `on_write_header` and `do_write_chunk`). The stream handler and the threads it uses push
    frames under the mutex and then schedule a write; posted handlers and write completions run
    on the strand. Every block under the mutex and every strand callback is one step. */
module ChunkedResponse {
  import opened Basics
  import opened ChunkedCoding
  import Digits

  /** A completion's error code; 0 stands for success. */
  type Ec = int

  datatype Writer = Writer(queue: seq<string>, writing: bool, finalQueued: bool, completed: bool, error: Ec)

  /** The environment: a posted `do_write_chunk`, the write in flight, and how many threads
      have pushed and will still schedule a write. */
  datatype Strand = Strand(posted: bool, inFlight: Option<string>, owed: nat)

  /** The history: accepted buffers, those accepted late (behind the last chunk), issued frames,
      the wire, and the `on_write` calls. */
  datatype History = History(accepted: seq<string>, late: seq<string>, issued: seq<string>, wire: string, reports: seq<Ec>)

  datatype State = State(w: Writer, strand: Strand, past: History)

  const INIT: State := State(Writer([], false, false, false, 0), Strand(false, None, 0), History([], [], [], "", []))

  datatype Action =
    | Push(buffer: string)
    | PushFinal
    | Schedule
    | RunPosted
    | WriteDone(ec: Ec, bytes: nat)

  /** The last chunk is pushed once, when the handler has returned; its callback may have been kept,
      so buffers may be pushed even after that. */
  predicate Enabled(s: State, a: Action) {
    match a
    case Push(_) => true
    case PushFinal => !s.w.finalQueued
    case Schedule => s.strand.owed > 0
    case RunPosted => s.strand.posted
    case WriteDone(ec, bytes) =>
      && s.strand.inFlight.Some? && bytes <= |s.strand.inFlight.value|
      && (ec == 0 ==> bytes == |s.strand.inFlight.value|)
  }

  /** `do_write_chunk` with nothing in flight. */
  function WriteChunk(s: State): State {
    if s.w.queue == [] then
      var report := s.w.finalQueued && !s.w.completed;
      s.(w := s.w.(writing := false, completed := s.w.completed || report),
         past := if report then s.past.(reports := s.past.reports + [0]) else s.past)
    else
      var frame := s.w.queue[0];
      s.(w := s.w.(queue := s.w.queue[1..]), strand := s.strand.(inFlight := Some(frame)),
         past := s.past.(issued := s.past.issued + [frame]))
  }

  /** A buffer that was accepted. */
  function Accept(w: Writer, p: History, buffer: string): History {
    if w.finalQueued then p.(late := p.late + [buffer]) else p.(accepted := p.accepted + [buffer])
  }

  function Next(s: State, a: Action): State
    requires Enabled(s, a)
  {
    match a
    case Push(buffer) =>
      if s.w.error != 0 then s
      else s.(w := s.w.(queue := s.w.queue + [Frame(buffer)]), strand := s.strand.(owed := s.strand.owed + 1),
              past := Accept(s.w, s.past, buffer))
    case PushFinal =>
      s.(w := s.w.(queue := s.w.queue + [LAST_CHUNK], finalQueued := true),
         strand := s.strand.(owed := s.strand.owed + 1))
    case Schedule =>
      var paid := s.strand.(owed := s.strand.owed - 1);
      if s.w.writing then s.(strand := paid)
      else s.(w := s.w.(writing := true), strand := paid.(posted := true))
    case RunPosted => WriteChunk(s.(strand := s.strand.(posted := false)))
    case WriteDone(ec, bytes) =>
      var frame := s.strand.inFlight.value;
      var done := s.(strand := s.strand.(inFlight := None), past := s.past.(wire := s.past.wire + frame[..bytes]));
      if ec != 0 then
        done.(w := s.w.(error := ec, writing := false, completed := true),
              past := done.past.(reports := done.past.reports + [ec]))
      else WriteChunk(done)
  }

  // ---- The invariant --------------------------------------------------------

  /** Everything pushed so far, in push order. */
  function Pushed(w: Writer, p: History): seq<string> {
    Frames(p.accepted) + if w.finalQueued then [LAST_CHUNK] + Frames(p.late) else []
  }

  /** One writer: a posted handler or one write in flight, never both. */
  ghost predicate OneWriter(w: Writer, strand: Strand) {
    && (w.writing <==> strand.posted || strand.inFlight.Some?)
    && !(strand.posted && strand.inFlight.Some?)
  }

  /** Frames leave in push order; while no write has failed, the wire holds the issued ones
      but the one in flight. */
  ghost predicate InOrder(w: Writer, strand: Strand, p: History) {
    && p.issued + w.queue == Pushed(w, p) && (!w.finalQueued ==> p.late == [])
    && (strand.inFlight.Some? ==> p.issued != [] && strand.inFlight.value == p.issued[|p.issued| - 1])
    && (w.error == 0 ==>
          p.wire == Flatten(if strand.inFlight.Some? then p.issued[..|p.issued| - 1] else p.issued))
  }

  /** Success is the first report or never one, and only once the whole message is on the wire. If
      nothing is pushed late, that is then the end. */
  ghost predicate Reports(w: Writer, strand: Strand, p: History) {
    && (w.completed <==> p.reports != [])
    && (w.error == 0 ==> p.reports == if w.completed then [0] else [])
    && (w.error != 0 ==> w.completed)
    && (forall i | 1 <= i < |p.reports| :: p.reports[i] != 0)
    && (p.reports != [] && p.reports[0] == 0 ==> Delivered(w, strand, p))
  }

  ghost predicate Delivered(w: Writer, strand: Strand, p: History) {
    && w.finalQueued && Message(p.accepted) <= p.wire
    && (p.late == [] ==> w.error == 0 && w.queue == [] && strand.inFlight.None? && p.wire == Message(p.accepted))
  }

  /** Whoever pushed still owes the scheduling of a write. */
  ghost predicate Awake(w: Writer, owed: nat) {
    !w.writing && w.error == 0 && (w.queue != [] || (w.finalQueued && !w.completed)) ==> owed > 0
  }

  ghost predicate Inv(s: State) {
    OneWriter(s.w, s.strand) && InOrder(s.w, s.strand, s.past) && Reports(s.w, s.strand, s.past) &&
    Awake(s.w, s.strand.owed)
  }

  lemma {:induction false} StepOneWriter(s: State, a: Action)
    requires OneWriter(s.w, s.strand) && Enabled(s, a)
    ensures var t := Next(s, a); OneWriter(t.w, t.strand)
  {
  }

  lemma {:induction false} WriteChunkInOrder(s: State)
    requires InOrder(s.w, s.strand, s.past) && s.strand.inFlight.None?
    ensures var t := WriteChunk(s); InOrder(t.w, t.strand, t.past)
  {
    if s.w.queue != [] {
      var frame, issued := s.w.queue[0], s.past.issued;
      assert (issued + [frame]) + s.w.queue[1..] == issued + s.w.queue;
      assert (issued + [frame])[..|issued|] == issued;
    }
  }

  /** A frame that is pushed, be it late or not, comes behind all others. */
  lemma {:induction false} PushedPush(w: Writer, p: History, buffer: string)
    requires !w.finalQueued ==> p.late == []
    ensures Pushed(w, Accept(w, p, buffer)) == Pushed(w, p) + [Frame(buffer)]
  {
    if w.finalQueued {
      FramesPush(p.late, buffer);
    } else {
      FramesPush(p.accepted, buffer);
    }
  }

  lemma {:induction false} PushInOrder(s: State, a: Action)
    requires InOrder(s.w, s.strand, s.past) && Enabled(s, a) && (a.Push? || a.PushFinal?)
    ensures var t := Next(s, a); InOrder(t.w, t.strand, t.past)
  {
    var p, q := s.past, s.w.queue;
    if a.Push? {
      PushedPush(s.w, p, a.buffer);
      assert p.issued + (q + [Frame(a.buffer)]) == (p.issued + q) + [Frame(a.buffer)];
    } else {
      assert p.issued + (q + [LAST_CHUNK]) == (p.issued + q) + [LAST_CHUNK];
    }
  }

  lemma {:induction false} WireGrows(issued: seq<string>, wire: string, frame: string)
    requires issued != [] && frame == issued[|issued| - 1] && wire == Flatten(issued[..|issued| - 1])
    ensures wire + frame == Flatten(issued)
  {
    assert issued == issued[..|issued| - 1] + [frame];
    FlattenPush(issued[..|issued| - 1], frame);
  }

  lemma {:induction false} StepInOrder(s: State, a: Action)
    requires InOrder(s.w, s.strand, s.past) && OneWriter(s.w, s.strand) && Enabled(s, a)
    ensures var t := Next(s, a); InOrder(t.w, t.strand, t.past)
  {
    match a {
      case Push(_) => PushInOrder(s, a);
      case PushFinal => PushInOrder(s, a);
      case Schedule =>
      case RunPosted => WriteChunkInOrder(s.(strand := s.strand.(posted := false)));
      case WriteDone(ec, bytes) =>
        var frame := s.strand.inFlight.value;
        if ec == 0 {
          assert frame[..bytes] == frame;
          if s.w.error == 0 {
            WireGrows(s.past.issued, s.past.wire, frame);
          }
          WriteChunkInOrder(s.(strand := s.strand.(inFlight := None), past := s.past.(wire := s.past.wire + frame)));
        }
    }
  }

  /** With everything issued and no failure, the wire is the message and the late frames. */
  lemma {:induction false} WholeWire(w: Writer, p: History)
    requires w.finalQueued && p.issued == Pushed(w, p) && p.wire == Flatten(p.issued)
    ensures p.wire == Message(p.accepted) + Flatten(Frames(p.late))
  {
    var frames, late := Frames(p.accepted), Frames(p.late);
    FlattenConcat(frames, [LAST_CHUNK] + late);
    FlattenConcat([LAST_CHUNK], late);
    FlattenOne(LAST_CHUNK);
    Associate(Flatten(frames), LAST_CHUNK, Flatten(late));
  }

  lemma {:induction false} WriteChunkReports(s: State)
    requires Reports(s.w, s.strand, s.past) && InOrder(s.w, s.strand, s.past) && s.strand.inFlight.None?
    ensures var t := WriteChunk(s); Reports(t.w, t.strand, t.past)
  {
    if s.w.queue == [] && s.w.finalQueued && !s.w.completed {
      assert s.past.issued + [] == s.past.issued;
      WholeWire(s.w, s.past);
    }
  }

  lemma {:induction false} WireExtended(message: string, wire: string, more: string)
    ensures message <= wire ==> message <= wire + more
  {
  }

  lemma {:induction false} StepReports(s: State, a: Action)
    requires Reports(s.w, s.strand, s.past) && InOrder(s.w, s.strand, s.past) && OneWriter(s.w, s.strand) && Enabled(s, a)
    ensures var t := Next(s, a); Reports(t.w, t.strand, t.past)
  {
    match a {
      case Push(_) =>
      case PushFinal =>
      case Schedule =>
      case RunPosted => WriteChunkReports(s.(strand := s.strand.(posted := false)));
      case WriteDone(ec, bytes) => DoneReports(s, ec, bytes);
    }
  }

  lemma {:induction false} DoneReports(s: State, ec: Ec, bytes: nat)
    requires Reports(s.w, s.strand, s.past) && InOrder(s.w, s.strand, s.past) && Enabled(s, WriteDone(ec, bytes))
    ensures var t := Next(s, WriteDone(ec, bytes)); Reports(t.w, t.strand, t.past)
  {
    var frame := s.strand.inFlight.value;
    WireExtended(Message(s.past.accepted), s.past.wire, frame[..bytes]);
    if ec == 0 {
      assert frame[..bytes] == frame;
      if s.w.error == 0 {
        WireGrows(s.past.issued, s.past.wire, frame);
      }
      WriteChunkReports(s.(strand := s.strand.(inFlight := None), past := s.past.(wire := s.past.wire + frame)));
    }
  }

  lemma {:induction false} StepAwake(s: State, a: Action)
    requires Awake(s.w, s.strand.owed) && OneWriter(s.w, s.strand) && Reports(s.w, s.strand, s.past) && Enabled(s, a)
    ensures var t := Next(s, a); Awake(t.w, t.strand.owed)
  {
  }

  /** Every step of the producer and of the strand keeps the invariant. */
  lemma {:induction false} StepKeepsInv(s: State, a: Action)
    requires Inv(s) && Enabled(s, a)
    ensures Inv(Next(s, a))
  {
    StepOneWriter(s, a);
    StepInOrder(s, a);
    StepReports(s, a);
    StepAwake(s, a);
  }

  // ---- Runs -----------------------------------------------------------------

  ghost predicate Run(s: State, actions: seq<Action>, t: State)
    decreases |actions|
  {
    if actions == [] then s == t
    else Enabled(s, actions[0]) && Run(Next(s, actions[0]), actions[1..], t)
  }

  ghost predicate Reachable(s: State) { exists actions :: Run(INIT, actions, s) }

  lemma {:induction false} RunKeepsInv(s: State, actions: seq<Action>, t: State)
    requires Inv(s) && Run(s, actions, t)
    ensures Inv(t)
    decreases |actions|
  {
    if actions != [] {
      StepKeepsInv(s, actions[0]);
      RunKeepsInv(Next(s, actions[0]), actions[1..], t);
    }
  }

  lemma {:induction false} ReachableInv(s: State)
    requires Reachable(s)
    ensures Inv(s)
  {
    var actions :| Run(INIT, actions, s);
    RunKeepsInv(INIT, actions, s);
  }

  /** No write is started while another is outstanding: the posted handler, and the completion
      that starts the next write, find none in flight. */
  lemma {:induction false} OneWriteAtATime(s: State)
    requires Reachable(s) && s.strand.posted
    ensures s.strand.inFlight.None?
  {
    ReachableInv(s);
  }

  /** Frames are issued in the order in which they were pushed. */
  lemma {:induction false} FramesLeaveInOrder(s: State)
    requires Reachable(s)
    ensures s.past.issued <= Pushed(s.w, s.past)
  {
    ReachableInv(s);
    assert s.past.issued <= s.past.issued + s.w.queue;
  }

  /** Success is reported at most once and first. By then, and ever after, the wire starts with the
      message, which decodes to the accepted buffers up to the first empty one; so it decodes to
      all of them, leaving over exactly what follows it, if and only if none was empty. */
  lemma {:induction false} ReportedResponseDecodes(s: State)
    requires Reachable(s) && 0 in s.past.reports
    ensures s.past.reports[0] == 0 && forall i | 1 <= i < |s.past.reports| :: s.past.reports[i] != 0
    ensures Message(s.past.accepted) <= s.past.wire
    ensures
      var buffers, k := s.past.accepted, BeforeEmpty(s.past.accepted);
      var tail := s.past.wire[|Message(buffers)|..];
      && Decode(s.past.wire).Some?
      && Decode(s.past.wire).value.body == Flatten(buffers[..k])
      && (Decode(s.past.wire).value == Decoded(Flatten(buffers), tail) <==> "" !in buffers)
  {
    ReachableInv(s);
    var message := Message(s.past.accepted);
    var tail := s.past.wire[|message|..];
    assert s.past.wire == message + tail;
    DecodeMessage(s.past.accepted, tail);
    DecodesIffNoEmptyBuffer(s.past.accepted, tail);
  }

  /** If nothing was pushed late, a reported response is the end: no failure is reported besides,
      nothing is left to write or in flight, and the wire holds the message alone. */
  lemma {:induction false} QuietUnlessLate(s: State)
    requires Reachable(s) && 0 in s.past.reports && s.past.late == []
    ensures s.past.reports == [0] && s.w.error == 0
    ensures s.w.queue == [] && s.strand.inFlight.None? && s.past.wire == Message(s.past.accepted)
  {
    ReachableInv(s);
  }

  /** Frames pushed late follow the last chunk on the wire. */
  lemma {:induction false} LateFramesFollow(s: State)
    requires Reachable(s) && s.w.finalQueued && s.w.error == 0 && s.w.queue == [] && s.strand.inFlight.None?
    ensures s.past.wire == Message(s.past.accepted) + Flatten(Frames(s.past.late))
  {
    ReachableInv(s);
    assert s.past.issued + [] == s.past.issued;
    WholeWire(s.w, s.past);
  }

  /** A buffer pushed late can be in flight after success was reported, and so beside the next
      request on the connection. */
  lemma {:induction false} LateWriteHappens(buffer: string)
    ensures
      var actions := [PushFinal, Schedule, RunPosted, WriteDone(0, |LAST_CHUNK|), Push(buffer), Schedule, RunPosted];
      exists s :: Run(INIT, actions, s) && s.past.reports == [0] && s.strand.inFlight == Some(Frame(buffer))
  {
    var a := [PushFinal, Schedule, RunPosted, WriteDone(0, |LAST_CHUNK|)];
    var b := [Push(buffer), Schedule, RunPosted];
    var written := State(Writer([], false, true, true, 0), Strand(false, None, 0),
                         History([], [], [LAST_CHUNK], LAST_CHUNK, [0]));
    FinalWritten(written);
    var s := LateWritten(written, buffer);
    RunOn(INIT, a, written, b, s);
    assert a + b == [PushFinal, Schedule, RunPosted, WriteDone(0, |LAST_CHUNK|), Push(buffer), Schedule, RunPosted];
  }

  lemma {:induction false} RunOne(s: State, a: Action, actions: seq<Action>, t: State)
    requires Enabled(s, a) && Run(Next(s, a), actions, t)
    ensures Run(s, [a] + actions, t)
  {
    assert ([a] + actions)[1..] == actions;
  }

  lemma {:induction false} RunOn(s: State, a: seq<Action>, t: State, b: seq<Action>, u: State)
    requires Run(s, a, t) && Run(t, b, u)
    ensures Run(s, a + b, u)
    decreases |a|
  {
    if a == [] {
      assert a + b == b;
    } else {
      RunOn(Next(s, a[0]), a[1..], t, b, u);
      assert (a + b)[1..] == a[1..] + b;
    }
  }

  lemma {:induction false} FinalWritten(written: State)
    requires written == State(Writer([], false, true, true, 0), Strand(false, None, 0),
                              History([], [], [LAST_CHUNK], LAST_CHUNK, [0]))
    ensures Run(INIT, [PushFinal, Schedule, RunPosted, WriteDone(0, |LAST_CHUNK|)], written)
  {
    var s1 := Next(INIT, PushFinal);
    var s2 := Next(s1, Schedule);
    var s3 := Next(s2, RunPosted);
    var done := WriteDone(0, |LAST_CHUNK|);
    assert s3.strand.inFlight == Some(LAST_CHUNK) && LAST_CHUNK[..|LAST_CHUNK|] == LAST_CHUNK;
    assert "" + LAST_CHUNK == LAST_CHUNK;
    RunOne(s3, done, [], written);
    RunOne(s2, RunPosted, [done], written);
    RunOne(s1, Schedule, [RunPosted, done], written);
    RunOne(INIT, PushFinal, [Schedule, RunPosted, done], written);
  }

  lemma {:induction false} LateWritten(written: State, buffer: string) returns (s: State)
    requires written.w == Writer([], false, true, true, 0) && written.strand == Strand(false, None, 0)
    ensures Run(written, [Push(buffer), Schedule, RunPosted], s)
    ensures s.past.reports == written.past.reports && s.strand.inFlight == Some(Frame(buffer))
  {
    var s1 := Next(written, Push(buffer));
    var s2 := Next(s1, Schedule);
    s := Next(s2, RunPosted);
    RunOne(s2, RunPosted, [], s);
    RunOne(s1, Schedule, [RunPosted], s);
    RunOne(written, Push(buffer), [Schedule, RunPosted], s);
  }

  /** No lost wake-up: at rest, after the handler has returned, the response was reported -
      as written, or with an error. */
  lemma {:induction false} AtRestReported(s: State)
    requires Reachable(s) && s.w.finalQueued
    requires s.strand == Strand(false, None, 0)
    ensures s.w.error == 0 ==> s.past.reports == [0]
    ensures s.w.error != 0 ==> s.past.reports != [] && (s.past.late == [] ==> 0 !in s.past.reports)
  {
    ReachableInv(s);
  }

  /** The work left once nothing more is pushed. */
  function Work(s: State): nat {
    2 * s.strand.owed + |s.w.queue| + (if s.strand.posted then 1 else 0) + (if s.strand.inFlight.Some? then 1 else 0)
  }

  /** The writer comes to rest: only pushes add work, every other step uses some up. */
  lemma {:induction false} WriterComesToRest(s: State, a: Action)
    requires Enabled(s, a) && !a.Push? && !a.PushFinal?
    ensures Work(Next(s, a)) < Work(s)
  {
  }

  // ---- The class ------------------------------------------------------------

  /** The shared state object; ghost fields hold the environment and the history. */
  class ChunkWriteState {
    var queue: seq<string>
    var writing: bool
    var finalQueued: bool
    var completed: bool
    var error: Ec

    ghost var strand: Strand
    ghost var past: History

    ghost function View(): State
      reads this
    {
      State(Writer(queue, writing, finalQueued, completed, error), strand, past)
    }

    constructor ()
      ensures View() == INIT
    {
      queue, writing, finalQueued, completed, error := [], false, false, false, 0;
      strand, past := Strand(false, None, 0), History([], [], [], "", []);
    }

    /** `write_chunk` up to its call of `schedule_write`; false once a write has failed. */
    method WriteBuffer(buffer: string) returns (ok: bool)
      modifies this
      ensures View() == Next(old(View()), Push(buffer))
      ensures ok <==> old(error) == 0
      ensures ok ==> queue == old(queue) + [Digits.Render(|buffer|, 16) + "\r\n" + buffer + "\r\n"] && strand.owed == old(strand).owed + 1
      ensures ok && !old(finalQueued) ==> past.accepted == old(past).accepted + [buffer] && past.late == old(past).late
      ensures ok && old(finalQueued) ==> past.accepted == old(past).accepted && past.late == old(past).late + [buffer]
      ensures !ok ==> View() == old(View())
    {
      var frame := Digits.Render(|buffer|, 16) + CRLF + buffer + CRLF;
      if error != 0 {
        return false;
      }
      queue := queue + [frame];
      strand := strand.(owed := strand.owed + 1);
      past := Accept(View().w, past, buffer);
      ok := true;
    }

    method PushLastChunk()
      requires Enabled(View(), PushFinal)
      modifies this
      ensures View() == Next(old(View()), PushFinal)
      ensures finalQueued && queue == old(queue) + ["0\r\n\r\n"] && strand.owed == old(strand).owed + 1
    {
      queue := queue + [LAST_CHUNK];
      finalQueued := true;
      strand := strand.(owed := strand.owed + 1);
    }

    /** `schedule_write`; the caller posts `do_write_chunk` when told to. */
    method ScheduleWrite() returns (post: bool)
      requires Enabled(View(), Schedule)
      modifies this
      ensures View() == Next(old(View()), Schedule)
      ensures post <==> !old(writing)
      ensures writing && (post ==> strand.posted) && queue == old(queue)
    {
      post := false;
      strand := strand.(owed := strand.owed - 1);
      if !writing {
        writing := true;
        post := true;
        strand := strand.(posted := true);
      }
    }

    /** `do_write_chunk`: the frame to write next, or whether to report the response written. */
    method TakeChunk() returns (frame: Option<string>, report: bool)
      modifies this
      ensures View() == WriteChunk(old(View()))
      ensures frame == if old(queue) == [] then None else Some(old(queue)[0])
      ensures report <==> old(queue) == [] && old(finalQueued) && !old(completed)
    {
      frame, report := None, false;
      if queue == [] {
        writing := false;
        if finalQueued && !completed {
          completed := true;
          report := true;
          past := past.(reports := past.reports + [0]);
        }
        return;
      }
      frame := Some(queue[0]);
      queue := queue[1..];
      strand := strand.(inFlight := frame);
      past := past.(issued := past.issued + [frame.value]);
    }

    method OnPosted() returns (frame: Option<string>, report: bool)
      requires Enabled(View(), RunPosted)
      modifies this
      ensures View() == Next(old(View()), RunPosted)
      ensures frame == if old(queue) == [] then None else Some(old(queue)[0])
      ensures report <==> old(queue) == [] && old(finalQueued) && !old(completed)
    {
      strand := strand.(posted := false);
      frame, report := TakeChunk();
    }

    method OnChunkWritten(ec: Ec, ghost bytes: nat) returns (frame: Option<string>, report: bool)
      requires Enabled(View(), WriteDone(ec, bytes))
      modifies this
      ensures View() == Next(old(View()), WriteDone(ec, bytes))
      ensures frame == if ec != 0 || old(queue) == [] then None else Some(old(queue)[0])
      ensures report <==> ec != 0 || (old(queue) == [] && old(finalQueued) && !old(completed))
      ensures ec != 0 ==> error == ec && completed && !writing && past.reports == old(past).reports + [ec]
    {
      past := past.(wire := past.wire + strand.inFlight.value[..bytes]);
      strand := strand.(inFlight := None);
      if ec != 0 {
        error := ec;
        writing := false;
        completed := true;
        past := past.(reports := past.reports + [ec]);
        return None, true;
      }
      frame, report := TakeChunk();
    }
  }
}
