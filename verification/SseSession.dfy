/** The concurrent SSE session (framework/sse/sse_session.cpp). User threads and completion
    handlers interleave; every block under the mutex is one atomic step, and so is every
    call that hands an operation to the response stream. The state also records what the
    environment owes: the operation in flight, and how many threads have left a block and
    will still call `write_next`. */
module SseSession {
  import opened Basics

  /** A completion's error code; 0 stands for success. */
  type Ec = int

  datatype Job = Write(value: string) | Finish

  /** The single response operation: decided under the mutex, then issued outside it. */
  datatype Op = Idle | Decided(job: Job) | Issued(job: Job)

  datatype Flags = Flags(startRequested: bool, starting: bool, started: bool, closing: bool, closed: bool)

  /** The writer: the queue, its size, and the operation in flight. */
  datatype Writer = Writer(queue: seq<string>, pendingBytes: nat, writing: bool, op: Op)

  /** Close handlers, numbered by registration: the stored one, and how often each was run. */
  datatype Hooks = Hooks(closeError: Ec, handler: Option<nat>, registered: nat, runs: multiset<nat>)

  /** The history: accepted values, how many are written, what a failed write left on the
      wire after them, the wire itself, and whether `async_finish` was issued. */
  datatype History = History(sent: seq<string>, written: nat, torn: string, wire: string, finishIssued: bool)

  datatype State = State(limit: nat, flags: Flags, writer: Writer, hooks: Hooks, owed: nat, past: History)

  function Init(limit: nat): State {
    State(limit, Flags(false, false, false, false, false), Writer([], 0, false, Idle),
          Hooks(0, None, 0, multiset{}), 0, History([], 0, "", "", false))
  }

  datatype Action =
    | Start
    | StartDone(ec: Ec)
    | Enqueue(value: string)
    | WriteNext
    | Issue
    | WriteDone(ec: Ec, bytes: nat)
    | FinishDone(ec: Ec)
    | Abort(ec: Ec)
    | Close
    | OnClose

  /** Which steps the threads and the response stream can take. `bytes` is how much of the
      value a failed write has put on the wire. */
  predicate Enabled(s: State, a: Action) {
    match a
    case StartDone(_) => s.flags.starting
    case WriteNext => s.owed > 0
    case Issue => s.writer.op.Decided?
    case WriteDone(ec, bytes) =>
      && s.writer.op.Issued? && s.writer.op.job.Write?
      && bytes <= |s.writer.op.job.value| && (ec == 0 ==> bytes == |s.writer.op.job.value|)
    case FinishDone(_) => s.writer.op.Issued? && s.writer.op.job.Finish?
    case _ => true
  }

  predicate Accepts(s: State, size: nat) {
    && !s.flags.closing && !s.flags.closed
    && size <= s.limit && s.writer.pendingBytes <= s.limit - size
  }

  /** Subtraction of sizes, wrapping below zero. */
  function Minus(x: nat, y: nat): nat { (x - y) % UINT64_LIMIT }

  function RunHandler(h: Hooks, ec: Ec): Hooks {
    h.(closeError := ec, handler := None,
        runs := if h.handler.Some? then h.runs[h.handler.value := h.runs[h.handler.value] + 1] else h.runs)
  }

  /** `finish`: effective once; the stored handler is moved out and run. */
  function Finished(s: State, ec: Ec): State {
    if s.flags.closed then s
    else s.(flags := s.flags.(closed := true),
            writer := s.writer.(queue := [], pendingBytes := 0, writing := false),
            hooks := RunHandler(s.hooks, ec))
  }

  function AfterWrite(s: State, ec: Ec, bytes: nat): State
    requires Enabled(s, WriteDone(ec, bytes))
  {
    var value, w, past := s.writer.op.job.value, s.writer.(op := Idle), s.past;
    if ec != 0 then
      Finished(s.(writer := w, past := past.(torn := value[..bytes], wire := past.wire + value[..bytes])), ec)
    else
      var popped := if w.queue == [] then w
                    else w.(queue := w.queue[1..], pendingBytes := Minus(w.pendingBytes, |w.queue[0]|));
      s.(writer := popped.(writing := false), owed := s.owed + 1,
         past := past.(written := past.written + 1, wire := past.wire + value))
  }

  /** The decision `write_next` takes under the mutex. */
  function Decide(w: Writer, f: Flags): Writer {
    if !f.started || w.writing || f.closed then w
    else if w.queue != [] then w.(writing := true, op := Decided(Write(w.queue[0])))
    else if f.closing then w.(writing := true, op := Decided(Finish))
    else w
  }

  function Next(s: State, a: Action): State
    requires Enabled(s, a)
  {
    match a
    case Start =>
      if s.flags.startRequested || s.flags.closed then s
      else s.(flags := s.flags.(startRequested := true, starting := true))
    case StartDone(ec) =>
      if ec != 0 then Finished(s.(flags := s.flags.(starting := false)), ec)
      else s.(flags := s.flags.(starting := false, started := true), owed := s.owed + 1)
    case Enqueue(value) =>
      if !Accepts(s, |value|) then s
      else s.(writer := s.writer.(queue := s.writer.queue + [value], pendingBytes := s.writer.pendingBytes + |value|),
              past := s.past.(sent := s.past.sent + [value]), owed := s.owed + 1)
    case WriteNext => s.(writer := Decide(s.writer, s.flags), owed := s.owed - 1)
    case Issue =>
      s.(writer := s.writer.(op := Issued(s.writer.op.job)),
         past := s.past.(finishIssued := s.past.finishIssued || s.writer.op.job.Finish?))
    case WriteDone(ec, bytes) => AfterWrite(s, ec, bytes)
    case FinishDone(ec) => Finished(s.(writer := s.writer.(op := Idle)), ec)
    case Abort(ec) => Finished(s, ec)
    case Close => s.(flags := s.flags.(closing := true), owed := s.owed + 1)
    case OnClose => s.(hooks := Register(s.hooks, s.flags.closed))
  }

  /** `on_close`: stores the handler, or runs it at once when the session has ended. */
  function Register(h: Hooks, closed: bool): Hooks {
    if closed then h.(registered := h.registered + 1, runs := h.runs[h.registered := h.runs[h.registered] + 1])
    else h.(registered := h.registered + 1, handler := Some(h.registered))
  }

  // ---- The invariant --------------------------------------------------------

  function TotalSize(values: seq<string>): nat {
    if values == [] then 0 else |values[0]| + TotalSize(values[1..])
  }

  /** `pending_bytes` is the size of the queue and within the limit. */
  ghost predicate Accounting(w: Writer, limit: nat, closed: bool) {
    && limit < UINT64_LIMIT
    && w.pendingBytes == TotalSize(w.queue) <= limit
    && (closed ==> w.queue == [])
  }

  /** What is on the wire: the first `written` accepted values, and what a failed write left. */
  ghost predicate Delivery(p: History, w: Writer, closed: bool) {
    && p.written <= |p.sent|
    && p.wire == Flatten(p.sent[..p.written]) + p.torn
    && (p.torn != "" ==> closed && w.op.Idle? && p.written < |p.sent| && p.torn <= p.sent[p.written])
    && (!closed ==> w.queue == p.sent[p.written..])
  }

  /** Who may touch the response stream, and with what. */
  ghost predicate Exclusive(p: History, w: Writer, f: Flags) {
    && (!f.closed ==> (w.writing <==> !w.op.Idle?))
    && (f.closed ==> !w.writing)
    && (!w.op.Idle? && w.op.job.Write? ==> p.written < |p.sent| && w.op.job.value == p.sent[p.written])
    && (!w.op.Idle? && w.op.job.Finish? ==> f.closing && p.written == |p.sent|)
    && (!w.op.Idle? ==> f.started) && (w.op.Issued? && w.op.job.Finish? ==> p.finishIssued)
    && (p.finishIssued ==> f.closing && p.written == |p.sent| && (f.closed || (w.op.Issued? && w.op.job.Finish?)))
  }

  /** Whoever makes work for the writer still owes a wake-up. */
  ghost predicate Awake(w: Writer, f: Flags, owed: nat) {
    f.started && !f.closed && !w.writing && (w.queue != [] || f.closing) ==> owed > 0
  }

  /** Each registered handler is stored, replaced, or was run; none twice. */
  ghost predicate HandlersOnce(h: Hooks, closed: bool) {
    && (forall id :: h.runs[id] <= if 0 <= id < h.registered then 1 else 0)
    && (!closed ==> h.runs == multiset{} &&
                    h.handler == if h.registered == 0 then None else Some(h.registered - 1))
    && (closed ==> h.handler == None && (h.registered > 0 ==> h.runs[h.registered - 1] == 1))
  }

  ghost predicate StartOnce(f: Flags) {
    (f.starting || f.started ==> f.startRequested) && !(f.starting && f.started)
  }

  ghost predicate Inv(s: State) {
    && Accounting(s.writer, s.limit, s.flags.closed)
    && Delivery(s.past, s.writer, s.flags.closed)
    && Exclusive(s.past, s.writer, s.flags)
    && Awake(s.writer, s.flags, s.owed)
    && HandlersOnce(s.hooks, s.flags.closed)
    && StartOnce(s.flags)
  }

  lemma {:induction false} TotalSizePush(values: seq<string>, v: string)
    ensures TotalSize(values + [v]) == TotalSize(values) + |v|
  {
    if values == [] {
      assert [v][1..] == [];
    } else {
      assert (values + [v])[1..] == values[1..] + [v];
      TotalSizePush(values[1..], v);
    }
  }

  lemma {:induction false} StepAccounting(s: State, a: Action)
    requires Accounting(s.writer, s.limit, s.flags.closed) && Enabled(s, a)
    ensures var t := Next(s, a); Accounting(t.writer, t.limit, t.flags.closed)
  {
    if a.Enqueue? {
      TotalSizePush(s.writer.queue, a.value);
    }
  }

  lemma {:induction false} WriteDoneDelivery(s: State, ec: Ec, bytes: nat)
    requires Enabled(s, WriteDone(ec, bytes))
    requires Delivery(s.past, s.writer, s.flags.closed) && Exclusive(s.past, s.writer, s.flags)
    ensures var t := AfterWrite(s, ec, bytes); Delivery(t.past, t.writer, t.flags.closed)
  {
    var sent, n := s.past.sent, s.past.written;
    if ec == 0 {
      assert sent[..n + 1] == sent[..n] + [sent[n]];
      FlattenPush(sent[..n], sent[n]);
    }
  }

  lemma {:induction false} StepDelivery(s: State, a: Action)
    requires Enabled(s, a)
    requires Delivery(s.past, s.writer, s.flags.closed) && Exclusive(s.past, s.writer, s.flags)
    ensures var t := Next(s, a); Delivery(t.past, t.writer, t.flags.closed)
  {
    match a {
      case Enqueue(value) => assert (s.past.sent + [value])[..s.past.written] == s.past.sent[..s.past.written];
      case WriteDone(ec, bytes) => WriteDoneDelivery(s, ec, bytes);
      case _ =>
    }
  }

  lemma {:induction false} StepExclusive(s: State, a: Action)
    requires Enabled(s, a)
    requires Delivery(s.past, s.writer, s.flags.closed) && Exclusive(s.past, s.writer, s.flags)
    ensures var t := Next(s, a); Exclusive(t.past, t.writer, t.flags)
  {
  }

  lemma {:induction false} StepAwake(s: State, a: Action)
    requires Enabled(s, a)
    requires Awake(s.writer, s.flags, s.owed) && Exclusive(s.past, s.writer, s.flags)
    ensures var t := Next(s, a); Awake(t.writer, t.flags, t.owed)
  {
  }

  lemma {:induction false} StepHandlers(s: State, a: Action)
    requires Enabled(s, a)
    requires HandlersOnce(s.hooks, s.flags.closed) && StartOnce(s.flags)
    ensures var t := Next(s, a); HandlersOnce(t.hooks, t.flags.closed) && StartOnce(t.flags)
  {
  }

  /** Every step of every thread keeps the invariant. */
  lemma {:induction false} StepKeepsInv(s: State, a: Action)
    requires Inv(s) && Enabled(s, a)
    ensures Inv(Next(s, a))
  {
    StepAccounting(s, a);
    StepDelivery(s, a);
    StepExclusive(s, a);
    StepAwake(s, a);
    StepHandlers(s, a);
  }

  // ---- Runs -----------------------------------------------------------------

  /** A run: each action was enabled when it was taken. */
  ghost predicate Run(s: State, actions: seq<Action>, t: State)
    decreases |actions|
  {
    if actions == [] then s == t
    else Enabled(s, actions[0]) && Run(Next(s, actions[0]), actions[1..], t)
  }

  ghost predicate Reachable(s: State) {
    s.limit < UINT64_LIMIT && exists actions :: Run(Init(s.limit), actions, s)
  }

  lemma {:induction false} RunKeepsInv(s: State, actions: seq<Action>, t: State)
    requires Inv(s) && Run(s, actions, t)
    ensures Inv(t)
    decreases |actions|
  {
    if actions != [] {
      StepKeepsInv(s, actions[0]);
      RunKeepsInv(Next(s, actions[0]), actions[1..], t);
    }
  }

  lemma {:induction false} ReachableInv(s: State)
    requires Reachable(s)
    ensures Inv(s)
  {
    var actions :| Run(Init(s.limit), actions, s);
    RunKeepsInv(Init(s.limit), actions, s);
  }

  /** Ordered delivery: at every moment the wire is a prefix of the accepted values, and once
      the stream has been asked to finish it is all of them. */
  lemma {:induction false} OrderedDelivery(s: State)
    requires Reachable(s)
    ensures s.past.wire <= Flatten(s.past.sent)
    ensures s.past.finishIssued ==> s.past.wire == Flatten(s.past.sent)
  {
    ReachableInv(s);
    PrefixOnWire(s.past.sent, s.past.written, s.past.torn);
    if s.past.finishIssued {
      assert s.past.sent[..s.past.written] == s.past.sent;
    }
  }

  lemma {:induction false} PrefixOnWire(sent: seq<string>, n: nat, torn: string)
    requires n <= |sent| && (torn != "" ==> n < |sent| && torn <= sent[n])
    ensures Flatten(sent[..n]) + torn <= Flatten(sent)
  {
    FlattenPrefix(sent, n);
    var before := Flatten(sent[..n]);
    if torn == "" {
      PrefixOfSum(before, "", Flatten(sent[n..]));
    } else {
      var left := sent[n][|torn|..];
      assert sent[n] == torn + left;
      assert sent[n..][0] == sent[n] && sent[n..][1..] == sent[n + 1..];
      var after := Flatten(sent[n + 1..]);
      assert (torn + left) + after == torn + (left + after);
      PrefixOfSum(before, torn, left + after);
    }
  }

  lemma {:induction false} PrefixOfSum(a: string, b: string, c: string)
    ensures a + b <= a + (b + c)
    ensures b == "" ==> a + b <= a + c
  {
    assert a + (b + c) == (a + b) + c;
    assert b == "" ==> a + b == a;
  }

  /** No lost wake-up: a started session at rest, with no operation in flight and no thread
      owing a wake-up, has written everything it accepted and was not asked to close. */
  lemma {:induction false} NoLostWakeup(s: State)
    requires Reachable(s) && s.flags.started && !s.flags.closed
    requires s.owed == 0 && s.writer.op.Idle?
    ensures !s.flags.closing && s.past.wire == Flatten(s.past.sent)
  {
    ReachableInv(s);
    assert s.past.sent[..s.past.written] == s.past.sent;
  }

  predicate Internal(a: Action) { a.WriteNext? || a.Issue? || a.WriteDone? || a.FinishDone? }

  /** The work left for the writer: queued values, the operation in flight, owed wake-ups. */
  function Work(s: State): nat {
    var op := s.writer.op;
    s.owed + 4 * |s.writer.queue| +
    if s.flags.closed then (if op.Idle? then 0 else if op.Decided? then 3 else 2)
    else if op.Idle? then 3 else if op.Decided? then 2 else 1
  }

  /** The writer comes to rest: every wake-up, issue and completion leaves less work. */
  lemma {:induction false} WriterComesToRest(s: State, a: Action)
    requires Reachable(s) && Enabled(s, a) && Internal(a)
    ensures Work(Next(s, a)) < Work(s)
  {
    ReachableInv(s);
  }

  /** The bytes subtracted by a completion were accounted for: the size never wraps. */
  lemma {:induction false} PendingBytesNeverWrap(s: State)
    requires Reachable(s)
    ensures s.writer.pendingBytes == TotalSize(s.writer.queue) <= s.limit
    ensures s.writer.queue != [] ==> |s.writer.queue[0]| <= s.writer.pendingBytes
  {
    ReachableInv(s);
  }

  /** Ending is final: nothing later reopens the session, changes its error code, accepts a
      value, or runs a handler that was registered before. */
  lemma {:induction false} EndIsFinal(s: State, a: Action)
    requires Reachable(s) && Enabled(s, a) && s.flags.closed
    ensures
      var t := Next(s, a);
      && t.flags.closed && t.hooks.closeError == s.hooks.closeError && t.past.sent == s.past.sent
      && forall id | 0 <= id < s.hooks.registered :: t.hooks.runs[id] == s.hooks.runs[id]
  {
    ReachableInv(s);
  }

  /** No close handler runs twice; when the session has ended, the last one registered ran. */
  lemma {:induction false} HandlersRunAtMostOnce(s: State)
    requires Reachable(s)
    ensures forall id :: s.hooks.runs[id] <= 1
    ensures s.flags.closed && s.hooks.registered > 0 ==> s.hooks.runs[s.hooks.registered - 1] == 1
  {
    ReachableInv(s);
  }

  // ---- The class ------------------------------------------------------------

  /** The implementation object; ghost fields hold the environment and the history. Each
      method is one critical section together with the step the caller takes after it. */
  class Impl {
    var queue: seq<string>
    var pendingBytes: nat
    const maxPendingBytes: nat
    var startRequested: bool
    var started: bool
    var writing: bool
    var closing: bool
    var closed: bool
    var closeError: Ec
    var closeHandler: Option<nat>

    ghost var starting: bool
    ghost var op: Op
    ghost var owed: nat
    ghost var registered: nat
    ghost var runs: multiset<nat>
    ghost var past: History

    ghost function View(): State
      reads this
    {
      State(maxPendingBytes, Flags(startRequested, starting, started, closing, closed),
            Writer(queue, pendingBytes, writing, op), Hooks(closeError, closeHandler, registered, runs), owed, past)
    }

    constructor (limit: nat)
      requires limit < UINT64_LIMIT
      ensures View() == Init(limit) && Inv(View())
    {
      queue, pendingBytes, maxPendingBytes := [], 0, limit;
      startRequested, started, writing, closing, closed := false, false, false, false, false;
      closeError, closeHandler := 0, None;
      starting, op, owed, registered, runs := false, Idle, 0, 0, multiset{};
      past := History([], 0, "", "", false);
    }

    method RequestStart() returns (issueStart: bool)
      modifies this
      ensures View() == Next(old(View()), Start)
      ensures issueStart <==> !old(startRequested) && !old(closed)
      ensures issueStart ==> startRequested && starting
    {
      if startRequested || closed {
        return false;
      }
      startRequested := true;
      starting := true;
      issueStart := true;
    }

    method OnStarted(ec: Ec) returns (run: Option<nat>)
      requires Enabled(View(), StartDone(ec))
      modifies this
      ensures View() == Next(old(View()), StartDone(ec))
      ensures if ec == 0 then started && closed == old(closed) && owed == old(owed) + 1 else closed
      ensures run == if ec != 0 && !old(closed) then old(closeHandler) else None
    {
      run := None;
      starting := false;
      if ec != 0 {
        run := End(ec);
        return;
      }
      started := true;
      owed := owed + 1;
    }

    method Enqueue(value: string) returns (accepted: bool)
      modifies this
      ensures View() == Next(old(View()), Action.Enqueue(value))
      ensures accepted <==>
              !old(closing) && !old(closed) && |value| <= maxPendingBytes && old(pendingBytes) + |value| <= maxPendingBytes
      ensures accepted ==>
                queue == old(queue) + [value] && pendingBytes == old(pendingBytes) + |value| && owed == old(owed) + 1
      ensures past.sent == if accepted then old(past.sent) + [value] else old(past.sent)
    {
      if closing || closed {
        return false;
      }
      if |value| > maxPendingBytes || pendingBytes > maxPendingBytes - |value| {
        return false;
      }
      pendingBytes := pendingBytes + |value|;
      queue := queue + [value];
      past := past.(sent := past.sent + [value]);
      owed := owed + 1;
      accepted := true;
    }

    /** Decides what to write next; the caller issues the returned job. */
    method WriteNext() returns (job: Option<Job>)
      requires owed > 0
      modifies this
      ensures View() == Next(old(View()), Action.WriteNext)
      ensures job ==
              if !started || old(writing) || closed then None
              else if queue != [] then Some(Write(queue[0]))
              else if closing then Some(Job.Finish)
              else None
      ensures job.Some? ==> writing && op == Decided(job.value)
    {
      owed := owed - 1;
      job := None;
      if !started || writing || closed {
        return;
      }
      if queue == [] {
        if !closing {
          return;
        }
        writing := true;
        job := Some(Job.Finish);
      } else {
        writing := true;
        job := Some(Write(queue[0]));
      }
      op := Decided(job.value);
    }

    method OnWritten(ec: Ec, ghost bytes: nat) returns (run: Option<nat>)
      requires Enabled(View(), WriteDone(ec, bytes))
      modifies this
      ensures View() == Next(old(View()), WriteDone(ec, bytes))
      ensures if ec == 0 then !writing && owed == old(owed) + 1 else closed
      ensures run == if ec != 0 && !old(closed) then old(closeHandler) else None
    {
      run := None;
      if ec != 0 {
        run := OnWriteFailed(ec, bytes);
      } else {
        PopWritten();
      }
    }

    method OnWriteFailed(ec: Ec, ghost bytes: nat) returns (run: Option<nat>)
      requires Enabled(View(), WriteDone(ec, bytes)) && ec != 0
      modifies this
      ensures View() == AfterWrite(old(View()), ec, bytes) && closed
      ensures run == if old(closed) then None else old(closeHandler)
    {
      ghost var torn := op.job.value[..bytes];
      op, past := Idle, past.(torn := torn, wire := past.wire + torn);
      run := End(ec);
    }

    /** The written value leaves the queue, unless the session was ended meanwhile. */
    method PopWritten()
      requires op.Issued? && op.job.Write?
      modifies `queue, `pendingBytes, `writing, `op, `owed, `past
      ensures View() == AfterWrite(old(View()), 0, |old(op).job.value|) && !writing && owed == old(owed) + 1
    {
      ghost var value := op.job.value;
      if queue != [] {
        queue, pendingBytes := queue[1..], Minus(pendingBytes, |queue[0]|);
      }
      writing, op, owed, past := false, Idle, owed + 1, past.(written := past.written + 1, wire := past.wire + value);
    }

    /** `finish`, called by failed operations, by the finished stream, by `cancel` and by the
        disconnect watch; returns the handler to run. */
    method End(ec: Ec) returns (run: Option<nat>)
      modifies this
      ensures View() == Finished(old(View()), ec)
      ensures run == if old(closed) then None else old(closeHandler)
      ensures closed && (!old(closed) ==> closeError == ec && queue == [] && closeHandler == None)
    {
      run := None;
      if !closed {
        run := closeHandler;
        runs := RunHandler(View().hooks, ec).runs;
        closed, closeError, closeHandler, queue, pendingBytes, writing := true, ec, None, [], 0, false;
      }
    }

    method RequestClose()
      modifies this
      ensures View() == Next(old(View()), Close)
      ensures closing && owed == old(owed) + 1
    {
      closing := true;
      owed := owed + 1;
    }

    /** Registers a close handler, named by its registration number; on an ended session it is run at once with the error code. */
    method SetCloseHandler(handler: nat) returns (runNow: Option<Ec>)
      requires handler == registered
      modifies this
      ensures View() == Next(old(View()), OnClose)
      ensures runNow == if old(closed) then Some(old(closeError)) else None
      ensures closeHandler == if old(closed) then old(closeHandler) else Some(handler)
    {
      if closed {
        runNow := Some(closeError);
        runs := runs[registered := runs[registered] + 1];
      } else {
        runNow := None;
        closeHandler := Some(handler);
      }
      registered := registered + 1;
    }
  }
}
