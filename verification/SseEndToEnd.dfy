/** The session, the wire and the reader together: what the client sees of what was sent. */
module SseEndToEnd {
  import opened Basics
  import opened SseFormat
  import opened SseRoundTrip
  import Session = SseSession

  /** The steps of a session whose values come from `send` and `send_comment`. */
  datatype Call = SendItem(item: Item) | Other(action: Session.Action)

  predicate Proper(c: Call) { c.Other? ==> !c.action.Enqueue? }

  function Step(c: Call): Session.Action {
    match c
    case SendItem(item) => Session.Enqueue(ItemText(item))
    case Other(action) => action
  }

  /** A run of calls from `s` to `t` in which exactly the items of `accepted` were sent with
      result true, in that order. */
  ghost predicate SendRun(s: Session.State, calls: seq<Call>, t: Session.State, accepted: seq<Item>)
    decreases |calls|
  {
    if calls == [] then s == t && accepted == []
    else
      var c, rest := calls[0], calls[1..];
      && Proper(c) && Session.Enabled(s, Step(c))
      && if c.SendItem? && Session.Accepts(s, |ItemText(c.item)|)
         then accepted != [] && accepted[0] == c.item && SendRun(Session.Next(s, Step(c)), rest, t, accepted[1..])
         else SendRun(Session.Next(s, Step(c)), rest, t, accepted)
  }

  function Texts(items: seq<Item>): seq<string> {
    if items == [] then [] else [ItemText(items[0])] + Texts(items[1..])
  }

  lemma {:induction false} TextsOnWire(items: seq<Item>)
    ensures Flatten(Texts(items)) == WireText(items)
  {
    if items != [] {
      TextsOnWire(items[1..]);
      assert Texts(items)[1..] == Texts(items[1..]);
    }
  }

  /** A step changes the accepted values only when a value is accepted. */
  lemma {:induction false} SentByStep(s: Session.State, a: Session.Action)
    requires Session.Enabled(s, a)
    ensures Session.Next(s, a).past.sent ==
            if a.Enqueue? && Session.Accepts(s, |a.value|) then s.past.sent + [a.value] else s.past.sent
  {
  }

  function Steps(calls: seq<Call>): seq<Session.Action> {
    if calls == [] then [] else [Step(calls[0])] + Steps(calls[1..])
  }

  /** A run of calls is a run of the session that accepts exactly the texts of the items. */
  lemma {:induction false} SendRunIsRun(s: Session.State, calls: seq<Call>, t: Session.State, accepted: seq<Item>)
    requires SendRun(s, calls, t, accepted)
    ensures Session.Run(s, Steps(calls), t)
    ensures t.past.sent == s.past.sent + Texts(accepted)
    ensures t.limit == s.limit
    decreases |calls|
  {
    if calls == [] {
      assert s.past.sent + [] == s.past.sent;
    } else {
      var c := calls[0];
      var next := Session.Next(s, Step(c));
      SentByStep(s, Step(c));
      assert Steps(calls)[1..] == Steps(calls[1..]);
      if c.SendItem? && Session.Accepts(s, |ItemText(c.item)|) {
        SendRunIsRun(next, calls[1..], t, accepted[1..]);
        SentMore(s.past.sent, accepted);
      } else {
        SendRunIsRun(next, calls[1..], t, accepted);
      }
    }
  }

  lemma {:induction false} SentMore(sent: seq<string>, accepted: seq<Item>)
    requires accepted != []
    ensures (sent + [ItemText(accepted[0])]) + Texts(accepted[1..]) == sent + Texts(accepted)
  {
  }

  lemma {:induction false} SessionWire(queueLimit: nat, calls: seq<Call>, s: Session.State, accepted: seq<Item>)
    requires queueLimit < UINT64_LIMIT && SendRun(Session.Init(queueLimit), calls, s, accepted)
    ensures s.past.wire <= WireText(accepted)
    ensures s.past.finishIssued ==> s.past.wire == WireText(accepted)
  {
    SendRunIsRun(Session.Init(queueLimit), calls, s, accepted);
    assert Session.Reachable(s);
    Session.OrderedDelivery(s);
    TextsOnWire(accepted);
    assert [] + Texts(accepted) == Texts(accepted);
  }

  // ---- Events of a prefix -----------------------------------------------------

  lemma {:induction false} EventsGrow(p: SseReading.Progress, lines: seq<string>, limit: nat)
    requires SseReading.ReadLines(p, lines, limit).Some?
    ensures p.events <= SseReading.ReadLines(p, lines, limit).value.events
    decreases |lines|
  {
    if lines != [] {
      EventsGrow(SseReading.ReadLine(p, lines[0], limit).value, lines[1..], limit);
    }
  }

  /** A reader of a prefix of the stream has dispatched a prefix of the events. */
  lemma {:induction false} PrefixEvents(prefix: string, stream: string, limit: nat)
    requires prefix <= stream && SseReading.Read(stream, limit).Some?
    ensures SseReading.Read(prefix, limit).Some?
    ensures SseReading.Read(prefix, limit).value.progress.events <= SseReading.Read(stream, limit).value.progress.events
  {
    var more := stream[|prefix|..];
    assert stream == prefix + more;
    if SseReading.Read(prefix, limit).None? {
      SseReading.FailureSticks(prefix, more, limit);
    }
    if !SseReading.BomPending(stream) {
      SseReading.ReadResumes(prefix, more, limit);
      var before := SseReading.Read(prefix, limit).value;
      EventsGrow(before.progress, SseReading.CutLines(SseReading.Pending(prefix, before.rest, more)).lines, limit);
    }
  }

  /** End to end. Whatever threads do, a client that reads the wire at any moment has received
      a prefix of the events whose `send` returned true; a gracefully closed stream parses to
      exactly those events, provided each item fits the limits of the reader. */
  lemma {:induction false} EndToEnd(queueLimit: nat, calls: seq<Call>, s: Session.State, accepted: seq<Item>, limit: nat)
    requires queueLimit < UINT64_LIMIT && SendRun(Session.Init(queueLimit), calls, s, accepted)
    requires AllFit(accepted, limit)
    ensures SseReading.Read(s.past.wire, limit).Some?
    ensures SseReading.Read(s.past.wire, limit).value.progress.events <= Received(accepted, "")
    ensures s.past.finishIssued ==>
              SseReading.Read(s.past.wire, limit).value.progress.events == Received(accepted, "")
  {
    SessionWire(queueLimit, calls, s, accepted);
    RoundTrip(accepted, limit);
    PrefixEvents(s.past.wire, WireText(accepted), limit);
  }
}
