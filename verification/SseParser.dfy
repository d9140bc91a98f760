/** The incremental event-stream parser (framework/sse/sse_parser.cpp) and the client loop
    that feeds it network reads (framework/client/sse_client.cpp). */
module SseParser {
  import opened Basics
  import opened SseReading

  /** The bytes of `text` at or after `from` up to the next CR or LF. */
  function FindNewline(text: string, from: nat): (n: nat)
    requires from <= |text|
    ensures from <= n <= |text|
  {
    from + FirstNewline(text[from..])
  }

  class SseParser {
    var buffer: string
    var event: string
    var data: string
    var lastEventId: string
    var retry: Option<uint64>
    var atStreamStart: bool
    var skipLeadingLf: bool
    const maxEventBytes: nat

    /** Every byte fed since construction or the last reset. */
    ghost var stream: string

    constructor (limit: nat)
      requires limit < UINT64_LIMIT - 1
      ensures Valid() && stream == "" && maxEventBytes == limit
    {
      maxEventBytes := limit;
      buffer, event, data, lastEventId, retry := "", "", "", "", None;
      atStreamStart, skipLeadingLf := true, false;
      stream := "";
    }

    function Collected(): Fields
      reads this
    {
      Fields(event, data, lastEventId, retry)
    }

    /** The parser is where the whole-stream reading of `stream` is, and holds the
        unfinished line and nothing more. */
    ghost predicate Valid()
      reads this
    {
      && maxEventBytes < UINT64_LIMIT - 1
      && var reading := Read(stream, maxEventBytes);
      && reading.Some?
      && buffer == reading.value.rest
      && Collected() == reading.value.progress.fields
      && atStreamStart == BomPending(stream)
      && skipLeadingLf == EndsWithCr(stream)
      && |buffer| <= Max(maxEventBytes, 2)
      && Bounded()
    }

    ghost function Dispatched(): seq<SseEvent>
      requires Valid()
      reads this
    {
      Read(stream, maxEventBytes).value.progress.events
    }

    method Reset()
      modifies this
      ensures stream == "" && (maxEventBytes < UINT64_LIMIT - 1 ==> Valid())
    {
      buffer, event, data, lastEventId, retry := "", "", "", "", None;
      atStreamStart, skipLeadingLf := true, false;
      stream := "";
    }

    ghost predicate Bounded()
      reads this
    {
      |data| <= maxEventBytes && |event| <= maxEventBytes && |lastEventId| <= maxEventBytes
    }

    method SplitLine(line: string) returns (field: string, value: string)
      ensures field == FieldName(line) && value == FieldValue(line)
    {
      var colon := Colon(line);
      field := line[..colon];
      value := if colon == |line| then "" else line[colon + 1..];
      if value != "" && value[0] == ' ' {
        value := value[1..];
      }
    }

    /** A blank line: the collected event goes out, if it has any data. */
    method DispatchEvent(ghost before: seq<SseEvent>, events: seq<SseEvent>) returns (events': seq<SseEvent>)
      modifies `event, `data, `retry
      ensures Progress(Collected(), before + events') == Dispatch(Progress(old(Collected()), before + events))
      ensures event == data == ""
    {
      events' := events;
      if data != "" {
        data := data[..|data| - 1];
        events' := events + [SseEvent(if event == "" then "message" else event, data, lastEventId, retry)];
        assert before + events' == before + events + [events'[|events|]];
      }
      event, data, retry := "", "", None;
    }

    /** One finished line; false stands for the thrown length error. */
    method ProcessLine(line: string, ghost before: seq<SseEvent>, events: seq<SseEvent>)
      returns (ok: bool, events': seq<SseEvent>)
      requires |line| <= maxEventBytes < UINT64_LIMIT
      requires Bounded()
      modifies `event, `data, `lastEventId, `retry
      ensures Bounded()
      ensures ReadLine(Progress(old(Collected()), before + events), line, maxEventBytes) ==
              if ok then Some(Progress(Collected(), before + events')) else None
    {
      ok, events' := true, events;
      if line == "" {
        events' := DispatchEvent(before, events);
        return;
      }
      if line[0] == ':' {
        return;
      }
      var field, value := SplitLine(line);
      if |value| > maxEventBytes {
        return false, events;
      }
      if field == "event" {
        event := value;
      } else if field == "data" {
        if |value| >= maxEventBytes || |data| > maxEventBytes - |value| - 1 {
          return false, events;
        }
        data := data + value;
        data := data + "\n";
      } else if field == "id" && '\0' !in value {
        lastEventId := value;
      } else if field == "retry" && value != "" && Digits.AllDecimal(value) {
        var n := Digits.Value(value, 10);
        retry := if n < UINT64_LIMIT then Some(n) else None;
      }
    }

    /** Processes the line of the buffer that ends at `newline`, if it is short enough. */
    method ProcessLineAt(consumed: nat, newline: nat, ghost before: seq<SseEvent>, events: seq<SseEvent>)
      returns (ok: bool, events': seq<SseEvent>, next: nat)
      requires maxEventBytes < UINT64_LIMIT && !skipLeadingLf
      requires consumed < |buffer| && newline == FindNewline(buffer, consumed) < |buffer|
      requires Bounded()
      modifies `event, `data, `lastEventId, `retry, `skipLeadingLf
      ensures Bounded()
      ensures ReadLine(Progress(old(Collected()), before + events), buffer[consumed..newline], maxEventBytes) ==
              if ok then Some(Progress(Collected(), before + events')) else None
      ensures ok ==> next == newline + BreakSize(buffer, newline)
      ensures ok ==> skipLeadingLf == (next == |buffer| && EndsWithCr(buffer))
    {
      if newline - consumed > maxEventBytes {
        return false, events, newline + 1;
      }
      var line := buffer[consumed..newline];
      ok, events' := ProcessLine(line, before, events);
      if buffer[newline] == '\r' && newline + 1 < |buffer| && buffer[newline + 1] == '\n' {
        next := newline + 2;
      } else {
        next := newline + 1;
        if buffer[newline] == '\r' && next == |buffer| {
          skipLeadingLf := true;
        }
      }
    }

    /** Reading on from position `consumed` of the buffer leads to `goal`. */
    ghost predicate Standing(consumed: nat, events: seq<SseEvent>, goal: Option<Reading>)
      reads this
    {
      && consumed <= |buffer| && skipLeadingLf == (consumed == |buffer| && EndsWithCr(buffer)) && Bounded()
      && Resume(Progress(Collected(), events), buffer[consumed..], maxEventBytes) == goal
    }

    /** One round of the inner loop of `feed`. */
    method TakeLine(consumed: nat, newline: nat, ghost before: seq<SseEvent>, events: seq<SseEvent>,
                    ghost goal: Option<Reading>)
      returns (ok: bool, events': seq<SseEvent>, next: nat)
      requires maxEventBytes < UINT64_LIMIT && consumed < |buffer| && Standing(consumed, before + events, goal)
      requires newline == FindNewline(buffer, consumed) < |buffer|
      modifies `event, `data, `lastEventId, `retry, `skipLeadingLf
      ensures Bounded()
      ensures ok ==> next > consumed && Standing(next, before + events', goal)
      ensures !ok ==> goal.None?
    {
      ghost var p := Progress(Collected(), before + events);
      ok, events', next := ProcessLineAt(consumed, newline, before, events);
      if ok {
        ResumeLineAt(p, Progress(Collected(), before + events'), buffer, consumed, newline, next, maxEventBytes, goal);
      } else {
        ResumeFails(p, buffer, consumed, newline, maxEventBytes, goal);
      }
    }

    /** The end of the loop: the finished lines are erased, and the rest must not be too long. */
    method DropLines(consumed: nat, ghost events: seq<SseEvent>, ghost goal: Option<Reading>) returns (ok: bool)
      requires Standing(consumed, events, goal)
      requires consumed < |buffer| ==> FindNewline(buffer, consumed) == |buffer|
      modifies `buffer
      ensures goal == if ok then Some(Reading(Progress(Collected(), events), buffer)) else None
      ensures ok ==> skipLeadingLf == EndsWithCr(old(buffer)) && |buffer| <= maxEventBytes
    {
      NoLineLeft(Progress(Collected(), events), buffer, consumed, maxEventBytes);
      if consumed != 0 {
        buffer := buffer[consumed..];
      } else {
        assert buffer[0..] == buffer;
      }
      ok := |buffer| <= maxEventBytes;
    }

    /** The inner loop of `feed`: processes the finished lines of the buffer, erases them,
        and checks the length of the unfinished one. */
    method ProcessLines(ghost before: seq<SseEvent>, events: seq<SseEvent>)
      returns (ok: bool, events': seq<SseEvent>)
      requires maxEventBytes < UINT64_LIMIT && !skipLeadingLf && Bounded()
      modifies `buffer, `event, `data, `lastEventId, `retry, `skipLeadingLf
      ensures Resume(Progress(old(Collected()), before + events), old(buffer), maxEventBytes) ==
              if ok then Some(Reading(Progress(Collected(), before + events'), buffer)) else None
      ensures ok ==> skipLeadingLf == EndsWithCr(old(buffer)) && |buffer| <= maxEventBytes
      ensures Bounded()
    {
      events' := events;
      var consumed := 0;
      ghost var goal := Resume(Progress(Collected(), before + events), buffer, maxEventBytes);
      assert buffer[0..] == buffer;
      while consumed < |buffer|
        invariant buffer == old(buffer) && Standing(consumed, before + events', goal)
        decreases |buffer| - consumed
      {
        var newline := FindNewline(buffer, consumed);
        if newline == |buffer| {
          break;
        }
        ok, events', consumed := TakeLine(consumed, newline, before, events', goal);
        if !ok {
          return;
        }
      }
      ok := DropLines(consumed, before + events', goal);
    }

    /** Appends a chunk to the buffer and drops a carried-over LF or a byte order mark from
        its front. While only a beginning of the mark has arrived there is nothing to do yet. */
    method AppendChunk(chunk: string) returns (waiting: bool)
      requires Valid() && chunk != ""
      modifies `buffer, `skipLeadingLf, `atStreamStart, `stream
      ensures stream == old(stream) + chunk
      ensures waiting == atStreamStart == BomPending(stream)
      ensures !skipLeadingLf
      ensures buffer == if waiting then stream else Pending(old(stream), old(buffer), chunk)
    {
      buffer := buffer + chunk;
      if skipLeadingLf && buffer != "" {
        NothingHeldAfterCr(stream, maxEventBytes);
        if buffer[0] == '\n' {
          buffer := buffer[1..];
        }
        skipLeadingLf := false;
      }
      stream := stream + chunk;
      if atStreamStart {
        var prefixSize := Min(|buffer|, |BOM|);
        if buffer[..prefixSize] == BOM[..prefixSize] && |buffer| < |BOM| {
          return true;
        }
        if buffer[..prefixSize] == BOM {
          buffer := buffer[|BOM|..];
        }
        atStreamStart := false;
      } else {
        StripBomExtends(old(stream), chunk);
      }
      waiting := false;
    }

    /** The body of the chunk loop: append the chunk and process what is there. */
    method FeedChunk(chunk: string, ghost before: seq<SseEvent>, events: seq<SseEvent>)
      returns (ok: bool, events': seq<SseEvent>)
      requires Valid() && Dispatched() == before + events
      requires chunk != ""
      modifies this
      ensures stream == old(stream) + chunk
      ensures ok <==> Read(stream, maxEventBytes).Some?
      ensures ok ==> Valid() && Dispatched() == before + events'
    {
      var waiting := AppendChunk(chunk);
      if waiting {
        NoCrInBom(stream);
        return true, events;
      }
      ReadResumes(old(stream), chunk, maxEventBytes);
      PendingEndsWithCr(old(stream), old(buffer), chunk);
      ResumeIsInterpret(Progress(Collected(), before + events), buffer, maxEventBytes);
      ok, events' := ProcessLines(before, events);
    }

    /** Feeds the next bytes of the stream. The length error (no result) is thrown exactly when
        the stream fed so far exceeds a limit; otherwise the returned events continue those
        dispatched before. */
    method Feed(bytes: string) returns (result: Option<seq<SseEvent>>)
      requires Valid()
      modifies this
      ensures stream == old(stream) + bytes
      ensures result.None? <==> Read(stream, maxEventBytes).None?
      ensures result.Some? ==> Valid() && Dispatched() == old(Dispatched()) + result.value
    {
      var events: seq<SseEvent> := [];
      ghost var before := Dispatched();
      var offset := 0;
      var configuredChunkLimit := maxEventBytes + 1;
      var chunkLimit := Max(configuredChunkLimit, 3);
      while offset < |bytes|
        invariant offset <= |bytes|
        invariant stream == old(stream) + bytes[..offset]
        invariant Valid() && Dispatched() == before + events
        decreases |bytes| - offset
      {
        var available := chunkLimit - |buffer|;
        var chunkSize := Min(available, |bytes| - offset);
        var ok;
        ok, events := FeedChunk(bytes[offset..offset + chunkSize], before, events);
        TakeMore(old(stream), bytes, offset, chunkSize);
        offset := offset + chunkSize;
        if !ok {
          FailureSticks(stream, bytes[offset..], maxEventBytes);
          SplitAt(old(stream), bytes, offset);
          stream := stream + bytes[offset..];
          return None;
        }
      }
      result := Some(events);
    }
  }

  /** Reading on from inside the buffer, by buffer positions. */
  lemma {:induction false} ResumeLineAt(p: Progress, q: Progress, buffer: string, consumed: nat, newline: nat,
                                        next: nat, limit: nat, goal: Option<Reading>)
    requires consumed < |buffer| && newline == FindNewline(buffer, consumed) < |buffer|
    requires next == newline + BreakSize(buffer, newline)
    requires ReadLine(p, buffer[consumed..newline], limit) == Some(q)
    requires Resume(p, buffer[consumed..], limit) == goal
    ensures consumed < next <= |buffer| && Resume(q, buffer[next..], limit) == goal
  {
    LineShifted(buffer, consumed, newline, next);
    ResumeStep(p, q, buffer[consumed..], newline - consumed, buffer[next..], limit, goal);
  }

  lemma {:induction false} LineShifted(buffer: string, consumed: nat, newline: nat, next: nat)
    requires consumed <= newline < |buffer| && next == newline + BreakSize(buffer, newline)
    ensures
      var text, n := buffer[consumed..], newline - consumed;
      consumed < next <= |buffer| && text[..n] == buffer[consumed..newline] && text[n + BreakSize(text, n)..] == buffer[next..]
  {
  }

  lemma {:induction false} ResumeStep(p: Progress, q: Progress, text: string, n: nat, after: string, limit: nat,
                                      goal: Option<Reading>)
    requires n == FirstNewline(text) < |text| && after == text[n + BreakSize(text, n)..]
    requires ReadLine(p, text[..n], limit) == Some(q) && Resume(p, text, limit) == goal
    ensures Resume(q, after, limit) == goal
  {
  }

  lemma {:induction false} ResumeFails(p: Progress, buffer: string, consumed: nat, newline: nat,
                                       limit: nat, goal: Option<Reading>)
    requires consumed < |buffer| && newline == FindNewline(buffer, consumed) < |buffer|
    requires ReadLine(p, buffer[consumed..newline], limit).None?
    requires Resume(p, buffer[consumed..], limit) == goal
    ensures goal.None?
  {
    var text, n := buffer[consumed..], newline - consumed;
    assert text[..n] == buffer[consumed..newline];
  }

  lemma {:induction false} NoCrInBom(stream: string)
    requires BomPending(stream)
    ensures !EndsWithCr(stream)
  {
  }

  /** Reading on from where no line ends any more. */
  lemma {:induction false} NoLineLeft(p: Progress, buffer: string, consumed: nat, limit: nat)
    requires consumed <= |buffer|
    requires consumed < |buffer| ==> FindNewline(buffer, consumed) == |buffer|
    ensures
      var rest := buffer[consumed..];
      Resume(p, rest, limit) == if |rest| > limit then None else Some(Reading(p, rest))
    ensures consumed < |buffer| ==> !EndsWithCr(buffer)
  {
    var text := buffer[consumed..];
    assert FirstNewline(text) == |text|;
    if consumed < |buffer| {
      FirstNewlineFound(text);
      assert text[..|text|] == text;
      assert text[|text| - 1] == buffer[|buffer| - 1];
    }
  }

  /** What the client has seen when its read loop ends. */
  datatype Outcome = Complete | TooLarge

  /** The read loop of the client: every read is fed to the parser and the events it yields
      are emitted; a length error ends the subscription. However the stream was cut into
      fragments, the outcome and the events are those of the whole-stream reading. */
  method ReadAll(fragments: seq<string>, limit: nat) returns (outcome: Outcome, emitted: seq<SseEvent>)
    requires limit < UINT64_LIMIT - 1
    ensures outcome.TooLarge? <==> Read(Flatten(fragments), limit).None?
    ensures outcome.Complete? ==> emitted == Read(Flatten(fragments), limit).value.progress.events
    ensures outcome.TooLarge? ==>
              exists k :: 0 <= k < |fragments| && Read(Flatten(fragments[..k]), limit).Some? &&
                          emitted == Read(Flatten(fragments[..k]), limit).value.progress.events
  {
    var parser := new SseParser(limit);
    emitted := [];
    var i := 0;
    while i < |fragments|
      invariant i <= |fragments|
      invariant fresh(parser) && parser.Valid() && parser.maxEventBytes == limit
      invariant parser.stream == Flatten(fragments[..i])
      invariant emitted == parser.Dispatched()
    {
      FlattenPush(fragments[..i], fragments[i]);
      assert fragments[..i + 1] == fragments[..i] + [fragments[i]];
      if fragments[i] != "" {
        var result := parser.Feed(fragments[i]);
        if result.None? {
          FlattenPrefix(fragments, i + 1);
          FailsAfter(fragments, i + 1, limit);
          return TooLarge, emitted;
        }
        emitted := emitted + result.value;
      }
      i := i + 1;
    }
    assert fragments[..i] == fragments;
    outcome := Complete;
  }

  lemma {:induction false} FailsAfter(fragments: seq<string>, k: nat, limit: nat)
    requires k <= |fragments| && Read(Flatten(fragments[..k]), limit).None?
    ensures Read(Flatten(fragments), limit).None?
  {
    FlattenPrefix(fragments, k);
    FailureSticks(Flatten(fragments[..k]), Flatten(fragments[k..]), limit);
  }
}
