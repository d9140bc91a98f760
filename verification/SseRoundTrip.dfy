/** Reading back what was formatted: every item is either refused by the reader's limits or
    recovered exactly, and comments are invisible. */
module SseRoundTrip {
  import opened Basics
  import opened SseReading
  import opened SseFormat

  // ---- What the receiver should see -----------------------------------------

  /** The last event id after an item: ids that are empty or hold a NUL are not taken over. */
  function IdAfter(item: Item, last: string): string {
    if item.Event? && item.e.id != "" && '\0' !in SingleLine(item.e.id) then SingleLine(item.e.id) else last
  }

  function ReceivedEvent(e: SseEvent, last: string): SseEvent {
    SseEvent(
      if SingleLine(e.event) == "" then "message" else SingleLine(e.event),
      Normalized(e.data),
      IdAfter(Event(e), last),
      e.retry)
  }

  /** What one item adds to the received events. */
  function Added(item: Item, last: string): seq<SseEvent> {
    if item.Event? then [ReceivedEvent(item.e, last)] else []
  }

  function Received(items: seq<Item>, last: string): seq<SseEvent> {
    if items == [] then [] else Added(items[0], last) + Received(items[1..], IdAfter(items[0], last))
  }

  function LastId(items: seq<Item>, last: string): string {
    if items == [] then last else LastId(items[1..], IdAfter(items[0], last))
  }

  predicate LinesFit(lines: seq<string>, limit: nat) {
    forall i | 0 <= i < |lines| :: |lines[i]| <= limit
  }

  /** The limits of the reader: no line, and no normalised data plus its LF, exceeds them. */
  predicate Fits(item: Item, limit: nat) {
    && LinesFit(ItemLines(item), limit)
    && (item.Event? ==> |Normalized(item.e.data)| + 1 <= limit)
  }

  // ---- From text to lines ---------------------------------------------------

  lemma {:induction false} ResumeOneLine(p: Progress, line: string, rest: string, limit: nat)
    requires OneLine(line)
    ensures Resume(p, line + "\n" + rest, limit) ==
            match ReadLine(p, line, limit)
            case None => None
            case Some(q) => Resume(q, rest, limit)
  {
    var text := line + "\n" + rest;
    assert text[..|line|] == line;
    FirstNewlineUnique(text, |line|);
    assert text[|line| + 1..] == rest;
  }

  lemma {:induction false} ResumeText(p: Progress, lines: seq<string>, rest: string, limit: nat)
    requires AreLines(lines)
    ensures Resume(p, TextOf(lines) + rest, limit) ==
            match ReadLines(p, lines, limit)
            case None => None
            case Some(q) => Resume(q, rest, limit)
    decreases |lines|
  {
    if lines == [] {
      assert TextOf(lines) + rest == rest;
    } else {
      var tail := TextOf(lines[1..]) + rest;
      assert TextOf(lines) + rest == lines[0] + "\n" + tail;
      ResumeOneLine(p, lines[0], tail, limit);
      var next := ReadLine(p, lines[0], limit);
      if next.Some? {
        ResumeText(next.value, lines[1..], rest, limit);
      }
    }
  }

  // ---- Fields ---------------------------------------------------------------

  lemma {:induction false} ReadField(name: string, prefix: string, value: string)
    requires ':' !in name && name != "" && prefix == name + ": "
    ensures (prefix + value)[0] != ':'
    ensures FieldName(prefix + value) == name
    ensures FieldValue(prefix + value) == value
  {
    var line := prefix + value;
    assert line[|name|] == ':';
    assert forall i | 0 <= i < |name| :: line[i] == name[i];
    assert Colon(line) == |name|;
    assert line[..|name|] == name;
    assert line[|name| + 2..] == value;
  }

  lemma {:induction false} ReadOne(p: Progress, line: string, limit: nat)
    ensures ReadLines(p, [line], limit) == ReadLine(p, line, limit)
    ensures LinesFit([line], limit) <==> |line| <= limit
  {
    assert [line][0] == line;
    assert [line][1..] == [];
  }

  lemma {:induction false} ReadEventLine(p: Progress, e: SseEvent, limit: nat)
    requires p.fields.event == ""
    ensures ReadLines(p, EventLine(e), limit) ==
            if LinesFit(EventLine(e), limit) then
              Some(p.(fields := p.fields.(event := SingleLine(e.event))))
            else None
  {
    if e.event != "" {
      var line := "event: " + SingleLine(e.event);
      ReadField("event", "event: ", SingleLine(e.event));
      ReadOne(p, line, limit);
    }
  }

  lemma {:induction false} ReadIdLine(p: Progress, e: SseEvent, limit: nat)
    ensures ReadLines(p, IdLine(e), limit) ==
            if LinesFit(IdLine(e), limit) then
              Some(p.(fields := p.fields.(lastEventId := IdAfter(Event(e), p.fields.lastEventId))))
            else None
  {
    if e.id != "" {
      var line := "id: " + SingleLine(e.id);
      ReadField("id", "id: ", SingleLine(e.id));
      ReadOne(p, line, limit);
    }
  }

  lemma {:induction false} ReadRetryLine(p: Progress, e: SseEvent, limit: nat)
    requires p.fields.retry == None
    ensures ReadLines(p, RetryLine(e), limit) ==
            if LinesFit(RetryLine(e), limit) then Some(p.(fields := p.fields.(retry := e.retry))) else None
  {
    if e.retry.Some? {
      var line := "retry: " + Digits.Render(e.retry.value, 10);
      ReadField("retry", "retry: ", Digits.Render(e.retry.value, 10));
      ReadOne(p, line, limit);
      Digits.RenderRoundTrip(e.retry.value, 10);
    }
  }

  // ---- Data -----------------------------------------------------------------

  /** The data lines are read exactly when each line and the joined data fit. */
  lemma {:induction false} ReadDataLines(p: Progress, pieces: seq<string>, limit: nat)
    requires |p.fields.data| <= limit
    ensures
      var data := p.fields.data + TextOf(pieces);
      ReadLines(p, DataLines(pieces), limit) ==
      if LinesFit(DataLines(pieces), limit) && |data| <= limit then Some(p.(fields := p.fields.(data := data)))
      else None
    decreases |pieces|
  {
    if pieces == [] {
      assert p.fields.data + "" == p.fields.data;
    } else {
      var lines := DataLines(pieces);
      ReadField("data", "data: ", pieces[0]);
      assert lines[0] == "data: " + pieces[0] && lines[1..] == DataLines(pieces[1..]);
      var data := p.fields.data + pieces[0] + "\n";
      assert p.fields.data + TextOf(pieces) == data + TextOf(pieces[1..]);
      FitCons(lines, limit);
      if |lines[0]| <= limit && |data| <= limit {
        ReadDataLines(p.(fields := p.fields.(data := data)), pieces[1..], limit);
      }
    }
  }

  lemma {:induction false} FitCons(lines: seq<string>, limit: nat)
    requires lines != []
    ensures LinesFit(lines, limit) <==> |lines[0]| <= limit && LinesFit(lines[1..], limit)
  {
  }

  lemma {:induction false} FitConcat(a: seq<string>, b: seq<string>, limit: nat)
    ensures LinesFit(a + b, limit) <==> LinesFit(a, limit) && LinesFit(b, limit)
  {
    if LinesFit(a + b, limit) {
      assert forall i | 0 <= i < |a| :: a[i] == (a + b)[i];
      assert forall i | 0 <= i < |b| :: b[i] == (a + b)[|a| + i];
    }
  }

  /** Joining the pieces with LFs is replacing every line break by an LF. */
  lemma {:induction false} PiecesNormalize(data: string)
    ensures TextOf(Pieces(data)) == Normalized(data) + "\n"
    decreases |data|
  {
    var n := FirstNewline(data);
    FirstNewlineFound(data);
    if n == |data| {
      assert data[..n] == data;
      CutPlain(data);
      NormalizedLine(data, "");
      assert data + "" == data;
      assert TextOf([data]) == data + "\n" by { assert [data][1..] == []; }
    } else {
      var tail := data[n + BreakSize(data, n)..];
      PiecesOfText(data, n);
      PiecesNormalize(tail);
      assert data == data[..n] + data[n..];
      NormalizedLine(data[..n], data[n..]);
      assert Normalized(data[n..]) == "\n" + Normalized(tail) by {
        assert data[n..][BreakSize(data, n)..] == tail;
      }
      TextOfFirst(data[..n], Pieces(tail));
      assert data[..n] + "\n" + (Normalized(tail) + "\n") == data[..n] + ("\n" + Normalized(tail)) + "\n";
    }
  }

  lemma {:induction false} TextOfFirst(line: string, lines: seq<string>)
    ensures TextOf([line] + lines) == line + "\n" + TextOf(lines)
  {
    assert ([line] + lines)[1..] == lines;
  }

  lemma {:induction false} NormalizedLine(line: string, rest: string)
    requires OneLine(line)
    ensures Normalized(line + rest) == line + Normalized(rest)
    decreases |line|
  {
    if line == "" {
      assert line + rest == rest;
    } else {
      assert (line + rest)[0] == line[0] && (line + rest)[1..] == line[1..] + rest;
      NormalizedLine(line[1..], rest);
    }
  }

  // ---- Items ----------------------------------------------------------------

  lemma {:induction false} ReadHead(p: Progress, e: SseEvent, limit: nat)
    requires p.fields.event == "" && p.fields.retry == None
    ensures
      var f := p.fields;
      ReadLines(p, HeadLines(e), limit) ==
      if LinesFit(HeadLines(e), limit) then
        Some(p.(fields := Fields(SingleLine(e.event), f.data, IdAfter(Event(e), f.lastEventId), e.retry)))
      else None
  {
    var two := EventLine(e) + IdLine(e);
    ReadLinesConcat(p, two, RetryLine(e), limit);
    ReadLinesConcat(p, EventLine(e), IdLine(e), limit);
    FitConcat(two, RetryLine(e), limit);
    FitConcat(EventLine(e), IdLine(e), limit);
    ReadEventLine(p, e, limit);
    var p1 := p.(fields := p.fields.(event := SingleLine(e.event)));
    ReadIdLine(p1, e, limit);
    var p2 := p1.(fields := p1.fields.(lastEventId := IdAfter(Event(e), p1.fields.lastEventId)));
    ReadRetryLine(p2, e, limit);
  }

  /** The fields between two items. */
  function Between(last: string): Fields { Fields("", "", last, None) }

  lemma {:induction false} ReadEventItem(events: seq<SseEvent>, e: SseEvent, last: string, limit: nat)
    ensures ReadLines(Progress(Between(last), events), ItemLines(Event(e)), limit) ==
            if Fits(Event(e), limit) then
              Some(Progress(Between(IdAfter(Event(e), last)), events + [ReceivedEvent(e, last)]))
            else None
  {
    var p := Progress(Between(last), events);
    var head, body := HeadLines(e), DataLines(Pieces(e.data));
    ReadLinesConcat(p, head + body, [""], limit);
    ReadLinesConcat(p, head, body, limit);
    FitConcat(head + body, [""], limit);
    FitConcat(head, body, limit);
    ReadHead(p, e, limit);
    var f := Fields(SingleLine(e.event), "", IdAfter(Event(e), last), e.retry);
    ReadDataLines(Progress(f, events), Pieces(e.data), limit);
    PiecesNormalize(e.data);
    var data := Normalized(e.data) + "\n";
    assert "" + data == data && data[..|data| - 1] == Normalized(e.data);
    ReadOne(Progress(f.(data := data), events), "", limit);
  }

  lemma {:induction false} ReadCommentItem(events: seq<SseEvent>, text: string, last: string, limit: nat)
    ensures ReadLines(Progress(Between(last), events), ItemLines(Comment(text)), limit) ==
            if Fits(Comment(text), limit) then Some(Progress(Between(last), events)) else None
  {
    var p := Progress(Between(last), events);
    var line := ": " + SingleLine(text);
    assert ItemLines(Comment(text)) == [line] + [""];
    ReadLinesConcat(p, [line], [""], limit);
    FitConcat([line], [""], limit);
    ReadOne(p, line, limit);
    ReadOne(p, "", limit);
  }

  /** The progress after reading all items. */
  function AfterItems(items: seq<Item>, last: string, events: seq<SseEvent>): Progress {
    Progress(Between(LastId(items, last)), events + Received(items, last))
  }

  predicate AllFit(items: seq<Item>, limit: nat) {
    forall i | 0 <= i < |items| :: Fits(items[i], limit)
  }

  lemma {:induction false} AllFitCons(items: seq<Item>, limit: nat)
    requires items != []
    ensures AllFit(items, limit) <==> Fits(items[0], limit) && AllFit(items[1..], limit)
  {
    assert forall i | 0 <= i < |items[1..]| :: items[1..][i] == items[i + 1];
  }

  lemma {:induction false} ReadItem(events: seq<SseEvent>, item: Item, last: string, limit: nat)
    ensures ReadLines(Progress(Between(last), events), ItemLines(item), limit) ==
            if Fits(item, limit) then Some(Progress(Between(IdAfter(item, last)), events + Added(item, last)))
            else None
  {
    match item {
      case Event(e) => ReadEventItem(events, e, last, limit);
      case Comment(text) =>
        ReadCommentItem(events, text, last, limit);
        assert events + [] == events;
    }
  }

  lemma {:induction false} ReadItems(items: seq<Item>, last: string, events: seq<SseEvent>, limit: nat)
    ensures Resume(Progress(Between(last), events), WireText(items), limit) ==
            if AllFit(items, limit) then Some(Reading(AfterItems(items, last, events), "")) else None
    decreases |items|
  {
    if items == [] {
      assert events + [] == events;
    } else {
      var item, rest := items[0], items[1..];
      var id, added := IdAfter(item, last), Added(item, last);
      ItemLinesAreLines(item);
      ResumeText(Progress(Between(last), events), ItemLines(item), WireText(rest), limit);
      ReadItem(events, item, last, limit);
      ReadItems(rest, id, events + added, limit);
      Associate(events, added, Received(rest, id));
      AllFitCons(items, limit);
    }
  }

  lemma {:induction false} ItemLinesAreLines(item: Item)
    ensures AreLines(ItemLines(item))
  {
    match item {
      case Comment(text) =>
      case Event(e) =>
        HeadLinesAreLines(e);
        RestIsOneLine(e.data);
        DataLinesAreLines(Pieces(e.data));
        AreLinesConcat(HeadLines(e), DataLines(Pieces(e.data)));
        AreLinesConcat(HeadLines(e) + DataLines(Pieces(e.data)), [""]);
    }
  }

  predicate AreLines(lines: seq<string>) {
    forall i | 0 <= i < |lines| :: OneLine(lines[i])
  }

  lemma {:induction false} AreLinesConcat(a: seq<string>, b: seq<string>)
    requires AreLines(a) && AreLines(b)
    ensures AreLines(a + b)
  {
  }

  lemma {:induction false} HeadLinesAreLines(e: SseEvent)
    ensures AreLines(HeadLines(e))
  {
    if e.retry.Some? {
      var digits := Digits.Render(e.retry.value, 10);
      Digits.RenderRoundTrip(e.retry.value, 10);
      assert OneLine(digits);
      assert OneLine("retry: " + digits);
    }
    assert AreLines(EventLine(e)) && AreLines(IdLine(e));
    AreLinesConcat(EventLine(e), IdLine(e));
    AreLinesConcat(EventLine(e) + IdLine(e), RetryLine(e));
  }

  lemma {:induction false} DataLinesAreLines(pieces: seq<string>)
    requires AreLines(pieces)
    ensures AreLines(DataLines(pieces))
  {
    if pieces != [] {
      DataLinesAreLines(pieces[1..]);
      assert OneLine("data: " + pieces[0]);
      AreLinesConcat(["data: " + pieces[0]], DataLines(pieces[1..]));
    }
  }

  /** The round trip: for every sequence of sent items, the reader of the wire text fails
      exactly when an item exceeds its limits; otherwise it receives exactly the sent events,
      in order, is left between two events, and holds no unfinished line. */
  lemma {:induction false} RoundTrip(items: seq<Item>, limit: nat)
    ensures Read(WireText(items), limit) ==
            if AllFit(items, limit) then Some(Reading(Progress(Between(LastId(items, "")), Received(items, "")), ""))
            else None
  {
    var text := WireText(items);
    if items == [] {
      assert BomPending(text);
    } else {
      FirstCharacter(items[0]);
      assert text[0] == ItemText(items[0])[0];
      NoBom(text);
      ReadItems(items, "", [], limit);
      ResumeIsInterpret(Progress(CLEAN, []), text, limit);
      var received := Received(items, "");
      assert [] + received == received;
      assert AfterItems(items, "", []) == Progress(Between(LastId(items, "")), received);
    }
  }

  lemma {:induction false} NoBom(text: string)
    requires text != "" && text[0] != BOM[0]
    ensures !BomPending(text) && StripBom(text) == text
  {
  }

  lemma {:induction false} FirstCharacter(item: Item)
    ensures ItemText(item) != "" && ItemText(item)[0] != BOM[0]
  {
    var lines := ItemLines(item);
    if item.Event? {
      var pieces := Pieces(item.e.data);
      assert DataLines(pieces)[0] == "data: " + pieces[0];
    }
    assert lines[0] != "" && lines[0][0] != BOM[0];
  }
}
