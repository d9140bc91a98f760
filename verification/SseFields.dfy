/** What each kind of line of an event stream does to its reader (WHATWG HTML, section 9.2.6),
    however the line is written: `name: value`, `name:value` or `name` alone. */
module SseFields {
  import opened Basics
  import opened SseReading
  import opened SseRoundTrip
  import Digits

  /** The ways in which a line gives a field a value. */
  predicate Gives(line: string, name: string, value: string) {
    && name != "" && ':' !in name
    && (|| line == name + ": " + value
        || (line == name + ":" + value && (value == "" || value[0] != ' '))
        || (line == name && value == ""))
  }

  lemma {:induction false} ColonAfter(name: string, rest: string)
    requires ':' !in name
    ensures Colon(name + ":" + rest) == |name| && Colon(name) == |name|
  {
    var line := name + ":" + rest;
    assert line[|name|] == ':';
    assert forall i | 0 <= i < |name| :: line[i] == name[i];
  }

  /** One space after the colon does not belong to the value, and need not be there. */
  lemma {:induction false} FieldRead(line: string, name: string, value: string)
    requires Gives(line, name, value)
    ensures line != "" && line[0] != ':' && FieldName(line) == name && FieldValue(line) == value
  {
    ColonAfter(name, value);
    if line == name {
      assert line[..|name|] == name;
    } else if line == name + ": " + value {
      ReadField(name, name + ": ", value);
    } else {
      assert line[|name| + 1..] == value && line[..|name|] == name;
    }
  }

  /** A line that gives a field a value sets the event name or the id, adds to the data, sets the
      retry, or does nothing; only data can exceed a limit other than that of the line. */
  lemma {:induction false} FieldLine(p: Progress, line: string, name: string, value: string, limit: nat)
    requires Gives(line, name, value) && |line| <= limit
    ensures
      var f, r := p.fields, ReadLine(p, line, limit);
      && (name == "event" ==> r == Some(Progress(Fields(value, f.data, f.lastEventId, f.retry), p.events)))
      && (name == "data" ==>
            r == if |f.data| + |value| + 1 > limit then None
                 else Some(Progress(Fields(f.event, f.data + value + "\n", f.lastEventId, f.retry), p.events)))
      && (name == "id" ==>
            r == Some(Progress(Fields(f.event, f.data, if '\0' in value then f.lastEventId else value, f.retry), p.events)))
      && (name !in {"event", "data", "id", "retry"} ==> r == Some(p))
  {
    FieldRead(line, name, value);
  }

  /** A retry is read if it is a decimal number, and dropped if that needs more than 64 bits. */
  lemma {:induction false} RetryLine(p: Progress, line: string, value: string, limit: nat)
    requires Gives(line, "retry", value) && |line| <= limit
    ensures
      var f, r := p.fields, ReadLine(p, line, limit);
      r == Some(Progress(Fields(f.event, f.data, f.lastEventId,
                                if value == "" || !Digits.AllDecimal(value) then f.retry
                                else if Digits.Value(value, 10) < 0x1_0000_0000_0000_0000 then Some(Digits.Value(value, 10))
                                else None), p.events))
  {
    FieldRead(line, "retry", value);
  }

  /** A comment does nothing; a line over the limit is a failure, whatever it says. */
  lemma {:induction false} OtherLine(p: Progress, line: string, limit: nat)
    ensures |line| > limit ==> ReadLine(p, line, limit).None?
    ensures |line| <= limit && line != "" && line[0] == ':' ==> ReadLine(p, line, limit) == Some(p)
  {
  }

  /** A blank line dispatches the data but its last line break, under the name "message" if none
      was given; without data nothing is dispatched. Only the id is kept. */
  lemma {:induction false} BlankLine(p: Progress, limit: nat)
    ensures
      var f := p.fields;
      var cleared := Fields("", "", f.lastEventId, None);
      && (f.data == "" ==> ReadLine(p, "", limit) == Some(Progress(cleared, p.events)))
      && forall data | f.data == data + "\n" ::
           ReadLine(p, "", limit) ==
           Some(Progress(cleared, p.events + [SseEvent(if f.event == "" then "message" else f.event, data,
                                                       f.lastEventId, f.retry)]))
  {
    forall data | p.fields.data == data + "\n" ensures p.fields.data[..|p.fields.data| - 1] == data {
    }
  }

  lemma {:induction false} LineThenBlank(p: Progress, line: string, q: Progress, limit: nat)
    requires OneLine(line) && ReadLine(p, line, limit) == Some(q)
    ensures Resume(p, line + "\n" + "\n", limit) ==
            match ReadLine(q, "", limit)
            case None => None
            case Some(r) => Resume(r, "", limit)
  {
    ResumeOneLine(p, line, "\n", limit);
    ResumeOneLine(q, "", "", limit);
    assert "" + "\n" + "" == "\n";
  }

  lemma {:induction false} ReadPlain(text: string, limit: nat)
    requires text != "" && text[0] != BOM[0]
    ensures Read(text, limit) == Resume(Progress(CLEAN, []), text, limit)
  {
    NoBom(text);
    ResumeIsInterpret(Progress(CLEAN, []), text, limit);
  }

  lemma {:induction false} DataLine(line: string, value: string, limit: nat)
    requires line == "data" + ":" + value && (value == "" || value[0] != ' ') && |line| <= limit
    ensures ReadLine(Progress(CLEAN, []), line, limit) == Some(Progress(Fields("", value + "\n", "", None), []))
  {
    FieldLine(Progress(CLEAN, []), line, "data", value, limit);
    assert "" + value + "\n" == value + "\n";
  }

  /** A stream of one unpadded data line is received as one event. */
  lemma {:induction false} UnpaddedData(value: string, limit: nat)
    requires OneLine(value) && (value == "" || value[0] != ' ') && |value| + 5 <= limit
    ensures
      var r := Read("data:" + value + "\n\n", limit);
      r.Some? && r.value.progress.events == [SseEvent("message", value, "", None)] && r.value.rest == ""
  {
    DataText(value);
    OneDataLine("data" + ":" + value, "data:" + value + "\n\n", value, limit);
  }

  lemma {:induction false} DataText(value: string)
    requires OneLine(value)
    ensures "data:" + value + "\n\n" == "data" + ":" + value + "\n" + "\n" && OneLine("data" + ":" + value)
  {
  }

  lemma {:induction false} OneDataLine(line: string, text: string, value: string, limit: nat)
    requires line == "data" + ":" + value && text == line + "\n" + "\n" && OneLine(line)
    requires (value == "" || value[0] != ' ') && |line| <= limit
    ensures Read(text, limit) == Some(Reading(Progress(CLEAN, [SseEvent("message", value, "", None)]), ""))
  {
    var q := Progress(Fields("", value + "\n", "", None), []);
    DataLine(line, value, limit);
    LineThenBlank(Progress(CLEAN, []), line, q, limit);
    DataBlank(q, value, limit);
    ReadPlain(text, limit);
  }

  lemma {:induction false} DataBlank(q: Progress, value: string, limit: nat)
    requires q == Progress(Fields("", value + "\n", "", None), [])
    ensures ReadLine(q, "", limit) == Some(Progress(CLEAN, [SseEvent("message", value, "", None)]))
  {
    BlankLine(q, limit);
    assert (value + "\n")[..|value|] == value;
    assert [] + [SseEvent("message", value, "", None)] == [SseEvent("message", value, "", None)];
  }

  /** The three bytes EF BB BF at the start of a stream are not part of its text. */
  lemma {:induction false} MarkDropped(text: string, limit: nat)
    ensures Read(['\U{ef}', '\U{bb}', '\U{bf}'] + text, limit) == Interpret(Progress(CLEAN, []), text, limit)
  {
    var stream := ['\U{ef}', '\U{bb}', '\U{bf}'] + text;
    assert stream[3..] == text && stream[..3] == BOM;
  }
}
