/** The whole-stream reading of an event stream (WHATWG HTML, sections 9.2.5 and 9.2.6):
    strip one leading byte order mark, cut the text into lines at CRLF, CR or LF, and
    interpret the lines one after another. A byte is the character with its code. */
module SseReading {
  import opened Basics
  import Digits

  const BOM: string := ['\U{ef}', '\U{bb}', '\U{bf}']

  type uint64 = n: nat | n < UINT64_LIMIT

  datatype SseEvent = SseEvent(event: string, data: string, id: string, retry: Option<uint64>)

  // ---- Lines ---------------------------------------------------------------

  predicate IsNewline(c: char) { c == '\r' || c == '\n' }

  predicate OneLine(s: string) { forall i | 0 <= i < |s| :: !IsNewline(s[i]) }

  /** The position of the first CR or LF, or the length if there is none. */
  function FirstNewline(s: string): (n: nat)
    ensures n <= |s|
  {
    if s == "" || IsNewline(s[0]) then 0 else 1 + FirstNewline(s[1..])
  }

  lemma {:induction false} FirstNewlineFound(s: string)
    ensures var n := FirstNewline(s); OneLine(s[..n]) && (n < |s| ==> IsNewline(s[n]))
  {
    if s != "" && !IsNewline(s[0]) {
      FirstNewlineFound(s[1..]);
      assert s[..FirstNewline(s)] == [s[0]] + s[1..][..FirstNewline(s[1..])];
    }
  }

  /** The length of the line break that starts at position `n`. */
  function BreakSize(s: string, n: nat): (size: nat)
    requires n < |s|
    ensures 1 <= size <= 2 && n + size <= |s|
  {
    if s[n] == '\r' && n + 1 < |s| && s[n + 1] == '\n' then 2 else 1
  }

  datatype Cut = Cut(lines: seq<string>, rest: string)

  /** The finished lines of a text, and the unfinished one after them. */
  function CutLines(s: string): Cut
    decreases |s|
  {
    var n := FirstNewline(s);
    if n == |s| then Cut([], s)
    else
      var after := CutLines(s[n + BreakSize(s, n)..]);
      Cut([s[..n]] + after.lines, after.rest)
  }

  predicate EndsWithCr(s: string) { s != "" && s[|s| - 1] == '\r' }

  lemma {:induction false} FirstNewlineUnique(s: string, n: nat)
    requires n <= |s| && OneLine(s[..n]) && (n < |s| ==> IsNewline(s[n]))
    ensures FirstNewline(s) == n
  {
    var m := FirstNewline(s);
    FirstNewlineFound(s);
    assert forall i | 0 <= i < n :: s[i] == s[..n][i];
    assert forall i | 0 <= i < m :: s[i] == s[..m][i];
  }

  lemma {:induction false} CutPlain(s: string)
    requires OneLine(s)
    ensures CutLines(s) == Cut([], s)
  {
    assert s[..|s|] == s;
    FirstNewlineUnique(s, |s|);
  }

  /** Cutting a text that starts with a finished line. */
  lemma {:induction false} CutFirst(s: string, n: nat, size: nat)
    requires n < |s| && OneLine(s[..n]) && IsNewline(s[n]) && size == BreakSize(s, n)
    ensures CutLines(s).lines == [s[..n]] + CutLines(s[n + size..]).lines
    ensures CutLines(s).rest == CutLines(s[n + size..]).rest
  {
    FirstNewlineUnique(s, n);
  }

  /** What is still to be cut after `s`, whose unfinished line is `rest`, once `t` arrives:
      an LF right after a final CR belongs to that CR. */
  function Unread(s: string, rest: string, t: string): string {
    if EndsWithCr(s) && t != "" && t[0] == '\n' then t[1..] else rest + t
  }

  /** The first finished line stays finished, and is cut off alone or with the LF of `t`. */
  lemma {:induction false} CutResumesFirst(s: string, t: string, n: nat, tail: string)
    requires n < |s| && OneLine(s[..n]) && IsNewline(s[n]) && tail == s[n + BreakSize(s, n)..]
    ensures
      var after := if tail == "" then Unread(s, "", t) else tail + t;
      CutLines(s + t) == Cut([s[..n]] + CutLines(after).lines, CutLines(after).rest)
  {
    var size := BreakSize(s, n);
    assert (s + t)[..n] == s[..n];
    assert (s + t)[n] == s[n];
    if tail == "" && EndsWithCr(s) && t != "" && t[0] == '\n' {
      assert n == |s| - 1;
      assert (s + t)[n + 1] == t[0];
      assert (s + t)[n + 2..] == t[1..];
      CutFirst(s + t, n, 2);
    } else {
      assert (s + t)[n + size..] == tail + t;
      assert BreakSize(s + t, n) == size;
      CutFirst(s + t, n, size);
      assert tail == "" ==> tail + t == t;
    }
  }

  ghost predicate Resumes(s: string, t: string) {
    var done := CutLines(s);
    var more := CutLines(Unread(s, done.rest, t));
    && CutLines(s + t) == Cut(done.lines + more.lines, more.rest)
    && (EndsWithCr(s) ==> done.rest == "")
  }

  lemma {:induction false} EndsWithCrOfTail(s: string, k: nat)
    requires k < |s|
    ensures EndsWithCr(s) == EndsWithCr(s[k..])
  {
    assert s[k..][|s| - k - 1] == s[|s| - 1];
  }

  lemma {:induction false} CutResumesStep(s: string, t: string, n: nat, k: nat)
    requires n < |s| && OneLine(s[..n]) && IsNewline(s[n]) && k == n + BreakSize(s, n) < |s|
    requires Resumes(s[k..], t)
    ensures Resumes(s, t)
  {
    CutFirst(s, n, k - n);
    CutResumesFirst(s, t, n, s[k..]);
    EndsWithCrOfTail(s, k);
    var first, done := s[..n], CutLines(s[k..]);
    var more := CutLines(Unread(s[k..], done.rest, t));
    CutAlgebra(first, done, more, CutLines(s), CutLines(s[k..] + t), CutLines(s + t));
  }

  lemma {:induction false} CutResumesLast(s: string, t: string, n: nat)
    requires n < |s| && OneLine(s[..n]) && IsNewline(s[n]) && n + BreakSize(s, n) == |s|
    ensures Resumes(s, t)
  {
    CutFirst(s, n, BreakSize(s, n));
    CutPlain("");
    CutResumesFirst(s, t, n, "");
  }

  lemma {:induction false} CutAlgebra(first: string, done: Cut, more: Cut, whole: Cut, tail: Cut, all: Cut)
    requires whole == Cut([first] + done.lines, done.rest)
    requires tail == Cut(done.lines + more.lines, more.rest)
    requires all == Cut([first] + tail.lines, tail.rest)
    ensures all == Cut(whole.lines + more.lines, more.rest)
  {
    assert [first] + (done.lines + more.lines) == ([first] + done.lines) + more.lines;
  }

  /** Cutting can be suspended anywhere and resumed with what was left over. */
  lemma {:induction false} CutResumes(s: string, t: string)
    ensures Resumes(s, t)
    decreases |s|
  {
    var n := FirstNewline(s);
    FirstNewlineFound(s);
    if n == |s| {
      assert s[..n] == s;
      CutPlain(s);
    } else {
      var k := n + BreakSize(s, n);
      if k == |s| {
        CutResumesLast(s, t, n);
      } else {
        CutResumes(s[k..], t);
        CutResumesStep(s, t, n, k);
      }
    }
  }

  /** The unfinished line holds no line break. */
  lemma {:induction false} RestIsOneLine(s: string)
    ensures OneLine(CutLines(s).rest)
    ensures forall i | 0 <= i < |CutLines(s).lines| :: OneLine(CutLines(s).lines[i])
    decreases |s|
  {
    var n := FirstNewline(s);
    FirstNewlineFound(s);
    if n == |s| {
      assert s[..n] == s;
    } else {
      RestIsOneLine(s[n + BreakSize(s, n)..]);
    }
  }

  // ---- Interpreting the lines ---------------------------------------------

  datatype Fields = Fields(event: string, data: string, lastEventId: string, retry: Option<uint64>)

  const CLEAN: Fields := Fields("", "", "", None)

  /** The fields collected so far and the events dispatched so far. */
  datatype Progress = Progress(fields: Fields, events: seq<SseEvent>)

  function FieldName(line: string): string { line[..Colon(line)] }

  function FieldValue(line: string): (v: string)
    ensures |v| <= |line|
  {
    var colon := Colon(line);
    if colon == |line| then ""
    else if colon + 1 < |line| && line[colon + 1] == ' ' then line[colon + 2..]
    else line[colon + 1..]
  }

  /** The position of the first colon, or the length if there is none. */
  function Colon(line: string): (n: nat)
    ensures n <= |line|
    ensures n < |line| ==> line[n] == ':'
    ensures forall i | 0 <= i < n :: line[i] != ':'
  {
    if line == "" || line[0] == ':' then 0 else 1 + Colon(line[1..])
  }

  /** A blank line dispatches the collected event, if it has any data. */
  function Dispatch(p: Progress): Progress {
    var f := p.fields;
    var cleared := Fields("", "", f.lastEventId, None);
    if f.data == "" then Progress(cleared, p.events)
    else
      var name := if f.event == "" then "message" else f.event;
      Progress(cleared, p.events + [SseEvent(name, f.data[..|f.data| - 1], f.lastEventId, f.retry)])
  }

  function ReadRetry(value: string, before: Option<uint64>): Option<uint64> {
    if value == "" || !Digits.AllDecimal(value) then before
    else
      var n := Digits.Value(value, 10);
      if n < UINT64_LIMIT then Some(n) else None
  }

  /** One line of the stream; no result when a configured limit is exceeded. */
  function ReadLine(p: Progress, line: string, limit: nat): Option<Progress> {
    if |line| > limit then None
    else if line == "" then Some(Dispatch(p))
    else if line[0] == ':' then Some(p)
    else
      var name, value := FieldName(line), FieldValue(line);
      if name == "event" then Some(p.(fields := p.fields.(event := value)))
      else if name == "data" then
        if |p.fields.data| + |value| + 1 > limit then None
        else Some(p.(fields := p.fields.(data := p.fields.data + value + "\n")))
      else if name == "id" && '\0' !in value then Some(p.(fields := p.fields.(lastEventId := value)))
      else if name == "retry" then
        Some(p.(fields := p.fields.(retry := ReadRetry(value, p.fields.retry))))
      else Some(p)
  }

  function ReadLines(p: Progress, lines: seq<string>, limit: nat): Option<Progress>
    decreases |lines|
  {
    if lines == [] then Some(p)
    else
      match ReadLine(p, lines[0], limit)
      case None => None
      case Some(next) => ReadLines(next, lines[1..], limit)
  }

  lemma {:induction false} ReadLinesConcat(p: Progress, a: seq<string>, b: seq<string>, limit: nat)
    ensures ReadLines(p, a + b, limit) ==
            match ReadLines(p, a, limit)
            case None => None
            case Some(q) => ReadLines(q, b, limit)
    decreases |a|
  {
    if a == [] {
      assert a + b == b;
    } else {
      assert (a + b)[0] == a[0] && (a + b)[1..] == a[1..] + b;
      var next := ReadLine(p, a[0], limit);
      if next.Some? {
        ReadLinesConcat(next.value, a[1..], b, limit);
      }
    }
  }

  // ---- The stream ----------------------------------------------------------

  /** Nothing but the beginning of a byte order mark has arrived. */
  predicate BomPending(stream: string) { |stream| < |BOM| && stream <= BOM }

  function StripBom(stream: string): string {
    if BOM <= stream then stream[|BOM|..] else stream
  }

  /** What a reader knows after `stream`: its progress and the unfinished line. */
  datatype Reading = Reading(progress: Progress, rest: string)

  /** The reading of a stream; no result when a line or an event exceeds the limit. */
  function Read(stream: string, limit: nat): Option<Reading> {
    if BomPending(stream) then Some(Reading(Progress(CLEAN, []), stream))
    else Interpret(Progress(CLEAN, []), StripBom(stream), limit)
  }

  /** Reading `text`, which starts at a line boundary or inside a line, from `p` on. */
  function Interpret(p: Progress, text: string, limit: nat): Option<Reading> {
    var cut := CutLines(text);
    match ReadLines(p, cut.lines, limit)
    case None => None
    case Some(q) => if |cut.rest| > limit then None else Some(Reading(q, cut.rest))
  }

  /** The same, one line at a time. */
  function Resume(p: Progress, text: string, limit: nat): Option<Reading>
    decreases |text|
  {
    var n := FirstNewline(text);
    if n == |text| then if n > limit then None else Some(Reading(p, text))
    else
      match ReadLine(p, text[..n], limit)
      case None => None
      case Some(q) => Resume(q, text[n + BreakSize(text, n)..], limit)
  }

  lemma {:induction false} ResumeIsInterpret(p: Progress, text: string, limit: nat)
    ensures Resume(p, text, limit) == Interpret(p, text, limit)
    decreases |text|
  {
    var n := FirstNewline(text);
    if n < |text| {
      var tail := text[n + BreakSize(text, n)..];
      var lines := CutLines(tail).lines;
      assert CutLines(text) == Cut([text[..n]] + lines, CutLines(tail).rest);
      assert ([text[..n]] + lines)[1..] == lines;
      var next := ReadLine(p, text[..n], limit);
      if next.Some? {
        ResumeIsInterpret(next.value, tail, limit);
      }
    }
  }

  /** The text a reader that has read `stream` still has to interpret once `more` arrives. */
  function Pending(stream: string, rest: string, more: string): string {
    if BomPending(stream) then StripBom(stream + more) else Unread(stream, rest, more)
  }

  lemma {:induction false} StripBomExtends(stream: string, more: string)
    requires !BomPending(stream)
    ensures !BomPending(stream + more)
    ensures StripBom(stream + more) == StripBom(stream) + more
    ensures EndsWithCr(StripBom(stream)) == EndsWithCr(stream)
  {
    if |stream| < |BOM| {
      var i :| 0 <= i < |stream| && stream[i] != BOM[i];
      assert (stream + more)[i] != BOM[i];
    } else {
      assert (stream + more)[..|BOM|] == stream[..|BOM|];
    }
  }

  /** Reading can be suspended after any byte and resumed from the progress made. */
  lemma {:induction false} ReadResumes(stream: string, more: string, limit: nat)
    requires Read(stream, limit).Some? && !BomPending(stream + more)
    ensures
      var before := Read(stream, limit).value;
      Read(stream + more, limit) ==
      Interpret(before.progress, Pending(stream, before.rest, more), limit)
  {
    if !BomPending(stream) {
      StripBomExtends(stream, more);
      var text := StripBom(stream);
      CutResumes(text, more);
      var done := CutLines(text);
      var next := CutLines(Pending(stream, done.rest, more));
      ReadLinesConcat(Progress(CLEAN, []), done.lines, next.lines, limit);
    }
  }

  /** After a final CR no unfinished line is held, so an LF can be dropped from the front. */
  lemma {:induction false} NothingHeldAfterCr(stream: string, limit: nat)
    requires Read(stream, limit).Some? && EndsWithCr(stream)
    ensures !BomPending(stream) && Read(stream, limit).value.rest == ""
  {
    assert stream[|stream| - 1] != BOM[0] && stream[|stream| - 1] != BOM[1];
    StripBomExtends(stream, "");
    CutResumes(StripBom(stream), "");
  }

  /** The text still to be interpreted ends in a CR exactly when the stream does. */
  lemma {:induction false} PendingEndsWithCr(stream: string, rest: string, more: string)
    requires more != "" && !BomPending(stream + more)
    ensures EndsWithCr(Pending(stream, rest, more)) == EndsWithCr(stream + more)
  {
    var text := Pending(stream, rest, more);
    assert (stream + more)[|stream + more| - 1] == more[|more| - 1];
    if text != "" {
      assert text[|text| - 1] == more[|more| - 1];
    } else if BomPending(stream) {
      assert stream + more == BOM;
    }
  }

  /** Once a stream has exceeded a limit, no continuation repairs it. */
  lemma {:induction false} FailureSticks(stream: string, more: string, limit: nat)
    requires Read(stream, limit).None?
    ensures Read(stream + more, limit).None?
  {
    StripBomExtends(stream, more);
    var text := StripBom(stream);
    var done := CutLines(text);
    CutResumes(text, more);
    RestIsOneLine(text);
    var next := CutLines(Pending(stream, done.rest, more));
    ReadLinesConcat(Progress(CLEAN, []), done.lines, next.lines, limit);
    if ReadLines(Progress(CLEAN, []), done.lines, limit).Some? {
      // The unfinished line is already too long, and only grows.
      assert !EndsWithCr(text);
      var line := done.rest + more;
      FirstNewlineFound(line);
      assert forall i | 0 <= i < |done.rest| :: line[i] == done.rest[i];
      assert FirstNewline(line) >= |done.rest|;
    }
  }
}
