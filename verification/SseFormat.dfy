/** The wire formatter (framework/sse/sse_parser.cpp) and its round trip through the
    whole-stream reading. */
module SseFormat {
  import opened Basics
  import opened SseReading

  /** What can be sent: an event or a comment. */
  datatype Item = Event(e: SseEvent) | Comment(text: string)

  /** The text without its CRs and LFs. */
  function SingleLine(s: string): (r: string)
    ensures OneLine(r) && (OneLine(s) ==> r == s)
  {
    if s == "" then ""
    else if IsNewline(s[0]) then SingleLine(s[1..])
    else [s[0]] + SingleLine(s[1..])
  }

  /** Nothing but its CRs and LFs is lost. */
  lemma {:induction false} SingleLineJoins(a: string, c: char, b: string)
    ensures SingleLine(a + [c] + b) == SingleLine(a) + (if IsNewline(c) then "" else [c]) + SingleLine(b)
  {
    if a == "" {
      assert (a + [c] + b)[1..] == b;
    } else {
      assert (a + [c] + b)[0] == a[0] && (a + [c] + b)[1..] == a[1..] + [c] + b;
      SingleLineJoins(a[1..], c, b);
    }
  }

  /** The text with every CRLF, CR and LF replaced by one LF. */
  function Normalized(s: string): string
    decreases |s|
  {
    if s == "" then ""
    else if s[0] == '\r' && |s| > 1 && s[1] == '\n' then "\n" + Normalized(s[2..])
    else if s[0] == '\r' then "\n" + Normalized(s[1..])
    else [s[0]] + Normalized(s[1..])
  }

  // ---- The lines of an item ------------------------------------------------

  function DataLines(pieces: seq<string>): seq<string> {
    if pieces == [] then [] else ["data: " + pieces[0]] + DataLines(pieces[1..])
  }

  /** The pieces of a data field: its finished lines and the unfinished one. */
  function Pieces(data: string): seq<string> { CutLines(data).lines + [CutLines(data).rest] }

  function EventLine(e: SseEvent): seq<string> {
    if e.event == "" then [] else ["event: " + SingleLine(e.event)]
  }

  function IdLine(e: SseEvent): seq<string> {
    if e.id == "" then [] else ["id: " + SingleLine(e.id)]
  }

  function RetryLine(e: SseEvent): seq<string> {
    if e.retry.None? then [] else ["retry: " + Digits.Render(e.retry.value, 10)]
  }

  function HeadLines(e: SseEvent): seq<string> { EventLine(e) + IdLine(e) + RetryLine(e) }

  function ItemLines(item: Item): seq<string> {
    match item
    case Event(e) => HeadLines(e) + DataLines(Pieces(e.data)) + [""]
    case Comment(text) => [": " + SingleLine(text), ""]
  }

  /** Every line with a final LF. */
  function TextOf(lines: seq<string>): string {
    if lines == [] then "" else lines[0] + "\n" + TextOf(lines[1..])
  }

  function ItemText(item: Item): string { TextOf(ItemLines(item)) }

  function WireText(items: seq<Item>): string {
    if items == [] then "" else ItemText(items[0]) + WireText(items[1..])
  }

  lemma {:induction false} TextOfConcat(a: seq<string>, b: seq<string>)
    ensures TextOf(a + b) == TextOf(a) + TextOf(b)
  {
    if a == [] {
      assert a + b == b;
    } else {
      assert (a + b)[1..] == a[1..] + b;
      TextOfConcat(a[1..], b);
      assert a[0] + "\n" + (TextOf(a[1..]) + TextOf(b)) == (a[0] + "\n" + TextOf(a[1..])) + TextOf(b);
    }
  }

  lemma {:induction false} TextOfPush(a: seq<string>, line: string)
    ensures TextOf(a + [line]) == TextOf(a) + line + "\n"
  {
    TextOfConcat(a, [line]);
    assert [line][1..] == [];
    assert TextOf([line]) == line + "\n";
  }

  // ---- The methods of the source --------------------------------------------

  lemma {:induction false} DataLinesPush(pieces: seq<string>, piece: string)
    ensures DataLines(pieces + [piece]) == DataLines(pieces) + ["data: " + piece]
  {
    if pieces == [] {
      assert [piece][1..] == [];
    } else {
      assert (pieces + [piece])[1..] == pieces[1..] + [piece];
      DataLinesPush(pieces[1..], piece);
    }
  }

  function DataText(pieces: seq<string>): string { TextOf(DataLines(pieces)) }

  lemma {:induction false} DataTextPush(output: string, pieces: seq<string>, piece: string)
    ensures output + DataText(pieces + [piece]) == output + DataText(pieces) + ("data: " + piece + "\n")
  {
    DataLinesPush(pieces, piece);
    TextOfPush(DataLines(pieces), "data: " + piece);
    Associate(output, DataText(pieces), "data: " + piece);
  }

  /** Appends one `data` line for every piece of the data. */
  method AppendDataLines(output: string, data: string) returns (result: string)
    ensures result == output + DataText(Pieces(data))
  {
    result := output;
    var begin := 0;
    ghost var done: seq<string> := [];
    assert data[0..] == data;
    while true
      invariant begin <= |data|
      invariant result == output + DataText(done)
      invariant done + Pieces(data[begin..]) == Pieces(data)
      decreases |data| - begin
    {
      var end := begin + FirstNewline(data[begin..]);
      var piece := data[begin..end];
      DataTextPush(output, done, piece);
      result := result + ("data: " + piece + "\n");
      if end == |data| {
        LastPiece(data, begin);
        break;
      }
      PiecesFirst(data, begin, end);
      ConsTail(done, piece, Pieces(data[end + BreakSize(data, end)..]));
      done := done + [piece];
      begin := end + (if data[end] == '\r' && end + 1 < |data| && data[end + 1] == '\n' then 2 else 1);
    }
  }

  lemma {:induction false} ConsTail<T>(done: seq<T>, x: T, left: seq<T>)
    ensures done + ([x] + left) == (done + [x]) + left
  {
  }

  lemma {:induction false} LastPiece(data: string, begin: nat)
    requires begin <= |data| && begin + FirstNewline(data[begin..]) == |data|
    ensures Pieces(data[begin..]) == [data[begin..|data|]]
  {
    var text := data[begin..];
    assert text == data[begin..|data|];
    FirstNewlineFound(text);
    assert text[..|text|] == text;
    CutPlain(text);
  }

  lemma {:induction false} PiecesFirst(data: string, begin: nat, end: nat)
    requires begin <= end < |data| && end == begin + FirstNewline(data[begin..])
    ensures Pieces(data[begin..]) == [data[begin..end]] + Pieces(data[end + BreakSize(data, end)..])
  {
    var text, n := data[begin..], end - begin;
    assert text[..n] == data[begin..end];
    assert text[n + BreakSize(text, n)..] == data[end + BreakSize(data, end)..];
    PiecesOfText(text, n);
  }

  lemma {:induction false} ConsSnoc<T>(first: T, middle: seq<T>, last: T)
    ensures ([first] + middle) + [last] == [first] + (middle + [last])
  {
  }

  lemma {:induction false} PiecesOfText(text: string, n: nat)
    requires n < |text| && n == FirstNewline(text)
    ensures Pieces(text) == [text[..n]] + Pieces(text[n + BreakSize(text, n)..])
  {
    FirstNewlineFound(text);
    CutFirst(text, n, BreakSize(text, n));
    var tail := CutLines(text[n + BreakSize(text, n)..]);
    ConsSnoc(text[..n], tail.lines, tail.rest);
  }

  /** Appends one finished line. */
  method AppendLine(output: string, line: string, ghost lines: seq<string>) returns (result: string)
    requires output == TextOf(lines)
    ensures result == TextOf(lines + [line])
  {
    TextOfPush(lines, line);
    result := output + line + "\n";
  }

  /** The lines before the data. */
  method FormatHead(e: SseEvent) returns (output: string)
    ensures output == TextOf(HeadLines(e))
  {
    output := "";
    ghost var lines: seq<string> := [];
    if e.event != "" {
      output := AppendLine(output, "event: " + SingleLine(e.event), lines);
      lines := lines + EventLine(e);
    }
    if e.id != "" {
      output := AppendLine(output, "id: " + SingleLine(e.id), lines);
      lines := lines + IdLine(e);
    }
    if e.retry.Some? {
      output := AppendLine(output, "retry: " + Digits.Render(e.retry.value, 10), lines);
      lines := lines + RetryLine(e);
    }
    assert lines == HeadLines(e);
  }

  method FormatEvent(e: SseEvent) returns (output: string)
    ensures output == ItemText(Event(e))
  {
    output := FormatHead(e);
    output := AppendDataLines(output, e.data);
    TextOfConcat(HeadLines(e), DataLines(Pieces(e.data)));
    TextOfPush(HeadLines(e) + DataLines(Pieces(e.data)), "");
    output := output + "\n";
  }

  method FormatComment(comment: string) returns (output: string)
    ensures output == ItemText(Comment(comment)) == ": " + SingleLine(comment) + "\n\n"
  {
    output := ": " + SingleLine(comment) + "\n\n";
    TextOfPush([], ": " + SingleLine(comment));
    TextOfPush([": " + SingleLine(comment)], "");
  }
}
