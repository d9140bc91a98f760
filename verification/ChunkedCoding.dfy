/** The chunked transfer coding (RFC 9112, section 7.1) as the response writer produces it and
    as a recipient decodes it. Chunk extensions and trailer fields, which the writer never
    produces, are refused by this recipient. */
module ChunkedCoding {
  import opened Basics
  import Digits

  const CRLF: string := "\r\n"

  /** One chunk: the size in hexadecimal, the data, each followed by CRLF. */
  function Frame(buffer: string): string { Digits.Render(|buffer|, 16) + CRLF + buffer + CRLF }

  const LAST_CHUNK: string := "0\r\n\r\n"

  function Frames(buffers: seq<string>): seq<string> {
    if buffers == [] then [] else [Frame(buffers[0])] + Frames(buffers[1..])
  }

  /** The length of the leading run of hexadecimal digits. */
  function HexRun(s: string): (n: nat)
    ensures n <= |s|
  {
    if s == "" || Digits.DigitValue(s[0]) >= 16 then 0 else 1 + HexRun(s[1..])
  }

  datatype Decoded = Decoded(body: string, rest: string)

  /** What `s` starts with after position `n`, if it is CRLF. */
  predicate CrlfAt(s: string, n: nat) { n + 2 <= |s| && s[n..n + 2] == CRLF }

  /** The body up to the last chunk, and what follows the message. */
  function Decode(s: string): Option<Decoded>
    decreases |s|
  {
    var n := HexRun(s);
    if n == 0 || !CrlfAt(s, n) then None
    else
      var size := Digits.Value(s[..n], 16);
      if size == 0 then
        if CrlfAt(s, n + 2) then Some(Decoded("", s[n + 4..])) else None
      else if n + 2 + size <= |s| && CrlfAt(s, n + 2 + size) then
        match Decode(s[n + size + 4..])
        case None => None
        case Some(tail) => Some(Decoded(s[n + 2..n + 2 + size] + tail.body, tail.rest))
      else None
  }

  lemma {:induction false} HexRunOf(digits: string, rest: string)
    requires Digits.AllDigits(digits, 16) && (rest == "" || Digits.DigitValue(rest[0]) >= 16)
    ensures HexRun(digits + rest) == |digits|
  {
    if digits == "" {
      assert digits + rest == rest;
    } else {
      assert (digits + rest)[0] == digits[0] && (digits + rest)[1..] == digits[1..] + rest;
      HexRunOf(digits[1..], rest);
    }
  }

  /** The header of a frame is read back as the size of its data. */
  lemma {:induction false} FrameHead(buffer: string, tail: string)
    ensures
      var s := Frame(buffer) + tail;
      var n := HexRun(s);
      n > 0 && CrlfAt(s, n) && Digits.Value(s[..n], 16) == |buffer|
    ensures
      var s := Frame(buffer) + tail;
      s[HexRun(s) + 2..] == buffer + CRLF + tail
  {
    var digits, after := Digits.Render(|buffer|, 16), CRLF + (buffer + CRLF + tail);
    Digits.RenderRoundTrip(|buffer|, 16);
    var s := Frame(buffer) + tail;
    assert s == digits + after;
    assert after[0] == '\r';
    HexRunOf(digits, after);
    assert s[..|digits|] == digits;
    assert s[|digits|..] == after;
  }

  /** A non-empty chunk is decoded and the rest of the message after it. */
  lemma {:induction false} DecodeFrame(buffer: string, tail: string)
    requires buffer != ""
    ensures Decode(Frame(buffer) + tail) ==
            match Decode(tail)
            case None => None
            case Some(d) => Some(Decoded(buffer + d.body, d.rest))
  {
    FrameHead(buffer, tail);
    DecodeChunk(Frame(buffer) + tail, buffer, tail);
  }

  lemma {:induction false} DecodeChunk(s: string, data: string, tail: string)
    requires var n := HexRun(s); n > 0 && CrlfAt(s, n) && Digits.Value(s[..n], 16) == |data| > 0
    requires s[HexRun(s) + 2..] == data + CRLF + tail
    ensures Decode(s) ==
            match Decode(tail)
            case None => None
            case Some(d) => Some(Decoded(data + d.body, d.rest))
  {
    var n, size := HexRun(s), |data|;
    ThreeParts(s[n + 2..], data, CRLF, tail);
    assert s[n + 2..n + 2 + size] == s[n + 2..][..size];
    assert s[n + 2 + size..n + 2 + size + 2] == s[n + 2..][size..size + 2];
    assert s[n + size + 4..] == s[n + 2..][size + 2..];
    DecodeHead(s, n, size, data, tail);
  }

  lemma {:induction false} DecodeHead(s: string, n: nat, size: nat, data: string, tail: string)
    requires HexRun(s) == n > 0 && CrlfAt(s, n) && Digits.Value(s[..n], 16) == size > 0
    requires n + 2 + size <= |s| && CrlfAt(s, n + 2 + size)
    requires s[n + 2..n + 2 + size] == data && s[n + size + 4..] == tail
    ensures Decode(s) ==
            match Decode(tail)
            case None => None
            case Some(d) => Some(Decoded(data + d.body, d.rest))
  {
  }

  lemma {:induction false} ThreeParts(s: string, a: string, b: string, c: string)
    requires s == a + b + c
    ensures s[..|a|] == a && s[|a|..|a| + |b|] == b && s[|a| + |b|..] == c
  {
  }

  /** A zero-sized chunk, and so the frame of an empty buffer, ends the message. */
  lemma {:induction false} DecodeLast(tail: string)
    ensures Frame("") == LAST_CHUNK
    ensures Decode(LAST_CHUNK + tail) == Some(Decoded("", tail))
  {
    assert Digits.Render(0, 16) == "0";
    assert Frame("") == LAST_CHUNK;
    var s := Frame("") + tail;
    var n := HexRun(s);
    FrameHead("", tail);
    var after := s[n + 2..];
    assert after == CRLF + tail;
    assert s[n + 2..n + 4] == after[..2];
    assert s[n + 4..] == after[2..];
  }

  /** How many buffers come before the first empty one. */
  function BeforeEmpty(buffers: seq<string>): (k: nat)
    ensures k <= |buffers|
    ensures forall i | 0 <= i < k :: buffers[i] != ""
    ensures k < |buffers| ==> buffers[k] == ""
  {
    if buffers == [] || buffers[0] == "" then 0 else 1 + BeforeEmpty(buffers[1..])
  }

  /** The wire text of a finished response. */
  function Message(buffers: seq<string>): string { Flatten(Frames(buffers)) + LAST_CHUNK }

  /** Decoding a finished response gives the buffers up to the first empty one; that one is
      taken for the end, and everything after it is left over. */
  lemma {:induction false} DecodeMessage(buffers: seq<string>, tail: string)
    ensures
      var k := BeforeEmpty(buffers);
      Decode(Message(buffers) + tail) ==
      Some(Decoded(Flatten(buffers[..k]), if k == |buffers| then tail else Message(buffers[k + 1..]) + tail))
  {
    var k := BeforeEmpty(buffers);
    if buffers == [] {
      DecodeLast(tail);
      assert Message(buffers) == LAST_CHUNK;
      assert buffers[..k] == [];
    } else {
      var rest := buffers[1..];
      MessageFirst(buffers);
      Associate(Frame(buffers[0]), Message(rest), tail);
      if buffers[0] == "" {
        DecodeLast(Message(rest) + tail);
        assert buffers[..0] == [];
      } else {
        DecodeFrame(buffers[0], Message(rest) + tail);
        DecodeMessage(rest, tail);
        BeforeEmptyStep(buffers);
      }
    }
  }

  lemma {:induction false} BeforeEmptyStep(buffers: seq<string>)
    requires buffers != [] && buffers[0] != ""
    ensures
      var k, rest := BeforeEmpty(buffers), buffers[1..];
      && BeforeEmpty(rest) == k - 1
      && Flatten(buffers[..k]) == buffers[0] + Flatten(rest[..k - 1])
      && (k < |buffers| ==> buffers[k + 1..] == rest[k..])
  {
    var k := BeforeEmpty(buffers);
    assert buffers[..k][1..] == buffers[1..][..k - 1];
  }

  lemma {:induction false} MessageFirst(buffers: seq<string>)
    requires buffers != []
    ensures Message(buffers) == Frame(buffers[0]) + Message(buffers[1..])
  {
    assert Frames(buffers)[1..] == Frames(buffers[1..]);
    assert Frame(buffers[0]) + Flatten(Frames(buffers[1..])) + LAST_CHUNK ==
           Frame(buffers[0]) + (Flatten(Frames(buffers[1..])) + LAST_CHUNK);
  }

  /** A finished response decodes to its buffers, with exactly what follows it left over, if and
      only if no buffer is empty. */
  lemma {:induction false} DecodesIffNoEmptyBuffer(buffers: seq<string>, tail: string)
    ensures Decode(Message(buffers) + tail) == Some(Decoded(Flatten(buffers), tail)) <==> "" !in buffers
  {
    DecodeMessage(buffers, tail);
    var k := BeforeEmpty(buffers);
    if k == |buffers| {
      assert buffers[..k] == buffers;
    } else {
      assert |Message(buffers[k + 1..]) + tail| > |tail|;
    }
  }

  lemma {:induction false} FramesPush(buffers: seq<string>, buffer: string)
    ensures Frames(buffers + [buffer]) == Frames(buffers) + [Frame(buffer)]
  {
    if buffers == [] {
      assert [buffer][1..] == [];
    } else {
      assert (buffers + [buffer])[1..] == buffers[1..] + [buffer];
      FramesPush(buffers[1..], buffer);
    }
  }
}
