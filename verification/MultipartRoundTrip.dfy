/** The inverse of the multipart parser: a form assembled from fields and files is read back
    as those fields and files, in order. */
module MultipartRoundTrip {
  import opened Basics
  import opened Text
  import opened Multipart

  // ---- Occurrences ----------------------------------------------------------------

  ghost predicate Lacks(s: string, pattern: string) { forall k: nat :: !At(s, pattern, k) }

  /** No occurrence of the pattern starts inside `mid` when the pattern follows it. */
  ghost predicate Clear(mid: string, pattern: string) {
    forall k: nat | k < |mid| :: !At(mid + pattern, pattern, k)
  }

  lemma {:induction false} AtInside(before: string, s: string, after: string, pattern: string, k: nat)
    requires k + |pattern| <= |s|
    ensures At(before + s + after, pattern, |before| + k) == At(s, pattern, k)
  {
    var t := before + s + after;
    assert t[|before| + k..|before| + k + |pattern|] == s[k..k + |pattern|];
  }

  /** A search from the start of `mid` lands on the pattern that follows it. */
  lemma {:induction false} FindLands(before: string, mid: string, pattern: string, after: string)
    requires Clear(mid, pattern)
    ensures Find(before + (mid + pattern) + after, pattern, |before|) == Some(|before| + |mid|)
  {
    var t := before + (mid + pattern) + after;
    AtInside(before, mid + pattern, after, pattern, |mid|);
    assert At(mid + pattern, pattern, |mid|);
    forall k: nat | |before| <= k < |before| + |mid| ensures !At(t, pattern, k) {
      AtInside(before, mid + pattern, after, pattern, k - |before|);
    }
    FindKnown(t, pattern, |before|, |before| + |mid|);
  }

  /** A pattern whose first character occurs nowhere else in it cannot straddle into itself. */
  lemma {:induction false} NoStraddle(mid: string, pattern: string)
    requires Lacks(mid, pattern) && pattern != "" && pattern[0] !in pattern[1..]
    ensures Clear(mid, pattern)
  {
    var t := mid + pattern;
    forall k: nat | k < |mid| ensures !At(t, pattern, k) {
      if k + |pattern| <= |mid| {
        assert t[k..k + |pattern|] == mid[k..k + |pattern|];
        assert !At(mid, pattern, k);
      } else {
        var i := |mid| - k;
        assert t[k..k + |pattern|][i] == t[|mid|] == pattern[0];
        assert pattern[1..][i - 1] == pattern[i];
      }
    }
  }

  /** Two texts joined at a place that is not inside a CRLF. */
  lemma {:induction false} JoinLacks(a: string, b: string)
    requires Lacks(a, CRLF) && Lacks(b, CRLF)
    requires a == "" || b == "" || a[|a| - 1] != '\r' || b[0] != '\n'
    ensures Lacks(a + b, CRLF)
  {
    var s := a + b;
    forall k: nat ensures !At(s, CRLF, k) {
      if k + 2 <= |a| {
        assert s[k..k + 2] == a[k..k + 2];
        assert !At(a, CRLF, k);
      } else if |a| <= k <= |s| - 2 {
        assert s[k..k + 2] == b[k - |a|..k - |a| + 2];
        assert !At(b, CRLF, k - |a|);
      } else if k + 2 <= |s| {
        assert s[k..k + 2] == [s[k], s[k + 1]];
      }
    }
  }

  lemma {:induction false} NoReturnLacks(a: string)
    requires '\r' !in a
    ensures Lacks(a, CRLF)
  {
    forall k: nat ensures !At(a, CRLF, k) {
      assert k + 2 <= |a| ==> a[k..k + 2][0] == a[k];
    }
  }

  lemma {:induction false} LineEnds(line: string)
    requires Lacks(line, CRLF)
    ensures Clear(line, CRLF)
  {
    assert CRLF[1..] == "\n";
    NoStraddle(line, CRLF);
  }

  /** No CRLF starts inside a line. */
  lemma {:induction false} InLine(before: string, line: string, after: string, k: nat)
    requires Lacks(line, CRLF) && |before| <= k < |before| + |line|
    ensures !At(before + (line + CRLF) + after, CRLF, k)
  {
    LineEnds(line);
    AtInside(before, line + CRLF, after, CRLF, k - |before|);
  }

  lemma {:induction false} AtPrefix(s: string, pattern: string, start: string, k: nat)
    requires At(s, pattern, k) && start <= pattern
    ensures At(s, start, k)
  {
    assert s[k..k + |pattern|][..|start|] == s[k..k + |start|];
  }

  // ---- Headers ------------------------------------------------------------------------

  /** A search for a line break from the start of a line finds its end. */
  lemma {:induction false} LineEndFound(before: string, line: string, after: string)
    requires Lacks(line, CRLF)
    ensures Find(before + (line + CRLF) + after, CRLF, |before|) == Some(|before| + |line|)
  {
    LineEnds(line);
    FindLands(before, line, CRLF, after);
  }

  lemma {:induction false} LastLine(before: string, line: string)
    requires Lacks(line, CRLF)
    ensures Find(before + line, CRLF, |before|) == None
  {
    var s := before + line;
    forall k: nat | |before| <= k ensures !At(s, CRLF, k) {
      if k + 2 <= |s| {
        assert s[k..k + 2] == line[k - |before|..k - |before| + 2];
        assert !At(line, CRLF, k - |before|);
      }
    }
    FindNone(s, CRLF, |before|);
  }

  /** Line breaks of a two-line block are only where the lines meet. */
  lemma {:induction false} OnlyBreak(first: string, second: string, k: nat)
    requires Lacks(first, CRLF) && Lacks(second, CRLF) && k != |first|
    ensures !At(first + CRLF + second, CRLF, k)
  {
    var s := first + CRLF + second;
    if k < |first| {
      InLine("", first, second, k);
      assert "" + (first + CRLF) + second == s;
    } else if k >= |first| + 2 {
      if k + 2 <= |s| {
        assert s[k..k + 2] == second[k - |first| - 2..k - |first|];
        assert !At(second, CRLF, k - |first| - 2);
      }
    } else if k + 2 <= |s| {
      assert s[k..k + 2][0] == s[|first| + 1] == '\n';
    }
  }

  lemma {:induction false} LacksLonger(s: string, start: string, pattern: string)
    requires Lacks(s, start) && start <= pattern
    ensures Lacks(s, pattern)
  {
    forall k: nat ensures !At(s, pattern, k) {
      if At(s, pattern, k) {
        AtPrefix(s, pattern, start, k);
      }
    }
  }

  lemma {:induction false} WholeLine(before: string, line: string)
    requires before == "" && Lacks(line, CRLF)
    ensures Find(line, CRLF, 0) == None && line[0..|line|] == line
  {
    LastLine(before, line);
    assert before + line == line;
  }

  /** The first header of a block comes back as its whole line. */
  lemma {:induction false} FirstHeaderAlone(line: string, name: string)
    requires Lacks(line, CRLF) && At(line, name + ":", 0) && Trimmed(line)
    ensures HeaderValue(line, name) == line
  {
    LacksLonger(line, CRLF, CRLF + name + ":");
    FindNone(line, CRLF + name + ":", 0);
    WholeLine("", line);
    TrimmedStays(line);
  }

  lemma {:induction false} FirstHeaderOfTwo(line: string, second: string, name: string)
    requires Lacks(line, CRLF) && Lacks(second, CRLF) && At(line, name + ":", 0) && Trimmed(line)
    requires !At(second, name + ":", 0)
    ensures HeaderValue(line + CRLF + second, name) == line
  {
    var s := line + CRLF + second;
    var pattern := CRLF + name + ":";
    NotTheSecond(line, second, name);
    FindNone(s, pattern, 0);
    LineEndFound("", line, second);
    assert "" + (line + CRLF) + second == s && s[0..|line|] == line;
    assert s[0..|name + ":"|] == line[0..|name + ":"|];
  }

  lemma {:induction false} NotTheSecond(line: string, second: string, name: string)
    requires Lacks(line, CRLF) && Lacks(second, CRLF) && !At(second, name + ":", 0)
    ensures Lacks(line + CRLF + second, CRLF + name + ":")
  {
    var s := line + CRLF + second;
    var pattern := CRLF + name + ":";
    assert CRLF <= pattern && pattern[2..] == name + ":";
    forall k: nat ensures !At(s, pattern, k) {
      if k != |line| {
        OnlyBreak(line, second, k);
        if At(s, pattern, k) {
          AtPrefix(s, pattern, CRLF, k);
        }
      } else if k + |pattern| <= |s| {
        assert s[k..k + |pattern|][2..] == second[0..|pattern| - 2];
      }
    }
  }

  lemma {:induction false} SecondHeaderFound(line: string, second: string, pattern: string)
    requires Lacks(line, CRLF) && Lacks(second, CRLF) && CRLF <= pattern && pattern[2..] <= second
    ensures Find(line + CRLF + second, pattern, 0) == Some(|line|)
  {
    var s := line + CRLF + second;
    forall k: nat | k < |line| ensures !At(s, pattern, k) {
      OnlyBreak(line, second, k);
      if At(s, pattern, k) {
        AtPrefix(s, pattern, CRLF, k);
      }
    }
    assert s[|line|..|line| + |pattern|] == CRLF + second[..|pattern| - 2];
    assert pattern == CRLF + pattern[2..];
    FindKnown(s, pattern, 0, |line|);
  }

  /** A later header comes back without its name, trimmed. */
  lemma {:induction false} SecondHeader(line: string, name: string, value: string)
    requires Lacks(line, CRLF) && Lacks(name + ":" + value, CRLF) && Lacks(value, CRLF)
    ensures HeaderValue(line + CRLF + (name + ":" + value), name) == Trim(value)
  {
    var pattern := CRLF + name + ":";
    assert pattern[2..] == name + ":" && pattern[2..] <= name + ":" + value;
    SecondHeaderFound(line, name + ":" + value, pattern);
    ValueAfter(line + pattern, value, line + CRLF + (name + ":" + value));
  }

  lemma {:induction false} ValueAfter(before: string, value: string, s: string)
    requires s == before + value && Lacks(value, CRLF)
    ensures Find(s, CRLF, |before|) == None && s[|before|..|s|] == value
  {
    LastLine(before, value);
  }

  lemma {:induction false} TrimmedStays(s: string)
    requires Trimmed(s)
    ensures Trim(s) == s && Trim(" " + s) == s
  {
    assert (" " + s)[1..] == s;
  }

  // ---- The disposition -------------------------------------------------------------------

  const OPENING: string := "Content-Disposition: form-data; "

  /** A header line naming a field or, with a file name, a file. */
  function DispositionLine(name: string, filename: string): string {
    OPENING + NAME_KEY + name + ['"'] + FilenameTail(filename)
  }

  lemma {:induction false} QuotedRead(key: string, value: string, rest: string)
    requires value != "" && '"' !in value
    ensures Quoted(key + value + ['"'] + rest, key) == Some((value, rest))
  {
    var s := key + value + ['"'] + rest;
    assert s[..|key|] == key && s[|key|..] == value + ['"'] + rest;
    IndexOfFirst(value, '"', rest);
    var t := value + ['"'] + rest;
    assert t[..|value|] == value && t[|value| + 1..] == rest;
  }

  lemma {:induction false} DispositionSkips(pre: string, s: string)
    requires forall k: nat | k < |pre| :: !At(pre + s, NAME_KEY, k)
    ensures Disposition(pre + s) == Disposition(s)
  {
    var t := pre + s;
    if pre == "" {
      assert t == s;
    } else {
      assert !At(t, NAME_KEY, 0);
      var rest := pre[1..];
      assert t[1..] == rest + s;
      forall k: nat | k < |rest| ensures !At(rest + s, NAME_KEY, k) {
        if k + 1 + |NAME_KEY| <= |t| {
          assert t[k + 1..k + 1 + |NAME_KEY|] == (rest + s)[k..k + |NAME_KEY|];
        }
        assert !At(t, NAME_KEY, k + 1);
      }
      DispositionSkips(rest, s);
    }
  }

  lemma {:induction false} OpeningIsClear(s: string)
    requires s != ""
    ensures forall k: nat | k < |OPENING| :: !At(OPENING + s, NAME_KEY, k)
  {
    var t := OPENING + s;
    forall k: nat | k < |OPENING| ensures !At(t, NAME_KEY, k) {
      OpeningHasNoNa(k);
      assert t[k] == OPENING[k];
      if k + 1 < |OPENING| {
        assert t[k + 1] == OPENING[k + 1];
      }
      if k + |NAME_KEY| <= |t| {
        assert t[k..k + |NAME_KEY|][0] == t[k] && t[k..k + |NAME_KEY|][1] == t[k + 1];
      }
    }
  }

  lemma {:induction false} OpeningHasNoNa(k: nat)
    requires k < |OPENING|
    ensures OPENING[k] != 'n' || (k + 1 < |OPENING| && OPENING[k + 1] != 'a')
  {
  }

  function FilenameTail(filename: string): string {
    if filename == "" then "" else "; " + FILENAME_KEY + filename + ['"']
  }

  lemma {:induction false} FilenameRead(filename: string)
    requires filename != "" && '"' !in filename
    ensures var t := FilenameTail(filename);
      t[0] == ';' && Quoted(SkipSpaces(t[1..]), FILENAME_KEY) == Some((filename, ""))
  {
    QuotedRead(FILENAME_KEY, filename, "");
    var rest := FILENAME_KEY + filename + ['"'];
    assert rest + "" == rest;
    TailAfterSemicolon(filename, rest);
    SpaceSkipped(rest);
  }

  lemma {:induction false} TailAfterSemicolon(filename: string, rest: string)
    requires filename != "" && rest == FILENAME_KEY + filename + ['"']
    ensures FilenameTail(filename)[1..] == " " + rest
  {
    Split4("; ", FILENAME_KEY, filename, ['"']);
    SecondCharacterOn(rest);
  }

  lemma {:induction false} Split4(a: string, b: string, c: string, d: string)
    ensures a + b + c + d == a + (b + c + d)
  {
  }

  lemma {:induction false} SecondCharacterOn(rest: string)
    ensures ("; " + rest)[1..] == " " + rest
  {
  }

  lemma {:induction false} SpaceSkipped(s: string)
    requires s != "" && !Space(s[0])
    ensures SkipSpaces(" " + s) == s
  {
    assert (" " + s)[1..] == s;
  }

  lemma {:induction false} NamesRead(name: string, filename: string)
    requires name != "" && '"' !in name && '"' !in filename
    ensures DispositionAt(NAME_KEY + name + ['"'] + FilenameTail(filename)) == Some((name, filename))
  {
    QuotedRead(NAME_KEY, name, FilenameTail(filename));
    if filename != "" {
      FilenameRead(filename);
    }
  }

  lemma {:induction false} DispositionAfter(opening: string, s: string, name: string, filename: string)
    requires opening == OPENING && s != "" && DispositionAt(s) == Some((name, filename))
    ensures Disposition(opening + s) == (name, filename)
  {
    OpeningIsClear(s);
    DispositionSkips(opening, s);
  }

  lemma {:induction false} LineSplits(opening: string, name: string, filename: string)
    requires opening == OPENING
    ensures DispositionLine(name, filename) == opening + (NAME_KEY + name + ['"'] + FilenameTail(filename))
  {
    Split5(opening, NAME_KEY, name, ['"'], FilenameTail(filename));
  }

  lemma {:induction false} Split5(a: string, b: string, c: string, d: string, e: string)
    ensures a + b + c + d + e == a + (b + c + d + e)
  {
  }

  lemma {:induction false} DispositionRead(opening: string, name: string, filename: string)
    requires opening == OPENING && name != "" && '"' !in name && '"' !in filename
    ensures Disposition(DispositionLine(name, filename)) == (name, filename)
  {
    NamesRead(name, filename);
    LineSplits(opening, name, filename);
    DispositionAfter(opening, NAME_KEY + name + ['"'] + FilenameTail(filename), name, filename);
  }

  // ---- The header block of a part -----------------------------------------------------

  const BLANK_LINE: string := "\r\n\r\n"

  lemma {:induction false} TwoBreaks(s: string, k: nat)
    requires At(s, BLANK_LINE, k)
    ensures At(s, CRLF, k) && At(s, CRLF, k + 2)
  {
    assert s[k..k + 4] == BLANK_LINE;
    assert s[k..k + 2] == s[k..k + 4][..2] && s[k + 2..k + 4] == s[k..k + 4][2..];
  }

  lemma {:induction false} NotAfterReturn(s: string, k: nat)
    requires k >= 1 && At(s, CRLF, k - 1)
    ensures !At(s, CRLF, k)
  {
    assert s[k - 1..k + 1][1] == s[k];
    assert k + 2 <= |s| ==> s[k..k + 2][0] == s[k];
  }

  /** No blank line starts in `[from, from + |line| + 2)` of a line that starts at `from` + 2. */
  lemma {:induction false} NoBlankLine(s: string, before: string, line: string, after: string, k: nat)
    requires s == before + CRLF + (line + CRLF) + after && Lacks(line, CRLF) && line != ""
    requires |before| <= k < |before| + 2 + |line|
    ensures !At(s, BLANK_LINE, k)
  {
    var lead := before + CRLF;
    assert s == lead + (line + CRLF) + after;
    if k >= |lead| {
      InLine(lead, line, after, k);
      if At(s, BLANK_LINE, k) {
        TwoBreaks(s, k);
      }
    } else {
      assert s[|before|..|before| + 2] == CRLF;
      NotAfterReturn(s, |before| + 1);
      InLine(lead, line, after, |lead|);
      if At(s, BLANK_LINE, k) {
        TwoBreaks(s, k);
      }
    }
  }

  lemma {:induction false} OneLineBlock(line: string)
    requires Lacks(line, CRLF) && line != ""
    ensures Clear(CRLF + line, BLANK_LINE)
  {
    var t := CRLF + line + BLANK_LINE;
    assert t == "" + CRLF + (line + CRLF) + CRLF;
    forall k: nat | k < 2 + |line| ensures !At(t, BLANK_LINE, k) {
      NoBlankLine(t, "", line, CRLF, k);
    }
  }

  lemma {:induction false} TwoLineBlock(first: string, second: string)
    requires Lacks(first, CRLF) && first != "" && Lacks(second, CRLF) && second != ""
    ensures Clear(CRLF + (first + CRLF + second), BLANK_LINE)
  {
    var t := CRLF + (first + CRLF + second) + BLANK_LINE;
    assert t == "" + CRLF + (first + CRLF) + (second + BLANK_LINE);
    assert t == (CRLF + first) + CRLF + (second + CRLF) + CRLF;
    forall k: nat | k < 2 + |first| + 2 + |second| ensures !At(t, BLANK_LINE, k) {
      if k < 2 + |first| {
        NoBlankLine(t, "", first, second + BLANK_LINE, k);
      } else {
        NoBlankLine(t, CRLF + first, second, CRLF, k);
      }
    }
  }

  // ---- Parts that can be sent ---------------------------------------------------------

  function TypeLine(contentType: string): string { "Content-Type" + ":" + (" " + contentType) }

  function Headers(p: Part): string {
    match p
    case Field(name, _) => DispositionLine(name, "")
    case File(name, filename, contentType, _) => DispositionLine(name, filename) + CRLF + TypeLine(contentType)
  }

  /** Quoted text: non-empty, no quote, no line break. */
  ghost predicate Quotable(s: string) { s != "" && '"' !in s && Lacks(s, CRLF) }

  ghost predicate Sendable(p: Part, boundary: string) {
    && Quotable(p.name) && Lacks(p.data, CRLF + "--" + boundary)
    && (p.File? ==> Quotable(p.filename) && Trimmed(p.contentType) && Lacks(p.contentType, CRLF))
  }

  lemma {:induction false} QuotedLacks(lead: string, s: string)
    requires '\r' !in lead && lead != "" && lead[|lead| - 1] == '"' && Lacks(s, CRLF)
    ensures Lacks(lead + s + ['"'], CRLF)
  {
    NoReturnLacks(lead);
    JoinLacks(lead, s);
    NoReturnLacks(['"']);
    JoinLacks(lead + s, ['"']);
  }

  lemma {:induction false} TailLacks(filename: string)
    requires Lacks(filename, CRLF)
    ensures Lacks(FilenameTail(filename), CRLF)
    ensures var t := FilenameTail(filename); t != "" ==> t[0] == ';' && t[|t| - 1] == '"'
  {
    if filename == "" {
      NoReturnLacks("");
    } else {
      QuotedLacks("; " + FILENAME_KEY, filename);
    }
  }

  lemma {:induction false} LineLacks(name: string, filename: string)
    requires Lacks(name, CRLF) && Lacks(filename, CRLF)
    ensures var line := DispositionLine(name, filename); line != "" && Lacks(line, CRLF)
  {
    QuotedLacks(OPENING + NAME_KEY, name);
    TailLacks(filename);
    JoinLacks(OPENING + NAME_KEY + name + ['"'], FilenameTail(filename));
  }

  lemma {:induction false} LineShape(name: string, filename: string)
    ensures var line := DispositionLine(name, filename);
      Trimmed(line) && At(line, "Content-Disposition" + ":", 0)
  {
    var line := DispositionLine(name, filename);
    assert line[0..20] == OPENING[..20];
    assert line[|line| - 1] == '"';
  }

  lemma {:induction false} TypeLineLacks(contentType: string)
    requires Lacks(contentType, CRLF)
    ensures Lacks(TypeLine(contentType), CRLF) && Lacks(" " + contentType, CRLF)
    ensures !At(TypeLine(contentType), "Content-Disposition" + ":", 0)
  {
    NoReturnLacks(" ");
    JoinLacks(" ", contentType);
    NoReturnLacks("Content-Type" + ":");
    JoinLacks("Content-Type" + ":", " " + contentType);
    var s := TypeLine(contentType);
    assert |s| >= 20 ==> s[0..20][8] == s[8] == 'T';
    assert ("Content-Disposition" + ":")[8] == 'D';
  }

  function FilenameOf(p: Part): string { if p.File? then p.filename else "" }

  lemma {:induction false} HeadersRead(p: Part, boundary: string)
    requires Sendable(p, boundary)
    ensures var line := DispositionLine(p.name, FilenameOf(p));
      line != "" && HeaderValue(Headers(p), "Content-Disposition") == line
    ensures p.File? ==> HeaderValue(Headers(p), "Content-Type") == p.contentType
    ensures Clear(CRLF + Headers(p), BLANK_LINE)
  {
    NoReturnLacks("");
    var line := DispositionLine(p.name, FilenameOf(p));
    LineLacks(p.name, FilenameOf(p));
    LineShape(p.name, FilenameOf(p));
    match p
    case Field(_, _) =>
      FirstHeaderAlone(line, "Content-Disposition");
      OneLineBlock(line);
    case File(_, _, contentType, _) =>
      TypeLineLacks(contentType);
      FirstHeaderOfTwo(line, TypeLine(contentType), "Content-Disposition");
      SecondHeader(line, "Content-Type", " " + contentType);
      TrimmedStays(contentType);
      TwoLineBlock(line, TypeLine(contentType));
  }

  /** A block of headers is recognised whole, and is read as the part. */
  ghost predicate Describes(head: string, p: Part, read: Reader) {
    Clear(CRLF + head, BLANK_LINE) && read(head, p.data) == Some([p])
  }

  lemma {:induction false} HeadersDescribe(p: Part, boundary: string)
    requires Sendable(p, boundary)
    ensures Describes(Headers(p), p, ReadPart)
  {
    HeadersRead(p, boundary);
    DispositionRead(OPENING, p.name, FilenameOf(p));
  }

  // ---- One part, and all of them ---------------------------------------------------------

  /** A part on the wire: line break, headers, blank line, data, and the delimiter after it. */
  function PartText(head: string, data: string, full: string): string {
    CRLF + head + BLANK_LINE + data + (CRLF + full)
  }

  lemma {:induction false} DelimiterClear(data: string, boundary: string)
    requires '\r' !in boundary && Lacks(data, CRLF + "--" + boundary)
    ensures Clear(data, CRLF + ("--" + boundary))
  {
    var delimiter := CRLF + ("--" + boundary);
    assert delimiter == CRLF + "--" + boundary;
    assert delimiter[1..] == "\n--" + boundary;
    NoStraddle(data, delimiter);
  }

  /** Where the two searches of a round land: `h` ends the headers, `m` the data. */
  predicate Lands(body: string, pos: nat, h: nat, m: nat, full: string) {
    pos <= |body| && Find(body, BLANK_LINE, pos) == Some(h) && Find(body, CRLF + full, h + 4) == Some(m)
  }

  predicate Pieces(body: string, pos: nat, h: nat, m: nat, head: string, data: string, full: string, after: string) {
    && pos <= h && h + 4 <= m && m + 2 + |full| + |after| == |body|
    && body[pos..h] == CRLF + head && body[h + 4..m] == data
    && body[m + 2..m + 2 + |full|] == full && body[m + 2 + |full|..] == after
  }

  /** The scan of one part: it recovers the part, moves past the delimiter, and ends exactly if
      the delimiter is the closing one. */
  lemma {:induction false} StepRead(body: string, pos: nat, h: nat, m: nat, head: string, p: Part,
                                    full: string, after: string, read: Reader)
    requires Describes(head, p, read) && Pieces(body, pos, h, m, head, p.data, full, after)
    ensures StepAt(body, full, pos, h, m, read) == Next([p], |body| - |after|, At(after, "--", 0))
  {
    ClosingSeen(body, m + 2, full, after);
    LeadDropped(head);
    assert WithoutCrlf(body[pos..h]) == head;
  }

  lemma {:induction false} ScanFirst(body: string, pos: nat, h: nat, m: nat, p: Part, more: seq<Part>, full: string,
                                     next: nat, read: Reader)
    requires pos < |body| && Lands(body, pos, h, m, full) && next <= |body|
    requires StepAt(body, full, pos, h, m, read) == Next([p], next, more == [])
    requires more != [] ==> Scan(body, full, next, read) == more
    ensures Scan(body, full, pos, read) == [p] + more
  {
    assert ScanPart(body, full, pos, read) == StepAt(body, full, pos, h, m, read);
  }

  lemma {:induction false} LeadDropped(head: string)
    ensures WithoutCrlf(CRLF + head) == head
  {
    assert (CRLF + head)[..2] == CRLF && (CRLF + head)[2..] == head;
  }

  lemma {:induction false} ClosingSeen(body: string, at: nat, full: string, after: string)
    requires at + |full| <= |body| && body[at..at + |full|] == full && body[at + |full|..] == after
    ensures At(body, full + "--", at) == At(after, "--", 0)
  {
    if |after| >= 2 {
      assert body[at..at + |full| + 2] == full + after[0..2];
      assert (full + after[0..2])[|full|..] == after[0..2] && (full + "--")[|full|..] == "--";
    }
  }

  lemma {:induction false} HeadersLand(body: string, before: string, block: string, data: string,
                                       delimiter: string, after: string)
    requires body == before + (block + BLANK_LINE + data + delimiter) + after
    requires Clear(block, BLANK_LINE)
    ensures Find(body, BLANK_LINE, |before|) == Some(|before| + |block|)
  {
    FindLands(before, block, BLANK_LINE, data + delimiter + after);
    Regroup(before, block, BLANK_LINE, data, delimiter, after);
  }

  lemma {:induction false} DataLands(body: string, before: string, block: string, data: string,
                                     delimiter: string, after: string)
    requires body == before + (block + BLANK_LINE + data + delimiter) + after
    requires Clear(data, delimiter)
    ensures Find(body, delimiter, |before| + |block| + 4) == Some(|before| + |block| + 4 + |data|)
  {
    FindLands(before + block + BLANK_LINE, data, delimiter, after);
    Regroup(before, block, BLANK_LINE, data, delimiter, after);
  }

  lemma {:induction false} Regroup(a: string, b: string, c: string, d: string, e: string, f: string)
    ensures a + (b + c + d + e) + f == a + (b + c) + (d + e + f)
    ensures a + (b + c + d + e) + f == (a + b + c) + (d + e) + f
  {
  }

  lemma {:induction false} PartPieces(body: string, before: string, head: string, data: string, full: string, after: string)
    returns (h: nat, m: nat)
    requires body == before + PartText(head, data, full) + after
    ensures Pieces(body, |before|, h, m, head, data, full, after)
    ensures h == |before| + |CRLF + head| && m == h + 4 + |data|
  {
    h := |before| + |CRLF + head|;
    m := h + 4 + |data|;
  }

  lemma {:induction false} PartStands(body: string, before: string, head: string, data: string, full: string, after: string)
    returns (h: nat, m: nat)
    requires body == before + PartText(head, data, full) + after
    requires Clear(CRLF + head, BLANK_LINE) && Clear(data, CRLF + full)
    ensures Lands(body, |before|, h, m, full) && Pieces(body, |before|, h, m, head, data, full, after)
  {
    h, m := PartPieces(body, before, head, data, full, after);
    HeadersLand(body, before, CRLF + head, data, CRLF + full, after);
    DataLands(body, before, CRLF + head, data, CRLF + full, after);
  }

  /** The rest of the wire after a delimiter: the parts, or the closing dashes and an epilogue. */
  function Rest(parts: seq<Part>, heads: seq<string>, full: string, epilogue: string): string
    requires |heads| == |parts|
  {
    if parts == [] then "--" + epilogue
    else PartText(heads[0], parts[0].data, full) + Rest(parts[1..], heads[1..], full, epilogue)
  }

  ghost predicate AllReadable(parts: seq<Part>, heads: seq<string>, full: string, read: Reader) {
    && |heads| == |parts|
    && forall i | 0 <= i < |parts| :: Describes(heads[i], parts[i], read) && Clear(parts[i].data, CRLF + full)
  }

  lemma {:induction false} PartsScanned(before: string, parts: seq<Part>, heads: seq<string>, full: string, epilogue: string,
                                        read: Reader)
    requires parts != [] && AllReadable(parts, heads, full, read)
    ensures Scan(before + Rest(parts, heads, full, epilogue), full, |before|, read) == parts
    decreases parts
  {
    var p, more := parts[0], parts[1..];
    var text := PartText(heads[0], p.data, full);
    var after := Rest(more, heads[1..], full, epilogue);
    var body := (before + text) + after;
    Associate(before, text, after);
    var h, m := PartStands(body, before, heads[0], p.data, full, after);
    StepRead(body, |before|, h, m, heads[0], p, full, after, read);
    RestStarts(more, heads[1..], full, epilogue);
    if more != [] {
      PartsScanned(before + text, more, heads[1..], full, epilogue, read);
    }
    ScanFirst(body, |before|, h, m, p, more, full, |before + text|, read);
  }

  lemma {:induction false} RestStarts(parts: seq<Part>, heads: seq<string>, full: string, epilogue: string)
    requires |heads| == |parts|
    ensures At(Rest(parts, heads, full, epilogue), "--", 0) <==> parts == []
    ensures |Rest(parts, heads, full, epilogue)| >= 2
  {
    var s := Rest(parts, heads, full, epilogue);
    if parts == [] {
      assert s[0..2] == "--";
    } else {
      assert s[0] == '\r' && s[0..2][0] == s[0];
    }
  }

  function Heads(parts: seq<Part>): seq<string> {
    seq(|parts|, i requires 0 <= i < |parts| => Headers(parts[i]))
  }

  /** A form body: a preamble, the opening delimiter, the parts, the closing delimiter, an epilogue. */
  function FormBody(preamble: string, parts: seq<Part>, boundary: string, epilogue: string): string {
    preamble + ("--" + boundary) + Rest(parts, Heads(parts), "--" + boundary, epilogue)
  }

  lemma {:induction false} SendableReadable(parts: seq<Part>, boundary: string)
    requires '\r' !in boundary && forall i | 0 <= i < |parts| :: Sendable(parts[i], boundary)
    ensures AllReadable(parts, Heads(parts), "--" + boundary, ReadPart)
  {
    forall i | 0 <= i < |parts|
      ensures Describes(Heads(parts)[i], parts[i], ReadPart) && Clear(parts[i].data, CRLF + ("--" + boundary))
    {
      HeadersDescribe(parts[i], boundary);
      DelimiterClear(parts[i].data, boundary);
    }
  }

  /** What stands before the first delimiter is skipped. */
  lemma {:induction false} PartsFrom(full: string, body: string, at: nat, parts: seq<Part>, read: Reader)
    requires Find(body, full, 0) == Some(at) && at + |full| <= |body| && Scan(body, full, at + |full|, read) == parts
    ensures PartsAfter(full, body, read) == parts
  {
  }

  lemma {:induction false} FormRead(preamble: string, full: string, rest: string, body: string, start: nat,
                                    parts: seq<Part>, read: Reader)
    requires Clear(preamble, full) && body == preamble + full + rest && start == |preamble + full|
    requires Scan(body, full, start, read) == parts
    ensures PartsAfter(full, body, read) == parts
  {
    FirstDelimiter("", preamble, full, rest);
    PartsFrom(full, body, |preamble|, parts, read);
  }

  lemma {:induction false} FirstDelimiter(before: string, preamble: string, full: string, rest: string)
    requires before == "" && Clear(preamble, full)
    ensures Find(preamble + full + rest, full, 0) == Some(|preamble|)
  {
    FindLands(before, preamble, full, rest);
    assert before + (preamble + full) + rest == preamble + full + rest;
  }

  /** Round trip: every assembled form is read back as the fields and files it was made of. */
  lemma {:induction false} RoundTrip(preamble: string, parts: seq<Part>, boundary: string, epilogue: string,
                                     contentType: string)
    requires '\r' !in boundary && parts != [] && forall i | 0 <= i < |parts| :: Sendable(parts[i], boundary)
    requires Boundary(contentType) == Some(boundary) && Clear(preamble, "--" + boundary)
    ensures PartsOf(Some(contentType), FormBody(preamble, parts, boundary, epilogue)) == parts
  {
    var full := "--" + boundary;
    SendableReadable(parts, boundary);
    BodyScanned(preamble, parts, Heads(parts), full, epilogue, ReadPart);
  }

  lemma {:induction false} BodyScanned(preamble: string, parts: seq<Part>, heads: seq<string>, full: string,
                                       epilogue: string, read: Reader)
    requires parts != [] && AllReadable(parts, heads, full, read) && Clear(preamble, full)
    ensures PartsAfter(full, preamble + full + Rest(parts, heads, full, epilogue), read) == parts
  {
    var rest := Rest(parts, heads, full, epilogue);
    PartsScanned(preamble + full, parts, heads, full, epilogue, read);
    FormRead(preamble, full, rest, preamble + full + rest, |preamble + full|, parts, read);
  }

  // ---- The form without parts ------------------------------------------------------------

  /** From `from` on there is a blank line, and a delimiter after it. */
  ghost predicate Stray(s: string, from: nat, full: string) {
    exists h: nat, m: nat :: from <= h && h + 4 <= m && At(s, BLANK_LINE, h) && At(s, CRLF + full, m)
  }

  /** A round of the scan finds no part exactly if no delimiter follows a blank line. */
  lemma {:induction false} StopsIff(body: string, full: string, pos: nat, read: Reader)
    requires pos <= |body|
    ensures ScanPart(body, full, pos, read).Stop? <==> !Stray(body, pos, full)
    ensures ScanPart(body, full, pos, read).Stop? ==> Scan(body, full, pos, read) == []
  {
    FindIsFirst(body, BLANK_LINE, pos);
    var h := Find(body, BLANK_LINE, pos);
    if h.Some? {
      FindIsFirst(body, CRLF + full, h.value + 4);
      if h', m: nat :| pos <= h' && h' + 4 <= m && At(body, BLANK_LINE, h') && At(body, CRLF + full, m) {
        assert h.value <= h';
      }
    }
  }

  /** Behind the dashes of the closing delimiter, a stray blank line lies in the epilogue. */
  lemma {:induction false} StrayInEpilogue(before: string, full: string, epilogue: string)
    ensures Stray(before + "--" + epilogue, |before|, full) <==> Stray(epilogue, 0, full)
  {
    var lead := before + "--";
    var s := lead + epilogue;
    forall k: nat, pattern | |pattern| <= |epilogue| - k ensures At(s, pattern, |lead| + k) <==> At(epilogue, pattern, k) {
      assert s[|lead| + k..|lead| + k + |pattern|] == epilogue[k..k + |pattern|];
    }
    if h: nat, m: nat :| |before| <= h && h + 4 <= m && At(s, BLANK_LINE, h) && At(s, CRLF + full, m) {
      assert s[h..h + 4][0] == s[h];
      assert At(epilogue, BLANK_LINE, h - |lead|) && At(epilogue, CRLF + full, m - |lead|);
    }
    if h: nat, m: nat :| h + 4 <= m && At(epilogue, BLANK_LINE, h) && At(epilogue, CRLF + full, m) {
      assert At(s, BLANK_LINE, |lead| + h) && At(s, CRLF + full, |lead| + m);
    }
  }

  /** The scan does not look for the dashes of a closing delimiter that comes first: a form without
      parts is left at once, and read as no parts, exactly if no delimiter follows a blank line
      in its epilogue; otherwise a round reads the epilogue as a part. */
  lemma {:induction false} EmptyForm(preamble: string, boundary: string, epilogue: string, contentType: string)
    requires Boundary(contentType) == Some(boundary) && Clear(preamble, "--" + boundary)
    ensures
      var full, body := "--" + boundary, FormBody(preamble, [], boundary, epilogue);
      var start := |preamble + full|;
      && start <= |body|
      && (ScanPart(body, full, start, ReadPart).Stop? <==> !Stray(epilogue, 0, full))
      && (!Stray(epilogue, 0, full) ==> PartsOf(Some(contentType), body) == [])
  {
    EmptyBody(preamble, boundary, epilogue);
    EmptyScanned(preamble, "--" + boundary, epilogue, ReadPart);
  }

  lemma {:induction false} EmptyScanned(preamble: string, full: string, epilogue: string, read: Reader)
    requires Clear(preamble, full)
    ensures
      var body := preamble + full + ("--" + epilogue);
      && (ScanPart(body, full, |preamble + full|, read).Stop? <==> !Stray(epilogue, 0, full))
      && (!Stray(epilogue, 0, full) ==> PartsAfter(full, body, read) == [])
  {
    var body := preamble + full + ("--" + epilogue);
    StopsIff(body, full, |preamble + full|, read);
    StrayInEpilogue(preamble + full, full, epilogue);
    Associate(preamble + full, "--", epilogue);
    if !Stray(epilogue, 0, full) {
      FormRead(preamble, full, "--" + epilogue, body, |preamble + full|, [], read);
    }
  }

  lemma {:induction false} EmptyBody(preamble: string, boundary: string, epilogue: string)
    ensures FormBody(preamble, [], boundary, epilogue) == preamble + ("--" + boundary) + ("--" + epilogue)
  {
  }

  // ---- The content type ------------------------------------------------------------------

  const FORM: string := "multipart/form-data; "
  const KEY: string := "boundary="

  lemma {:induction false} NoFirstLacks(s: string, pattern: string)
    requires pattern != "" && pattern[0] !in s
    ensures Lacks(s, pattern)
  {
    forall k: nat ensures !At(s, pattern, k) {
      assert k + |pattern| <= |s| ==> s[k..k + |pattern|][0] == s[k];
    }
  }

  lemma {:induction false} KeyFound(value: string)
    ensures Find(FORM + KEY + value, KEY, 0) == Some(|FORM|)
    ensures Find(FORM + KEY + value, "multipart/form-data", 0).Some?
  {
    NoFirstLacks(FORM, KEY);
    assert KEY[1..] == "oundary=";
    NoStraddle(FORM, KEY);
    FindLands("", FORM, KEY, value);
    assert "" + (FORM + KEY) + value == FORM + KEY + value;
    FindKnown(FORM + KEY + value, "multipart/form-data", 0, 0);
  }

  /** The boundary of a content type is read back, bare or in quotes. */
  lemma {:induction false} BoundaryRead(value: string, boundary: string)
    requires Trimmed(value)
    requires value == ['"'] + boundary + ['"'] || (value == boundary && ('"' !in boundary))
    ensures Boundary(FORM + KEY + value) == Some(boundary)
  {
    KeyFound(value);
    TrimmedStays(value);
    assert (FORM + KEY + value)[|FORM| + 9..] == value;
    if value != boundary {
      assert value[1..|value| - 1] == boundary;
    }
  }
}
