/** Parsing multipart/form-data bodies (framework/context/http_context.cpp): header values,
    the disposition pattern, the scan over the parts, and the cached fields and files. */
module Multipart {
  import opened Basics
  import opened Text

  // ---- Trimming and header values -------------------------------------------------

  predicate Blank(c: char) { c == ' ' || c == '\t' || c == '\n' || c == '\r' }

  function Trim(s: string): string {
    if s == "" then ""
    else if Blank(s[0]) then Trim(s[1..])
    else if Blank(s[|s| - 1]) then Trim(s[..|s| - 1])
    else s
  }

  predicate AllBlank(s: string) { forall i | 0 <= i < |s| :: Blank(s[i]) }

  predicate Trimmed(s: string) { s == "" || (!Blank(s[0]) && !Blank(s[|s| - 1])) }

  /** What is left has no blank end, and only blanks went away. */
  lemma {:induction false} TrimSplits(s: string) returns (left: string, right: string)
    ensures s == left + Trim(s) + right && AllBlank(left) && AllBlank(right) && Trimmed(Trim(s))
    decreases |s|
  {
    if s == "" {
      left, right := "", "";
    } else if Blank(s[0]) {
      left, right := TrimSplits(s[1..]);
      assert s == [s[0]] + s[1..];
      left := [s[0]] + left;
    } else if Blank(s[|s| - 1]) {
      left, right := TrimSplits(s[..|s| - 1]);
      assert s == s[..|s| - 1] + [s[|s| - 1]];
      right := right + [s[|s| - 1]];
    } else {
      left, right := "", "";
    }
  }

  const CRLF: string := "\r\n"

  /** The value of a header in a block of headers, or "". The very first header of the block is
      returned with its name still in front. */
  function HeaderValue(headers: string, name: string): string {
    var found := Find(headers, CRLF + name + ":", 0);
    if found.None? && !At(headers, name + ":", 0) then ""
    else
      var pos := if found.Some? then found.value + |CRLF + name + ":"| else 0;
      var end := Find(headers, CRLF, pos);
      Trim(headers[pos..if end.Some? then end.value else |headers|])
  }

  // ---- The disposition pattern ------------------------------------------------------

  /** A non-empty quoted value after `key`, with the rest of the text. */
  function Quoted(s: string, key: string): (r: Option<(string, string)>)
    ensures r.Some? ==> r.value.0 != "" && '"' !in r.value.0
    ensures r.Some? ==> s == key + r.value.0 + ['"'] + r.value.1
  {
    if !At(s, key, 0) then None
    else
      var rest := s[|key|..];
      var k := IndexOf(rest, '"');
      if k == 0 || k == |rest| then None
      else
        assert s == key + rest[..k] + ['"'] + rest[k + 1..];
        Some((rest[..k], rest[k + 1..]))
  }

  const NAME_KEY: string := "name=\""
  const FILENAME_KEY: string := "filename=\""

  /** The name, and the file name if one follows after a semicolon. */
  function DispositionAt(s: string): Option<(string, string)> {
    var name := Quoted(s, NAME_KEY);
    if name.None? then None
    else
      var rest := name.value.1;
      var file := if rest != "" && rest[0] == ';' then Quoted(SkipSpaces(rest[1..]), FILENAME_KEY) else None;
      Some((name.value.0, if file.Some? then file.value.0 else ""))
  }

  /** The leftmost match in the text; two empty strings if there is none. */
  function Disposition(s: string): (string, string) {
    var here := DispositionAt(s);
    if here.Some? then here.value
    else if s == "" then ("", "")
    else Disposition(s[1..])
  }

  // ---- The scan over the parts --------------------------------------------------------

  datatype Part =
    | Field(name: string, data: string)
    | File(name: string, filename: string, contentType: string, data: string)

  /** What one part contributes: a file if it has a file name, nothing if it has no name;
      `None` if it has no disposition at all. */
  function ReadPart(headers: string, data: string): Option<seq<Part>> {
    var disposition := HeaderValue(headers, "Content-Disposition");
    var names := Disposition(disposition);
    if disposition == "" then None
    else if names.0 == "" then Some([])
    else if names.1 != "" then Some([File(names.0, names.1, HeaderValue(headers, "Content-Type"), data)])
    else Some([Field(names.0, data)])
  }

  /** How the headers and data of a part are read; the scan itself does not depend on it. */
  type Reader = (string, string) -> Option<seq<Part>>

  datatype Step = Stop | Next(parts: seq<Part>, pos: nat, last: bool)

  function WithoutCrlf(s: string): string { if At(s, CRLF, 0) then s[2..] else s }

  /** A part whose headers end at `h` and whose data end at `m`. A part without a disposition is
      skipped without a look at whether the delimiter after it closes the form. */
  function StepAt(body: string, full: string, pos: nat, h: nat, m: nat, read: Reader): (r: Step)
    requires pos <= h && h + 4 <= m && m + 2 + |full| <= |body|
    ensures r.Next? && r.pos == m + 2 + |full|
  {
    var parts := read(WithoutCrlf(body[pos..h]), body[h + 4..m]);
    if parts.None? then Next([], m + 2 + |full|, false)
    else Next(parts.value, m + 2 + |full|, At(body, full + "--", m + 2))
  }

  /** One round of the scan. On any body it stays in bounds and moves on. */
  function ScanPart(body: string, full: string, pos: nat, read: Reader): (r: Step)
    requires pos <= |body|
    ensures r.Next? ==> pos < r.pos <= |body|
  {
    var h := Find(body, "\r\n\r\n", pos);
    if h.None? then Stop
    else
      var m := Find(body, CRLF + full, h.value + 4);
      if m.None? then Stop else StepAt(body, full, pos, h.value, m.value, read)
  }

  function Scan(body: string, full: string, pos: nat, read: Reader): seq<Part>
    requires pos <= |body|
    decreases |body| - pos
  {
    if pos == |body| then []
    else
      var step := ScanPart(body, full, pos, read);
      if step.Stop? then []
      else step.parts + if step.last then [] else Scan(body, full, step.pos, read)
  }

  /** The boundary named by a content type; none if it is not multipart/form-data. */
  function Boundary(contentType: string): Option<string> {
    var pos := Find(contentType, "boundary=", 0);
    if Find(contentType, "multipart/form-data", 0).None? || pos.None? then None
    else
      var b := Trim(contentType[pos.value + 9..]);
      Some(if |b| >= 2 && b[0] == '"' && b[|b| - 1] == '"' then b[1..|b| - 1] else b)
  }

  /** The parts after the first delimiter; what stands before it is skipped. */
  function PartsAfter(full: string, body: string, read: Reader): seq<Part> {
    var first := Find(body, full, 0);
    if first.None? then [] else Scan(body, full, first.value + |full|, read)
  }

  function PartsOf(contentType: Option<string>, body: string): seq<Part> {
    if contentType.None? then []
    else
      var boundary := Boundary(contentType.value);
      if boundary.None? then [] else PartsAfter("--" + boundary.value, body, ReadPart)
  }

  // ---- Fields and files ----------------------------------------------------------------

  /** The last field of that name. */
  function LastNamed(parts: seq<Part>, name: string): Option<string> {
    if parts == [] then None
    else
      var p := parts[|parts| - 1];
      if p.Field? && p.name == name then Some(p.data) else LastNamed(parts[..|parts| - 1], name)
  }

  datatype MultipartFile = MultipartFile(filename: string, contentType: string, data: string)

  /** The files of that name, in order. */
  function FilesNamed(parts: seq<Part>, name: string): seq<MultipartFile> {
    if parts == [] then []
    else
      var p := parts[|parts| - 1];
      FilesNamed(parts[..|parts| - 1], name) +
      if p.File? && p.name == name then [MultipartFile(p.filename, p.contentType, p.data)] else []
  }

  ghost predicate Caches(parts: seq<Part>, fields: map<string, string>, files: map<string, seq<MultipartFile>>) {
    && (forall n :: (n in fields <==> LastNamed(parts, n).Some?) && (n in fields ==> LastNamed(parts, n) == Some(fields[n])))
    && (forall n :: (n in files <==> FilesNamed(parts, n) != []) && (n in files ==> FilesNamed(parts, n) == files[n]))
  }

  lemma {:induction false} PushPart(parts: seq<Part>, p: Part, name: string)
    ensures LastNamed(parts + [p], name) ==
            if p.Field? && p.name == name then Some(p.data) else LastNamed(parts, name)
    ensures FilesNamed(parts + [p], name) ==
            FilesNamed(parts, name) +
            if p.File? && p.name == name then [MultipartFile(p.filename, p.contentType, p.data)] else []
  {
    assert (parts + [p])[..|parts|] == parts;
  }

  lemma {:induction false} PushPartNamed(parts: seq<Part>, p: Part)
    ensures forall n :: LastNamed(parts + [p], n) ==
                        if p.Field? && p.name == n then Some(p.data) else LastNamed(parts, n)
    ensures forall n :: FilesNamed(parts + [p], n) ==
                        FilesNamed(parts, n) +
                        if p.File? && p.name == n then [MultipartFile(p.filename, p.contentType, p.data)] else []
  {
    forall n ensures LastNamed(parts + [p], n) ==
                     if p.Field? && p.name == n then Some(p.data) else LastNamed(parts, n)
    {
      PushPart(parts, p, n);
    }
    forall n ensures FilesNamed(parts + [p], n) ==
                     FilesNamed(parts, n) +
                     if p.File? && p.name == n then [MultipartFile(p.filename, p.contentType, p.data)] else []
    {
      PushPart(parts, p, n);
    }
  }

  /** One round, and what it leaves to be scanned. */
  method ScanRound(ghost parts: seq<Part>, body: string, full: string, pos: nat, read: Reader) returns (step: Step)
    requires pos < |body|
    ensures step.Next? ==> pos < step.pos <= |body|
    ensures step.Stop? ==> parts + Scan(body, full, pos, read) == parts
    ensures step.Next? && step.last ==> parts + Scan(body, full, pos, read) == parts + step.parts
    ensures step.Next? && !step.last ==>
              parts + Scan(body, full, pos, read) == (parts + step.parts) + Scan(body, full, step.pos, read)
  {
    step := ScanPart(body, full, pos, read);
    if step.Next? && !step.last {
      assert Scan(body, full, pos, read) == step.parts + Scan(body, full, step.pos, read);
    } else if step.Next? {
      assert Scan(body, full, pos, read) == step.parts;
    }
  }

  /** The part of the request context that caches the parsed form. */
  class Form {
    const contentType: Option<string>
    const body: string
    var parsed: bool
    var fields: map<string, string>
    var files: map<string, seq<MultipartFile>>
    ghost var found: seq<Part>

    /** The caches answer for the parts found so far. */
    ghost predicate Cached()
      reads this`found, this`fields, this`files
    {
      Caches(found, fields, files)
    }

    ghost predicate Valid()
      reads this
    {
      Cached() && found == if parsed then PartsOf(contentType, body) else []
    }

    constructor (contentType: Option<string>, body: string)
      ensures Valid() && !parsed && this.contentType == contentType && this.body == body
    {
      this.contentType, this.body := contentType, body;
      parsed, fields, files, found := false, map[], map[], [];
    }

    method Store(p: Part)
      requires Cached()
      modifies this`fields, this`files, this`found
      ensures Cached() && found == old(found) + [p]
    {
      PushPartNamed(found, p);
      found := found + [p];
      match p
      case Field(name, data) => fields := fields[name := data];
      case File(name, filename, contentType, data) =>
        var before := if name in files then files[name] else [];
        files := files[name := before + [MultipartFile(filename, contentType, data)]];
    }

    method ParseMultipartData()
      requires Valid()
      modifies this
      ensures Valid() && parsed
    {
      if parsed {
        return;
      }
      parsed := true;
      if contentType.None? {
        return;
      }
      var boundary := Boundary(contentType.value);
      if boundary.None? {
        return;
      }
      SkipPreamble("--" + boundary.value, ReadPart);
    }

    method SkipPreamble(full: string, read: Reader)
      requires Cached() && found == []
      modifies this`fields, this`files, this`found
      ensures Cached() && found == PartsAfter(full, body, read)
    {
      var first := Find(body, full, 0);
      if first.None? {
        return;
      }
      var start := first.value + |full|;
      assert PartsAfter(full, body, read) == Scan(body, full, start, read);
      ScanAll(full, start, read);
    }

    /** The loop over the parts. */
    method ScanAll(full: string, start: nat, read: Reader)
      requires start <= |body| && Cached() && found == []
      modifies this`fields, this`files, this`found
      ensures Cached() && found == Scan(body, full, start, read)
    {
      var pos := start;
      ghost var all := Scan(body, full, start, read);
      while pos < |body|
        invariant pos <= |body| && Cached()
        invariant found + Scan(body, full, pos, read) == all
        decreases |body| - pos
      {
        var step := Round(full, pos, read, all);
        if step.Stop? || step.last {
          return;
        }
        pos := step.pos;
      }
    }

    method Round(full: string, pos: nat, read: Reader, ghost all: seq<Part>) returns (step: Step)
      requires pos < |body| && Cached() && found + Scan(body, full, pos, read) == all
      modifies this`fields, this`files, this`found
      ensures Cached() && (step.Next? ==> pos < step.pos <= |body|)
      ensures step.Stop? || step.last ==> found == all
      ensures step.Next? && !step.last ==> found + Scan(body, full, step.pos, read) == all
    {
      step := ScanRound(found, body, full, pos, read);
      if step.Next? {
        StoreAll(step.parts);
      }
    }

    method StoreAll(parts: seq<Part>)
      requires Cached()
      modifies this`fields, this`files, this`found
      ensures Cached() && found == old(found) + parts
    {
      ghost var before := found;
      for i := 0 to |parts|
        invariant Cached() && found == before + parts[..i]
      {
        Store(parts[i]);
        assert parts[..i + 1] == parts[..i] + [parts[i]];
      }
      assert parts[..|parts|] == parts;
    }
  }
}
