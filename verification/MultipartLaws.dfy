/** What the multipart parser (framework/context/http_context.cpp) makes of forms and parts that lack
    something: a content type, a header, a name. */
module MultipartLaws {
  import opened Basics
  import opened Text
  import opened Multipart
  import opened MultipartRoundTrip

  /** Blanks are the space, the tab and the two characters of a line break; trimming takes them off. */
  lemma {:induction false} Blanks(c: char)
    ensures Blank(c) <==> c in " \t\n\r"
    ensures Trim([c]) == if c in " \t\n\r" then "" else [c]
  {
    assert [c][1..] == "";
  }

  /** The headers of a part, as they are written. */
  lemma {:induction false} HeadersAsWritten(name: string, filename: string, contentType: string)
    ensures DispositionLine(name, "") == "Content-Disposition: form-data; name=\"" + name + "\""
    ensures filename != "" ==>
              DispositionLine(name, filename) ==
              "Content-Disposition: form-data; name=\"" + name + "\"" + ("; filename=\"" + filename + "\"")
    ensures TypeLine(contentType) == "Content-Type: " + contentType
  {
    Written(name, "");
    Written(name, filename);
  }

  lemma {:induction false} Written(name: string, filename: string)
    ensures DispositionLine(name, filename) ==
            "Content-Disposition: form-data; name=\"" + name + "\"" +
            (if filename == "" then "" else "; filename=\"" + filename + "\"")
  {
    assert OPENING + NAME_KEY == "Content-Disposition: form-data; name=\"";
    assert "; " + FILENAME_KEY == "; filename=\"";
  }

  /** A content type names a boundary exactly if it speaks of form data and of a boundary. */
  lemma {:induction false} BoundaryIff(contentType: string)
    ensures Boundary(contentType).Some? <==>
            !Lacks(contentType, "multipart/form-data") && !Lacks(contentType, "boundary=")
  {
    FindIsFirst(contentType, "multipart/form-data", 0);
    FindIsFirst(contentType, "boundary=", 0);
  }

  /** Without a boundary, or without its delimiter in the body, no parts are read. */
  lemma {:induction false} NoPartsRead(contentType: string, body: string)
    ensures PartsOf(None, body) == []
    ensures Boundary(contentType).None? ==> PartsOf(Some(contentType), body) == []
    ensures Boundary(contentType).Some? && Lacks(body, "--" + Boundary(contentType).value) ==>
              PartsOf(Some(contentType), body) == []
  {
    if Boundary(contentType).Some? && Lacks(body, "--" + Boundary(contentType).value) {
      NoDelimiter("--" + Boundary(contentType).value, body, ReadPart);
    }
  }

  lemma {:induction false} NoDelimiter(full: string, body: string, read: Reader)
    requires Lacks(body, full)
    ensures PartsAfter(full, body, read) == []
  {
    FindNone(body, full, 0);
  }

  /** A header that is not there has the value "". */
  lemma {:induction false} HeaderAbsent(headers: string, name: string)
    requires Lacks(headers, CRLF + name + ":") && !At(headers, name + ":", 0)
    ensures HeaderValue(headers, name) == ""
  {
    FindNone(headers, CRLF + name + ":", 0);
  }

  /** A disposition without a quoted name names nothing. */
  lemma {:induction false} Nameless(s: string)
    requires Lacks(s, NAME_KEY)
    ensures Disposition(s) == ("", "")
  {
    assert !At(s, NAME_KEY, 0);
    if s != "" {
      forall k: nat ensures !At(s[1..], NAME_KEY, k) {
        assert !At(s, NAME_KEY, k + 1);
        assert k + |NAME_KEY| <= |s[1..]| ==> s[1..][k..k + |NAME_KEY|] == s[k + 1..k + 1 + |NAME_KEY|];
      }
      Nameless(s[1..]);
    }
  }

  /** A part without a disposition is no part at all; one whose disposition has no name adds nothing;
      any other adds one file, if a file name follows the name, or else one field. */
  lemma {:induction false} PartKinds(headers: string, data: string)
    ensures
      var d, r := HeaderValue(headers, "Content-Disposition"), ReadPart(headers, data);
      && (d == "" <==> r.None?)
      && (d != "" && Lacks(d, NAME_KEY) ==> r == Some([]))
      && (r.Some? && r.value != [] ==>
            && |r.value| == 1 && r.value[0].data == data && r.value[0].name == Disposition(d).0 != ""
            && (r.value[0].File? <==> Disposition(d).1 != "")
            && (r.value[0].File? ==>
                  r.value[0].filename == Disposition(d).1 && r.value[0].contentType == HeaderValue(headers, "Content-Type")))
  {
    var d := HeaderValue(headers, "Content-Disposition");
    if Lacks(d, NAME_KEY) {
      Nameless(d);
    }
  }

  /** A round that meets such a part goes on behind the delimiter, even if that one closes the form;
      any other round ends exactly at a closing delimiter. */
  lemma {:induction false} RoundEnds(body: string, full: string, pos: nat, read: Reader, h: nat, m: nat)
    requires Lands(body, pos, h, m, full)
    ensures h + 4 <= m && m + 2 + |full| <= |body| && pos <= h
    ensures
      var step := ScanPart(body, full, pos, read);
      var parts := read(WithoutCrlf(body[pos..h]), body[h + 4..m]);
      && step.Next? && step.pos == m + 2 + |full|
      && (parts.None? ==> step.parts == [] && !step.last)
      && (parts.Some? ==> step.parts == parts.value && (step.last <==> At(body, full + "--", m + 2)))
  {
  }
}
