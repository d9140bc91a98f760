/** The accumulator of a buffered request body (framework/session/http_session.cpp): pieces are
    appended as they arrive, and a body over the limit is refused. */
module BufferedBody {
  /** A read that failed ends the session; otherwise it produced some bytes. */
  datatype Piece = Failed | Produced(bytes: string)

  datatype Outcome = Body(data: string) | TooLarge | Closed

  function Bytes(pieces: seq<Piece>): string {
    if pieces == [] then ""
    else Bytes(pieces[..|pieces| - 1]) + match pieces[|pieces| - 1] case Failed => "" case Produced(b) => b
  }

  predicate AllProduced(pieces: seq<Piece>) { forall i | 0 <= i < |pieces| :: pieces[i].Produced? }

  /** How many pieces arrive before a read fails. */
  function Arriving(pieces: seq<Piece>): (n: nat)
    ensures n <= |pieces| && AllProduced(pieces[..n]) && (n < |pieces| ==> pieces[n].Failed?)
  {
    if pieces == [] || pieces[0].Failed? then 0
    else
      assert forall i | 0 <= i < Arriving(pieces[1..]) :: pieces[1..][i] == pieces[i + 1];
      1 + Arriving(pieces[1..])
  }

  lemma {:induction false} BytesGrow(pieces: seq<Piece>, k: nat)
    requires k <= |pieces|
    ensures Bytes(pieces[..k]) <= Bytes(pieces)
    decreases |pieces|
  {
    if k < |pieces| {
      BytesGrow(pieces[..|pieces| - 1], k);
      assert pieces[..|pieces| - 1][..k] == pieces[..k];
    } else {
      assert pieces[..k] == pieces;
    }
  }

  class BodyReader {
    const limit: nat
    var buffered: string

    constructor (limit: nat)
      ensures this.limit == limit && buffered == ""
    {
      this.limit := limit;
      buffered := "";
    }

    /** `on_read_buffered_body`; false if the body grew over the limit. The subtraction cannot wrap,
        for the buffer never holds more than the limit. */
    method OnRead(bytes: string) returns (ok: bool)
      requires |buffered| <= limit
      modifies this
      ensures ok <==> |old(buffered)| + |bytes| <= limit
      ensures buffered == if ok then old(buffered) + bytes else old(buffered)
      ensures |buffered| <= limit
    {
      if |buffered| > limit || |bytes| > limit - |buffered| {
        return false;
      }
      buffered := buffered + bytes;
      return true;
    }

    /** Reading a body whose parser is done after the last piece, however it was cut: it is refused
        exactly if the pieces that arrive before a failed read exceed the limit; otherwise a
        failed read closes the session, and without one the body is taken whole. */
    method ReadBody(pieces: seq<Piece>) returns (outcome: Outcome)
      requires buffered == ""
      modifies this
      ensures
        var n := Arriving(pieces);
        outcome ==
          if |Bytes(pieces[..n])| > limit then TooLarge
          else if n < |pieces| then Closed
          else Body(Bytes(pieces))
    {
      ghost var n := Arriving(pieces);
      for k := 0 to |pieces|
        invariant k <= n && buffered == Bytes(pieces[..k]) && |buffered| <= limit
      {
        assert pieces[..k + 1][..k] == pieces[..k];
        if pieces[k].Failed? {
          assert k == n;
          return Closed;
        }
        var ok := OnRead(pieces[k].bytes);
        if !ok {
          assert pieces[..n][..k + 1] == pieces[..k + 1];
          BytesGrow(pieces[..n], k + 1);
          return TooLarge;
        }
      }
      assert pieces[..|pieces|] == pieces;
      return Body(buffered);
    }
  }
}
