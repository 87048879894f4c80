/** A response and its rendering as wire text. */
module HttpResponse {
  import opened HttpError
  import opened Text
  import opened HttpStatus
  import opened HttpHeader
  import opened HttpPayload

  /** A status, the headers in the order given and an optional body. */
  datatype Response = Response(status: Status, headers: seq<Header>, payload: Option<Payload>) {

    /**
     * The wire text: the status line, then CRLF twice. Headers and payload are not
     * written, so the text depends on the status alone.
     */
    function ToString(): (r: string)
      ensures |r| == |status.ToString()| + 4
    {
      status.ToString() + "\r\n" + "\r\n"
    }
  }

  /** The wire text is the status line and then CR LF CR LF, four characters more. */
  lemma ResponseLayout(resp: Response)
    ensures var r, st := resp.ToString(), resp.status.ToString();
      && |r| == |st| + 4
      && r[..|st|] == st
      && r[|st|..] == "\r\n\r\n"
  {
  }

  /** Every rendered response opens with the protocol name and closes with an empty line. */
  lemma ResponseFraming(resp: Response)
    ensures var r := resp.ToString(); r[..5] == "HTTP/" && r[|r| - 4..] == "\r\n\r\n"
  {
    var r, st := resp.ToString(), resp.status.ToString();
    ResponseLayout(resp);
    StatusLineLayout(resp.status);
    assert r[..5] == st[..5];
  }

  /** Headers and payload never reach the wire: equal statuses render equally. */
  lemma ToStringIgnoresHeadersAndPayload(a: Response, b: Response)
    requires a.status == b.status
    ensures a.ToString() == b.ToString()
  {
  }

  /** A response's length in bytes: its status line plus the four bytes of CR LF CR LF. */
  lemma ResponseByteLength(resp: Response)
    ensures Utf8Len(resp.ToString()) == Utf8Len(resp.status.ToString()) + 4
  {
    var crlf := "\r\n";
    assert Utf8Len(crlf) == 2;
    Utf8LenAppend(resp.status.ToString(), crlf);
    Utf8LenAppend(resp.status.ToString() + crlf, crlf);
  }

  /** The text before the first CRLF; there is none exactly when the text has no CRLF. */
  function FirstLine(text: string): (r: Option<string>)
    ensures r.None? <==> !Contains(text, "\r\n")
    ensures r.Some? ==> !Contains(r.value, "\r\n")
    ensures r.Some? ==> |r.value| + 2 <= |text| && text[..|r.value| + 2] == r.value + "\r\n"
  {
    match IndexOf(text, "\r\n")
    case None => None
    case Some(i) =>
      var line := text[..i];
      assert text[..i + 2] == line + text[i..i + 2];
      assert !Contains(line, "\r\n") by {
        forall j | OccursAt(line, "\r\n", j)
          ensures OccursAt(text, "\r\n", j) && j < i
        {
          assert text[j..j + 2] == line[j..j + 2];
        }
      }
      Some(line)
  }

  /**
   * A reader that takes a rendered response's text up to the first CRLF gets exactly the
   * status line back, and from it the status, whenever the version holds no CR.
   */
  lemma {:induction false} StatusLineRecovered(resp: Response)
    requires '\r' !in resp.status.version
    ensures FirstLine(resp.ToString()) == Some(resp.status.ToString())
    ensures ParseStatusLine(FirstLine(resp.ToString()).value) == Some(resp.status)
  {
    var text, st := resp.ToString(), resp.status.ToString();
    var n := |st|;
    ToStringSplit(resp.status);
    AsStrSingleLine(resp.status.code);
    assert '\r' !in st;
    ResponseLayout(resp);
    forall k | 0 <= k < n
      ensures !OccursAt(text, "\r\n", k)
    {
      assert text[k] == text[..n][k] == st[k];
      CharMismatch(text, "\r\n", k, 0);
    }
    assert text[n..n + 2] == text[n..][..2];
    assert OccursAt(text, "\r\n", n);
    StatusLineRoundTrip(resp.status);
  }
}
