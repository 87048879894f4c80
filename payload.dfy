/** The body of a response, held as text. */
module HttpPayload {
  import opened Text

  datatype Payload = Payload(content: string) {

    /** A copy of the content. */
    function ToString(): (r: string)
      ensures Utf8Len(r) == ContentLength()
    {
      content
    }

    /** The length of the content in bytes (UTF-8), not in characters. */
    function ContentLength(): (n: nat)
      ensures |content| <= n <= 4 * |content|
      ensures n == |content| <==> IsAscii(content)
      ensures n == 0 <==> content == ""
    {
      Utf8Len(content)
    }
  }

  /**
   * What `new` stores, `to_string` hands back unchanged, and the length the payload
   * reports is that of the text it hands back.
   */
  lemma PayloadAccessors(content: string)
    ensures Payload(content).ToString() == content
    ensures Payload(content).ContentLength() == Utf8Len(Payload(content).ToString())
  {
  }

  /** An empty payload is the empty string and has length 0. */
  lemma EmptyPayload()
    ensures Payload("").ToString() == ""
    ensures Payload("").ContentLength() == 0
  {
  }

  /** Joining two bodies adds their lengths: the length is a byte count, not a character count. */
  lemma ContentLengthAppend(a: string, b: string)
    ensures Payload(a + b).ContentLength() == Payload(a).ContentLength() + Payload(b).ContentLength()
  {
    Utf8LenAppend(a, b);
  }

  /** A body of non-ASCII text is longer in bytes than in characters. */
  lemma NonAsciiCountsBytes()
    ensures Payload("é").ContentLength() == 2
  {
  }
}
