/** A single header line: a name and a value. */
module HttpHeader {
  import opened HttpError
  import opened Text

  datatype Header = Header(name: string, value: string) {

    /** The header as it appears on the wire, "name: value" (without the line break). */
    function ToString(): (r: string)
      ensures |r| == |name| + 2 + |value|
      ensures r[..|name|] == name
      ensures r[|name|..|name| + 2] == ": "
      ensures r[|name| + 2..] == value
    {
      name + ": " + value
    }
  }

  /**
   * Reads a header line back by splitting it at the first ": ". A line without that
   * separator is not a header.
   */
  function SplitHeader(line: string): (r: Option<Header>)
    ensures r.None? <==> !Contains(line, ": ")
    ensures r.Some? ==> r.value.ToString() == line && !Contains(r.value.name, ": ")
  {
    match IndexOf(line, ": ")
    case None => None
    case Some(i) =>
      var name, value := line[..i], line[i + 2..];
      assert line == name + ": " + value;
      assert !Contains(name, ": ") by {
        forall j | OccursAt(name, ": ", j)
          ensures OccursAt(line, ": ", j) && j < i
        {
          assert line[j..j + 2] == name[j..j + 2];
        }
      }
      Some(Header(name, value))
  }

  /** In a rendered header whose name has no ": ", the first ": " is the one after the name. */
  lemma {:induction false} SeparatorAfterName(h: Header)
    requires !Contains(h.name, ": ")
    ensures IndexOf(h.ToString(), ": ") == Some(|h.name|)
  {
    var line, n := h.ToString(), |h.name|;
    assert line[n..n + 2] == ": ";
    forall j | 0 <= j < n
      ensures !OccursAt(line, ": ", j)
    {
      if j + 2 <= n {
        assert line[j..j + 2] == h.name[j..j + 2];
        assert !OccursAt(h.name, ": ", j);
      } else {
        assert line[j + 1] == ':';
        CharMismatch(line, ": ", j, 1);
      }
    }
    var r := IndexOf(line, ": ");
    assert OccursAt(line, ": ", n);
    assert r.Some? && n <= r.value;
  }

  /** A header whose name holds no ": " splits back into exactly that name and value. */
  lemma HeaderRoundTrip(h: Header)
    requires !Contains(h.name, ": ")
    ensures SplitHeader(h.ToString()) == Some(h)
  {
    SeparatorAfterName(h);
  }

  /** A header line's length in bytes: both parts plus the two separator bytes. */
  lemma HeaderByteLength(h: Header)
    ensures Utf8Len(h.ToString()) == Utf8Len(h.name) + 2 + Utf8Len(h.value)
  {
    var separator := ": ";
    assert Utf8Len(separator) == 2;
    Utf8LenAppend(h.name, separator);
    Utf8LenAppend(h.name + separator, h.value);
  }
}
