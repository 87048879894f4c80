/** Status codes and the status line of a response. */
module HttpStatus {
  import opened HttpError
  import opened Text

  /** The supported status codes; the set is closed, so the reason-phrase table is total. */
  datatype StatusCode = OK | Created | NotFound | InternalServerError {

    /** The numeric code the variant stands for. */
    function Code(): (n: nat)
      ensures 100 <= n < 1000
    {
      match this
      case OK => 200
      case Created => 201
      case NotFound => 404
      case InternalServerError => 500
    }

    /** The code and its reason phrase, e.g. "404 Not Found". */
    function AsStr(): (t: string)
      ensures 6 <= |t|
    {
      match this
      case OK => "200 OK"
      case Created => "201 Created"
      case NotFound => "404 Not Found"
      case InternalServerError => "500 Internal Server Error"
    }
  }

  /** The decimal digit `d`. */
  function Digit(d: nat): (c: char)
    requires d < 10
  {
    "0123456789"[d]
  }

  /** A code's text opens with the code's three decimal digits, most significant first, and a blank. */
  lemma AsStrLayout(c: StatusCode)
    ensures 4 < |c.AsStr()| && c.AsStr()[3] == ' '
    ensures c.AsStr()[0] == Digit(c.Code() / 100)
    ensures c.AsStr()[1] == Digit(c.Code() / 10 % 10)
    ensures c.AsStr()[2] == Digit(c.Code() % 10)
  {
    match c
    case OK =>
    case Created =>
    case NotFound =>
    case InternalServerError =>
  }

  /** A code's text holds no line break. */
  lemma AsStrSingleLine(c: StatusCode)
    ensures '\r' !in c.AsStr() && '\n' !in c.AsStr()
  {
    match c
    case OK => assert '\r' !in "200 OK" && '\n' !in "200 OK";
    case Created => assert '\r' !in "201 Created" && '\n' !in "201 Created";
    case NotFound => assert '\r' !in "404 Not Found" && '\n' !in "404 Not Found";
    case InternalServerError => assert '\r' !in "500 Internal Server Error" && '\n' !in "500 Internal Server Error";
  }

  /** Distinct codes render differently: the three leading digits already tell them apart. */
  lemma {:induction false} AsStrInjective(a: StatusCode, b: StatusCode)
    ensures a.AsStr() == b.AsStr() ==> a == b
  {
    if a.AsStr() == b.AsStr() {
      AsStrLayout(a);
      AsStrLayout(b);
    }
  }

  /** A status line's contents: the code and the protocol version, e.g. "1.1". */
  datatype Status = Status(code: StatusCode, version: string) {

    /** "HTTP/" + version + " " + code and reason. */
    function ToString(): (r: string)
      ensures |r| == 6 + |version| + |code.AsStr()|
    {
      "HTTP/" + version + " " + code.AsStr()
    }
  }

  /** A status line is "HTTP/", the version, a blank and the code's text, in that order. */
  lemma StatusLineLayout(s: Status)
    ensures var r, v := s.ToString(), s.version;
      && |r| == 6 + |v| + |s.code.AsStr()|
      && r[..5] == "HTTP/"
      && r[5..5 + |v|] == v
      && r[5 + |v|] == ' '
      && r[6 + |v|..] == s.code.AsStr()
  {
  }

  /** A status line's length in bytes, as the server would write it. */
  lemma StatusLineByteLength(s: Status)
    ensures Utf8Len(s.ToString()) == 6 + Utf8Len(s.version) + Utf8Len(s.code.AsStr())
  {
    var v, a := s.version, s.code.AsStr();
    var prefix, blank := "HTTP/", " ";
    assert Utf8Len(prefix) == 5 && Utf8Len(blank) == 1;
    Utf8LenAppend(prefix, v);
    Utf8LenAppend(prefix + v, blank);
    Utf8LenAppend(prefix + v + blank, a);
  }

  /** `suffix` ends `s`. */
  predicate EndsWith(s: string, suffix: string)
  {
    |suffix| <= |s| && s[|s| - |suffix|..] == suffix
  }

  /** The status with code `code`, when `rest` is a version followed by a blank and `code`'s text. */
  function WithCode(rest: string, code: StatusCode): (r: Option<Status>)
    ensures r.Some? ==> r.value.code == code && r.value.ToString() == "HTTP/" + rest
  {
    var tail := Tail(code);
    if EndsWith(rest, tail) then
      var version := rest[..|rest| - |tail|];
      assert rest == version + tail;
      ToStringSplit(Status(code, version));
      Some(Status(code, version))
    else None
  }

  /**
   * Reads a status line back into its code and version; the inverse of `Status.ToString`.
   * The code is recognised from the end of the line, so a version may hold any text.
   */
  function ParseStatusLine(line: string): (r: Option<Status>)
    ensures r.Some? ==> r.value.ToString() == line
  {
    if |line| < 5 || line[..5] != "HTTP/" then None
    else
      assert line == "HTTP/" + line[5..];
      AfterProtocol(line[5..])
  }

  /** The status whose version and code text make up `rest`, trying the codes in order. */
  function AfterProtocol(rest: string): (r: Option<Status>)
    ensures r.Some? ==> r.value.ToString() == "HTTP/" + rest
  {
    var ok := WithCode(rest, OK);
    if ok.Some? then ok else
    var created := WithCode(rest, Created);
    if created.Some? then created else
    var notFound := WithCode(rest, NotFound);
    if notFound.Some? then notFound else
    WithCode(rest, InternalServerError)
  }

  /** If `y` ends `w + x`, then one of `x` and `y` ends the other. */
  lemma EndsWithConcat(w: string, x: string, y: string)
    requires EndsWith(w + x, y)
    ensures EndsWith(x, y) || EndsWith(y, x)
  {
    var s := w + x;
    if |y| <= |x| {
      assert s[|s| - |y|..] == x[|x| - |y|..];
    } else {
      assert y[|y| - |x|..] == s[|s| - |x|..] == x;
    }
  }

  /** The blank and the code's text that end a status line. */
  function Tail(code: StatusCode): (t: string)
  {
    " " + code.AsStr()
  }

  /** A tail that starts with a blank cannot end a longer string that has no blank where it would start. */
  lemma BlankBoundary(x: string, y: string)
    requires 0 < |y| <= |x| && y[0] == ' ' && x[|x| - |y|] != ' '
    ensures !EndsWith(x, y)
  {
    assert x[|x| - |y|..][0] == x[|x| - |y|];
  }

  /** No code's tail ends another code's. */
  lemma TailsUnrelated(a: StatusCode, b: StatusCode)
    requires a != b
    ensures !EndsWith(Tail(a), Tail(b))
  {
    var x, y := Tail(a), Tail(b);
    assert |x| == |a.AsStr()| + 1 && |y| == |b.AsStr()| + 1 && y[0] == ' ';
    if |y| <= |x| {
      assert x[|x| - |y|] == a.AsStr()[|x| - |y| - 1];
      assert x[|x| - |y|] != ' ';
      BlankBoundary(x, y);
    }
  }

  /** After "HTTP/", a rendered line is recognised by its own code ... */
  lemma OwnCode(version: string, code: StatusCode)
    ensures WithCode(version + Tail(code), code) == Some(Status(code, version))
  {
    var rest, tail := version + Tail(code), Tail(code);
    assert EndsWith(rest, tail);
    assert rest[..|rest| - |tail|] == version;
  }

  /** ... and by no other. */
  lemma OnlyOwnCode(version: string, code: StatusCode, other: StatusCode)
    requires other != code
    ensures WithCode(version + Tail(code), other).None?
  {
    var tail := Tail(code);
    if EndsWith(version + tail, Tail(other)) {
      EndsWithConcat(version, tail, Tail(other));
      TailsUnrelated(code, other);
      TailsUnrelated(other, code);
    }
  }

  /** The text after "HTTP/" in a rendered line is read back as the same status. */
  lemma AfterProtocolRecognises(version: string, code: StatusCode)
    ensures AfterProtocol(version + Tail(code)) == Some(Status(code, version))
  {
    OwnCode(version, code);
    if code != OK { OnlyOwnCode(version, code, OK); }
    if code != Created { OnlyOwnCode(version, code, Created); }
    if code != NotFound { OnlyOwnCode(version, code, NotFound); }
  }

  /** A line that opens with "HTTP/" is read by what follows it. */
  lemma ParseAfterProtocol(rest: string)
    ensures ParseStatusLine("HTTP/" + rest) == AfterProtocol(rest)
  {
    var line := "HTTP/" + rest;
    assert line[..5] == "HTTP/" && line[5..] == rest;
  }

  /** A rendered status line is "HTTP/" followed by the version and the tail. */
  lemma ToStringSplit(s: Status)
    ensures s.ToString() == "HTTP/" + (s.version + Tail(s.code))
  {
  }

  /** Rendering a status line and reading it back gives the same status, for every version. */
  lemma {:induction false} StatusLineRoundTrip(s: Status)
    ensures ParseStatusLine(s.ToString()) == Some(s)
  {
    ToStringSplit(s);
    ParseAfterProtocol(s.version + Tail(s.code));
    AfterProtocolRecognises(s.version, s.code);
  }
}
