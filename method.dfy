/** Request methods: a closed set of four tokens. */
module HttpMethod {
  import opened HttpError

  datatype Method = GET | POST | PUT | DELETE {

    /** The one spelling of this method on the request line (upper case, as RFC 9110 section 9 writes it). */
    function Token(): (t: string)
      ensures 3 <= |t| <= 6
    {
      match this
      case GET => "GET"
      case POST => "POST"
      case PUT => "PUT"
      case DELETE => "DELETE"
    }
  }

  /** The request-line tokens the server recognises, exactly as written. */
  const Accepted: set<string> := {"GET", "POST", "PUT", "DELETE"}

  /**
   * Parses a method token. Matching is exact and case-sensitive; every other string,
   * including the empty one, is refused with `InvalidMethod` and no other error.
   */
  function FromStr(s: string): (r: Result<Method>)
    ensures r.Ok? <==> s in Accepted
    ensures r.Ok? ==> r.value.Token() == s
    ensures r.Err? ==> r.error == InvalidMethod
  {
    if s == "GET" then Ok(GET)
    else if s == "POST" then Ok(POST)
    else if s == "PUT" then Ok(PUT)
    else if s == "DELETE" then Ok(DELETE)
    else Err(InvalidMethod)
  }

  /** Every method's token parses back to that method. */
  lemma TokenRoundTrip(m: Method)
    ensures FromStr(m.Token()) == Ok(m)
  {
  }

  /** Two strings that parse to the same method are the same string. */
  lemma FromStrInjective(a: string, b: string)
    requires FromStr(a).Ok? && FromStr(a) == FromStr(b)
    ensures a == b
  {
  }

  /** Near misses are refused: lower case, empty, surrounding blanks. */
  lemma NearMissesRejected()
    ensures FromStr("get") == Err(InvalidMethod)
    ensures FromStr("") == Err(InvalidMethod)
    ensures FromStr(" GET") == Err(InvalidMethod)
    ensures FromStr("GET ") == Err(InvalidMethod)
    ensures FromStr("Post") == Err(InvalidMethod)
  {
  }
}
