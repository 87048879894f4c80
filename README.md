# HTTP/1.1 server core: protocol values and route table

A Dafny model of the value layer and the router of a small HTTP/1.1 server written in
Rust (an early snapshot of the project). It covers:

- `HTTPMethod::from_str`: parses a request-line token into one of four methods (`HttpMethod`).
- `HTTPStatusCode::as_str` and `HTTPStatus::to_string`: the closed four-code status table and the
  status line `HTTP/<version> <code> <reason>` (`HttpStatus`).
- `HTTPHeader::to_string`: the header line `name: value` (`HttpHeader`).
- `HTTPPayload::to_string` and `content_length`: a text body and its length in bytes (`HttpPayload`).
- `HTTPResponse::to_string`: as written in this snapshot, only the status line followed by two
  CRLFs. Headers and payload are stored but never rendered (`HttpResponse`).
- `HTTPRouter`: a table from exact path to handler, `add_route` (insert, last one wins) and
  `handle_request` (run the handler, or answer 404) (`HttpRouter`). The router is a class
  whose `routes` map field `AddRoute` reassigns; `HandleRequest` reads it.
- The crate's three-variant `Error` and `Result` (`HttpError`).

The Rust constructors `new` of `HTTPStatus`, `HTTPHeader`, `HTTPPayload` and `HTTPResponse` only
store their arguments. They are the Dafny datatype constructors, which store their arguments
unchanged by definition.

Strings are `seq<char>`, where a `char` is a Unicode scalar value. Rust's `String::len` counts UTF-8
bytes, so `Text.Utf8Len` gives the byte count and the byte-length lemmas are stated with it.

Three readers stand beside the renderers as their inverses: `SplitHeader` splits at the first
`": "`, `ParseStatusLine` reads a status line, and `FirstLine` takes the text up to the first
CRLF. They are reference definitions for the round-trip lemmas, not code of the server.

The router matches paths verbatim (`src/http/router.rs:25`), so the `{message}` and `{file}`
routes that `src/main.rs` registers match only their literal text. `src/http/response.rs:23`
writes no headers and no body, so the `Content-Length` headers `src/main.rs` builds never reach
the wire. There are no per-method routes, no gzip and no status built from an integer. `src/http/router.rs:28`
names the variant `HTTPStatusCode::NOT_FOUND`, but the enum declares `NotFound`
(`src/http/status.rs:6`), so this snapshot does not compile as shown. The model uses `NotFound`,
which is evidently what was meant.

## Model

| member | source | states |
|---|---|---|
| `HttpError.Error.Message` | src/http/error.rs:4-11 | each error has a non-empty message text |
| `HttpError.MessageInjective` | src/http/error.rs:5-10 | distinct errors have distinct messages |
| `HttpMethod.FromStr` | src/http/method.rs:12-19 | the result is `Ok` exactly when the input is one of "GET", "POST", "PUT", "DELETE"; an `Ok` method's spelling is the input; every failure is `InvalidMethod` |
| `HttpMethod.TokenRoundTrip` | src/http/method.rs:14-17 | each method's spelling parses back to that method |
| `HttpMethod.FromStrInjective` | src/http/method.rs:14-17 | two inputs that parse to the same method are equal, so each method has one accepted spelling |
| `HttpMethod.NearMissesRejected` | src/http/method.rs:18 | "get", "", " GET", "GET " and "Post" are refused with `InvalidMethod`: matching is exact and case-sensitive |
| `HttpStatus.StatusCode.Code` | src/http/status.rs:3-8 | each variant stands for a three-digit code |
| `HttpStatus.StatusCode.AsStr` | src/http/status.rs:11-18 | the code, a blank and the reason phrase, at least six characters long; the rest of its contract is carried by `AsStrLayout` (digits of the code, then a blank), `AsStrSingleLine` and `AsStrInjective` |
| `HttpStatus.AsStrLayout` | src/http/status.rs:11-17 | each code's text opens with the three decimal digits of the variant's code, most significant first, and a blank |
| `HttpStatus.AsStrSingleLine` | src/http/status.rs:11-17 | no code's text holds a CR or an LF |
| `HttpStatus.AsStrInjective` | src/http/status.rs:13-16 | distinct codes render differently |
| `HttpStatus.Status.ToString` | src/http/status.rs:32-34 | the status line, 6 characters longer than the version and the code's text together; the rest of its contract is carried by `StatusLineLayout` (its layout) and `StatusLineRoundTrip` (`ParseStatusLine` reads it back to the same status) |
| `HttpStatus.StatusLineLayout` | src/http/status.rs:32-34 | the line is "HTTP/", then the version, a blank and the code's text, and its length is 6 + the version's + the code text's |
| `HttpStatus.StatusLineByteLength` | src/http/status.rs:33 | the line's byte length is 6 + the version's byte length + the code text's byte length |
| `HttpStatus.ParseStatusLine` | src/http/status.rs:33 | a status line read back renders to exactly the line read |
| `HttpStatus.StatusLineRoundTrip` | src/http/status.rs:28-34 | reading back a rendered status line gives the same code and version, for every version |
| `HttpHeader.Header.ToString` | src/http/header.rs:13-15 | the line is the name, then ": ", then the value, and its length is the name's + 2 + the value's |
| `HttpHeader.SplitHeader` | src/http/header.rs:14 | a split line renders back to itself with a name free of ": "; a line is refused exactly when it has no ": " |
| `HttpHeader.SeparatorAfterName` | src/http/header.rs:14 | when the name holds no ": ", the first ": " of the line is the one right after the name |
| `HttpHeader.HeaderRoundTrip` | src/http/header.rs:9-15 | a header whose name has no ": " splits back into the same name and value |
| `HttpHeader.HeaderByteLength` | src/http/header.rs:14 | the line's byte length is the name's + 2 + the value's |
| `HttpPayload.Payload.ContentLength` | src/http/payload.rs:17-19 | the length lies between the character count and four times it, equals the character count exactly for ASCII content, and is 0 exactly for empty content |
| `HttpPayload.Payload.ToString` | src/http/payload.rs:13-15 | the content as text, whose byte length is what `content_length` reports; the rest of its contract is carried by `PayloadAccessors` (it is the content given to `new`, and `content_length` is its byte length) |
| `HttpPayload.PayloadAccessors` | src/http/payload.rs:9-19 | `to_string` returns the content given to `new`, and `content_length` is the byte length of that text |
| `HttpPayload.EmptyPayload` | src/http/payload.rs:9-19 | an empty payload gives "" and length 0 |
| `HttpPayload.ContentLengthAppend` | src/http/payload.rs:17-19 | the length of joined content is the sum of the lengths |
| `HttpPayload.NonAsciiCountsBytes` | src/http/payload.rs:17-19 | "é" has length 2: the length counts bytes, not characters |
| `Text.Utf8Len` | src/http/payload.rs:18 | the UTF-8 byte count of a string lies between its length and four times it, and equals its length exactly when it is ASCII |
| `Text.Utf8LenAppend` | src/http/payload.rs:18 | the byte count of a concatenation is the sum of the byte counts |
| `HttpResponse.Response.ToString` | src/http/response.rs:21-24 | the response text, four characters longer than the status line; the rest of its contract is carried by `ResponseLayout` (the status line, then CR LF CR LF) and `StatusLineRecovered` (the first line reads back as the status) |
| `HttpResponse.ResponseLayout` | src/http/response.rs:21-24 | the text is the status line followed by "\r\n\r\n", four characters longer than the status line |
| `HttpResponse.ResponseFraming` | src/http/response.rs:23 | every rendered response starts with "HTTP/" and ends with "\r\n\r\n" |
| `HttpResponse.ToStringIgnoresHeadersAndPayload` | src/http/response.rs:22-23 | two responses with the same status render identically whatever their headers and payloads |
| `HttpResponse.ResponseByteLength` | src/http/response.rs:23 | the byte length is the status line's byte length + 4 |
| `HttpResponse.FirstLine` | src/http/response.rs:23 | there is no first line exactly when the text has no CRLF; otherwise the line holds no CRLF, and the line followed by CRLF starts the input |
| `HttpResponse.StatusLineRecovered` | src/http/response.rs:23 | if the version has no CR, the text before the first CRLF is exactly the status line, and it reads back as the same status |
| `HttpRouter.NotFoundResponse` | src/http/router.rs:28 | the fallback response renders as "HTTP/1.1 404 Not Found\r\n\r\n" |
| `HttpRouter.Router.constructor` | src/http/router.rs:16-18 | the table starts empty, so every path gets the 404 response |
| `HttpRouter.Router.AddRoute` | src/http/router.rs:20-22 | the table afterwards is the old one with `path` mapped to the new handler; that path now runs the new handler (the last registration wins), and every other path answers as before |
| `HttpRouter.Router.HandleRequest` | src/http/router.rs:24-30 | a registered path returns its handler's result unaltered, `Ok` or `Err`; an unregistered path returns `Ok` with status 404, version "1.1", no headers and no payload; an `Err` can only come from a handler |
| `HttpRouter.UnroutedRendering` | src/http/router.rs:27-29 | an unregistered path yields a response rendering as "HTTP/1.1 404 Not Found\r\n\r\n" |
| `HttpRouter.NoPlaceholderMatching` | src/http/router.rs:25 | a route "/echo/{message}" does not match "/echo/abc": lookup is by the whole path |

## Left out

- `src/main.rs` is not part of this model: the TCP accept loop and task spawning, argument parsing and the file read in the files handler are I/O, concurrency or library calls. Its handler closures take `(params, request)` and call `get_header`, so they do not fit the `Fn()` handler type of `src/http/router.rs:9` and cannot be modelled against these modules.
- `src/http/request.rs` is not part of this model: `from_stream` reads nothing and returns an empty value.
- `HTTPResponse::send` is a socket write and is left out.
- `handle_request`'s `stream` argument is never read and is dropped.
- A handler is modelled as a total function value `() -> Result<Response>`. A real handler may have side effects (the files handler reads the disk). The model keeps only the result it returns.
- The `Display` messages of `Error` come from a derive in the source. `Error.Message` writes them out.
- `HttpPayload.Payload.ContentLength`: the result is an unbounded `nat`; Rust's `usize` bound on string length is not modelled.
- The iteration order of the Rust `HashMap` is never observed by this code, so `routes` is a Dafny `map`.
