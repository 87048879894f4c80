/** The route table: exact paths mapped to handlers, with a 404 for everything else. */
module HttpRouter {
  import opened HttpError
  import opened HttpStatus
  import opened HttpResponse

  /** A handler takes no arguments and yields a response or an error. */
  type Handler = () -> Result<Response>

  /** What an unrouted path gets: status 404 with version "1.1", no headers and no body. */
  function NotFoundResponse(): (r: Response)
    ensures r.ToString() == "HTTP/1.1 404 Not Found\r\n\r\n"
  {
    var r := Response(Status(NotFound, "1.1"), [], None);
    assert r.status.ToString() == "HTTP/1.1 404 Not Found";
    r
  }

  class Router {
    /** Keyed by the whole path, compared character by character. */
    var routes: map<string, Handler>

    /** A router with no routes: every path falls through to the 404. */
    constructor ()
      ensures routes == map[]
      ensures forall path :: HandleRequest(path) == Ok(NotFoundResponse())
    {
      routes := map[];
    }

    /**
     * Registers `handler` for `path`. A handler already registered for `path` is replaced;
     * every other path keeps its entry.
     */
    method AddRoute(path: string, handler: Handler)
      modifies this
      ensures routes == old(routes)[path := handler]
      ensures HandleRequest(path) == handler()
      ensures forall p :: p != path ==> HandleRequest(p) == old(HandleRequest(p))
    {
      routes := routes[path := handler];
    }

    /**
     * Runs the handler registered for exactly `path` and returns its result unaltered;
     * a path with no handler gets the 404 response, never an error.
     */
    function HandleRequest(path: string): (r: Result<Response>)
      reads this
      ensures path in routes ==> r == routes[path]()
      ensures path !in routes ==> r.Ok? && r.value.status == Status(NotFound, "1.1")
      ensures path !in routes ==> r.value.headers == [] && r.value.payload.None?
      ensures r.Err? ==> path in routes && routes[path]().Err?
    {
      if path in routes then routes[path]() else Ok(NotFoundResponse())
    }
  }

  /** An unrouted path renders as the bare 404 status line. */
  lemma UnroutedRendering(router: Router, path: string)
    requires path !in router.routes
    ensures router.HandleRequest(path).Ok?
    ensures router.HandleRequest(path).value.ToString() == "HTTP/1.1 404 Not Found\r\n\r\n"
  {
  }

  /**
   * Paths are not patterns: a route written with a `{name}` segment matches only that
   * literal text, never a path that fills the segment in.
   */
  lemma NoPlaceholderMatching(router: Router)
    requires router.routes.Keys == {"/echo/{message}"}
    ensures router.HandleRequest("/echo/abc") == Ok(NotFoundResponse())
  {
    assert "/echo/abc" != "/echo/{message}";
  }

  /** An example registration: the last registration for a path wins and unregistered paths get the 404. */
  method RegistrationExample(root: Handler, echo: Handler, replacement: Handler)
  {
    var router := new Router();
    router.AddRoute("/", root);
    router.AddRoute("/echo/{message}", echo);
    assert router.HandleRequest("/") == root();
    router.AddRoute("/", replacement);
    assert router.HandleRequest("/") == replacement();
    assert router.HandleRequest("/echo/{message}") == echo();
    assert router.HandleRequest("/echo/abc") == Ok(NotFoundResponse());
    assert router.HandleRequest("/user-agent").value.ToString() == "HTTP/1.1 404 Not Found\r\n\r\n";
  }
}
