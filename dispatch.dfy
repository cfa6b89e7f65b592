/**
 * One connection, end to end: `Client.run` reads a request, asks the
 * server's `match` for the bound handler, runs it on a fresh Response and
 * flushes. `Exchange` is the meaning of one connection as a function of
 * the route tables, the exception table and the text the client sent;
 * the methods `ReadRequest` and `Serve` do the same work on Reader,
 * Request and Response objects and are proved to agree with it.
 *
 * Any exception that escapes the handler, the request parsing or the
 * route resolution ends the client's thread before `flush`: nothing
 * reaches the connection and it is not closed.
 */
module Dispatch {
  import opened Wrappers
  import opened OrderedMap
  import opened Failures
  import opened Text
  import opened Wire
  import opened Requests
  import opened Responses
  import opened Handlers
  import opened Routing

  /** Why a connection got no answer. */
  datatype Abort =
    | Unparsable(error: ParseError)   // the request line, a header line or the query could not be read
    | BadPattern(pattern: string)     // route resolution met a pattern that does not compile
    | Uncaught(failure: Failure)      // the handler threw and nothing caught it

  datatype Answer = Answered(wire: string) | Abandoned(reason: Abort)

  /** How a handler's run ends the connection: flushed on a normal return, abandoned on a failure. */
  function Finish(r: Run): (a: Answer)
    ensures a.Answered? <==> r.outcome.Done?
    ensures a.Answered? ==> a.wire == r.world.pending
  {
    if r.outcome.Raised? then Abandoned(Uncaught(r.outcome.failure)) else Answered(r.world.pending)
  }

  /** The world a handler starts in: nothing cached, the input after the header block, a clean response. */
  function Fresh(body: string): World
  {
    World(None, body, false, "")
  }

  /** What one connection whose client sent `input` receives. */
  function Exchange(routes: map<Method, Table<string, Handler>>, failures: Table<string, Handler>, rx: Regex, input: string): Answer
    requires forall m :: m in routes
    requires AllPlain(failures)
  {
    match ParseHead(input)
    case Failure(e) => Abandoned(Unparsable(e))
    case Success((head, body)) =>
      match Query(head.raw)
      case Failure(e) => Abandoned(Unparsable(e))
      case Success(_) =>
        match Match(routes[head.verb], rx, Url(head.raw))
        case Failure(p) => Abandoned(BadPattern(p))
        case Success(h) => Finish(Exec(h, Ctx(head.headers, failures), Fresh(body)))
  }

  // ---------------------------------------------------------- the methods

  /**
   * `Client.read`: the request line, then header lines up to a blank line
   * or the end of the input, then the Request constructor, which builds
   * the query. On success the reader is left at the first character of
   * the body.
   */
  method ReadRequest(reader: Reader) returns (r: Result<Request, ParseError>)
    modifies reader
    ensures ParseHead(old(reader.rest)).Failure? ==> r == Failure(ParseHead(old(reader.rest)).error)
    ensures ParseHead(old(reader.rest)).Success? ==>
              var (head, body) := ParseHead(old(reader.rest)).value;
              match Query(head.raw)
              case Failure(e) => r == Failure(e)
              case Success(q) =>
                && r.Success? && fresh(r.value)
                && r.value.verb == head.verb && r.value.raw == head.raw && r.value.version == head.version
                && r.value.headers == head.headers && r.value.url == Url(head.raw) && r.value.query == q
                && r.value.stream == reader && r.value.cache == None && reader.rest == body
  {
    ghost var input := reader.rest;
    var first := reader.ReadLine();
    if first.None? {
      return Failure(NoRequestLine);
    }
    var parsed := RequestLine(first.value);
    if parsed.Failure? {
      return Failure(parsed.error);
    }
    var (m, raw, version) := parsed.value;
    ghost var start := reader.rest;
    var headers: Table<string, string> := [];
    var done := false;
    while !done
      invariant !done ==> HeadersFrom(headers, reader.rest) == HeadersFrom([], start)
      invariant done ==> HeadersFrom([], start) == Success((headers, reader.rest))
      decreases |reader.rest| + (if done then 0 else 1)
    {
      var line := reader.ReadLine();
      if line.None? || IsBlank(line.value) {
        done := true;
      } else {
        var field := HeaderField(line.value);
        if field.None? {
          return Failure(MalformedHeader(line.value));
        }
        headers := Put(headers, field.value.0, field.value.1);
      }
    }
    var query := Query(raw);
    if query.Failure? {
      return Failure(query.error);
    }
    var req := new Request(m, raw, version, headers, reader);
    return Success(req);
  }

  /**
   * `Client.run` with the server's `match`: read, resolve, run the handler
   * on a fresh Response, flush. The answer is exactly the one Exchange
   * gives for the server's current tables.
   */
  method Serve(server: Server, rx: Regex, input: string) returns (answer: Answer)
    requires server.Valid()
    ensures answer == Exchange(server.bindings, server.exception, rx, input)
  {
    var reader := new Reader(input);
    var read := ReadRequest(reader);
    if read.Failure? {
      return Abandoned(Unparsable(read.error));
    }
    var req := read.value;
    var rsp := new Response();
    var handler := Match(server.bindings[req.verb], rx, req.url);
    if handler.Failure? {
      return Abandoned(BadPattern(handler.error));
    }
    var outcome := Invoke(handler.value, server.exception, req, rsp);
    if outcome.Raised? {
      return Abandoned(Uncaught(outcome.failure));
    }
    rsp.Flush();
    assert rsp.wire == "" + rsp.wire;
    return Answered(rsp.wire);
  }

  // ------------------------------------------------------------ properties

  /**
   * A request written the way a client writes it is served by the route
   * its method's table resolves for its url, running with the headers
   * the client sent and the text after the header block as its body.
   */
  lemma ExchangeRoutes(routes: map<Method, Table<string, Handler>>, failures: Table<string, Handler>, rx: Regex,
                       m: Method, raw: string, version: string, fields: seq<(string, string)>, eol: string, body: string)
    requires forall k :: k in routes
    requires AllPlain(failures)
    requires ' ' !in raw && NoBreak(raw) && ' ' !in version && NoBreak(version)
    requires forall i :: 0 <= i < |fields| ==> WellFormedField(fields[i])
    requires EndsBefore(eol, body)
    requires Query(raw).Success?
    ensures Exchange(routes, failures, rx, HeadText(m, raw, version, fields, eol) + body)
              == match Match(routes[m], rx, Url(raw))
                 case Failure(p) => Abandoned(BadPattern(p))
                 case Success(h) => Finish(Exec(h, Ctx(PutAll([], fields), failures), Fresh(body)))
  {
    ParseHeadRoundTrip(m, raw, version, fields, eol, body);
  }

  /**
   * A target with no '=' (every target without a query, such as `/hello`)
   * gets no answer at all, whatever the routes: the Request cannot be built.
   */
  lemma ExchangeNeedsQuery(routes: map<Method, Table<string, Handler>>, failures: Table<string, Handler>, rx: Regex,
                           m: Method, raw: string, version: string, fields: seq<(string, string)>, eol: string, body: string)
    requires forall k :: k in routes
    requires AllPlain(failures)
    requires ' ' !in raw && NoBreak(raw) && ' ' !in version && NoBreak(version)
    requires forall i :: 0 <= i < |fields| ==> WellFormedField(fields[i])
    requires EndsBefore(eol, body)
    requires '=' !in raw
    ensures Exchange(routes, failures, rx, HeadText(m, raw, version, fields, eol) + body).Abandoned?
    ensures Exchange(routes, failures, rx, HeadText(m, raw, version, fields, eol) + body).reason.Unparsable?
  {
    ParseHeadRoundTrip(m, raw, version, fields, eol, body);
    QueryNeedsEquals(raw);
  }

  /** Every answer is empty or starts with a whole header block, as one send writes it. */
  lemma AnswerFramed(routes: map<Method, Table<string, Handler>>, failures: Table<string, Handler>, rx: Regex, input: string)
    requires forall m :: m in routes
    requires AllPlain(failures)
    requires Exchange(routes, failures, rx, input).Answered?
    ensures var w := Exchange(routes, failures, rx, input).wire;
            w == "" || exists s: Status, hs: Table<string, string> :: HeaderBlock(s, hs) <= w
  {
    var (head, body) := ParseHead(input).value;
    var h := Match(routes[head.verb], rx, Url(head.raw)).value;
    ExecFramed(h, Ctx(head.headers, failures), Fresh(body));
  }

  /** The two status lines the server writes on its own, spelled out. */
  lemma OwnStatusLines()
    ensures StatusLine(NotFound) == "HTTP/1.1 404 Not Found\n"
    ensures StatusLine(InternalServerError) == "HTTP/1.1 500 Internal Server Error\n"
  {
    Decimal404();
    Decimal500();
  }

  lemma Decimal404()
    ensures Decimal(404) == "404"
  {
    assert Decimal(4) == "4";
    assert Decimal(40) == Decimal(4) + ['0'];
    assert Decimal(404) == Decimal(40) + ['4'];
  }

  lemma Decimal500()
    ensures Decimal(500) == "500"
  {
    assert Decimal(5) == "5";
    assert Decimal(50) == Decimal(5) + ['0'];
    assert Decimal(500) == Decimal(50) + ['0'];
  }

  /** What a send with no headers leaves in a clean, empty response. */
  lemma FirstSend(w: World, content: string, s: Status)
    requires !w.dirty && w.pending == ""
    ensures Sent(w, content, s, []).pending == StatusLine(s) + "\n" + content
  {
    assert HeaderBlock(s, []) == StatusLine(s) + "\n";
  }

  /** The fallback handler answers with a 404 status line, an empty line and "Resource Not Found". */
  lemma NotFoundAnswer(ctx: Ctx, body: string)
    requires AllPlain(ctx.failures)
    ensures Finish(Exec(NotFoundHandler, ctx, Fresh(body))) == Answered("HTTP/1.1 404 Not Found\n\nResource Not Found")
  {
    var w := Fresh(body);
    assert Exec(NotFoundHandler, ctx, w) == Run(Sent(w, "Resource Not Found", NotFound, []), Done);
    FirstSend(w, "Resource Not Found", NotFound);
    OwnStatusLines();
    var p := Sent(w, "Resource Not Found", NotFound, []).pending;
    assert p == "HTTP/1.1 404 Not Found\n" + "\n" + "Resource Not Found";
    NotFoundText();
    assert Exec(NotFoundHandler, ctx, w).outcome.Done?;
    assert Exec(NotFoundHandler, ctx, w).world.pending == p;
  }

  lemma NotFoundText()
    ensures "HTTP/1.1 404 Not Found\n" + "\n" + "Resource Not Found" == "HTTP/1.1 404 Not Found\n\nResource Not Found"
  {
  }

  /**
   * A request whose url is no route key and matches no route pattern is
   * answered "Resource Not Found" with status 404.
   */
  lemma ExchangeNotFound(routes: map<Method, Table<string, Handler>>, failures: Table<string, Handler>, rx: Regex,
                         m: Method, raw: string, version: string, fields: seq<(string, string)>, eol: string, body: string)
    requires forall k :: k in routes
    requires AllPlain(failures)
    requires ' ' !in raw && NoBreak(raw) && ' ' !in version && NoBreak(version)
    requires forall i :: 0 <= i < |fields| ==> WellFormedField(fields[i])
    requires EndsBefore(eol, body)
    requires Query(raw).Success?
    requires Url(raw) !in Keys(routes[m])
    requires forall j :: 0 <= j < |routes[m]| ==> rx.compiles(routes[m][j].0)
    requires forall j :: 0 <= j < |routes[m]| ==> !rx.matches(routes[m][j].0, Url(raw))
    ensures Exchange(routes, failures, rx, HeadText(m, raw, version, fields, eol) + body)
              == Answered("HTTP/1.1 404 Not Found\n\nResource Not Found")
  {
    ExchangeRoutes(routes, failures, rx, m, raw, version, fields, eol, body);
    MatchFallback(routes[m], rx, Url(raw));
    NotFoundAnswer(Ctx(PutAll([], fields), failures), body);
  }

  /** A handler that writes nothing sends nothing: the client receives no status line at all. */
  lemma SilentAnswer(ctx: Ctx, body: string)
    requires AllPlain(ctx.failures)
    ensures Finish(Exec(Act(Skip), ctx, Fresh(body))) == Answered("")
  {
  }

  /**
   * A wrapped route that throws a runtime failure of a kind with no
   * exception handler, before writing anything, is answered with a 500
   * status line and the failure's message, or "Error" when it has none.
   */
  lemma UnhandledAnswer(route: Handler, ctx: Ctx, body: string)
    requires AllPlain(ctx.failures)
    requires Exec(route, ctx, Fresh(body)).outcome.Raised?
    requires Exec(route, ctx, Fresh(body)).outcome.failure.runtime
    requires Get(ctx.failures, Exec(route, ctx, Fresh(body)).outcome.failure.kind).None?
    requires !Exec(route, ctx, Fresh(body)).world.dirty
    ensures Finish(Exec(Guard(route), ctx, Fresh(body)))
              == Answered("HTTP/1.1 500 Internal Server Error\n\n"
                          + Exec(route, ctx, Fresh(body)).outcome.failure.message.GetOr("Error"))
  {
    var r := Exec(route, ctx, Fresh(body));
    ExecFramed(route, ctx, Fresh(body));
    OwnStatusLines();
    FirstSend(r.world, r.outcome.failure.message.GetOr("Error"), InternalServerError);
  }
}
