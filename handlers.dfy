/**
 * Handlers. A Kotlin handler is any `(Request, Response) -> Any` lambda;
 * here it is built from a few primitive actions, the `plus` operator
 * that runs one handler after another, and the try/catch wrapper that
 * route binding puts around a route when exception handlers exist.
 *
 * `Exec` is the meaning of a handler as a function of the state it
 * touches: the request's cached body and unread input, and the
 * response's dirty flag and unflushed text. `Invoke` runs a handler on
 * a Request and a Response object and is proved to agree with Exec.
 */
module Handlers {
  import opened Wrappers
  import opened OrderedMap
  import opened Failures
  import opened Responses
  import opened Requests

  /** What a primitive handler does. */
  datatype Action =
    | Reply(body: string, status: Option<Status>, headers: Table<string, string>) // rsp.send(body, status, headers); no status means the response's own
    | Echo(status: Option<Status>)  // rsp.send(req.content, status): reads the body, which parseInt may make throw
    | Raise(failure: Failure)       // throw
    | Skip                          // return without touching the response

  datatype Handler =
    | Act(action: Action)
    | Plus(first: Handler, next: Handler)  // `first + next`
    | Guard(inner: Handler)                // the try/catch wrapper of bindRoutes

  /** A handler a user can write: one with no try/catch wrapper inside. */
  predicate Plain(h: Handler)
  {
    match h
    case Act(_) => true
    case Plus(f, n) => Plain(f) && Plain(n)
    case Guard(_) => false
  }

  /** Every handler of the exception table is plain. */
  predicate AllPlain(t: Table<string, Handler>)
  {
    forall i :: 0 <= i < |t| ==> Plain(t[i].1)
  }

  /** Looking up a plain table gives a plain handler. */
  lemma GetPlain(t: Table<string, Handler>, k: string)
    requires AllPlain(t) && Get(t, k).Some?
    ensures Plain(Get(t, k).value)
  {
    var i :| 0 <= i < |t| && t[i] == (k, Get(t, k).value);
  }

  /** The state a handler touches. */
  datatype World = World(cache: Option<string>, input: string, dirty: bool, pending: string)

  datatype Outcome = Done | Raised(failure: Failure)

  datatype Run = Run(world: World, outcome: Outcome)

  /** What a handler reads but does not change: the request's headers and the server's exception table. */
  datatype Ctx = Ctx(headers: Table<string, string>, failures: Table<string, Handler>)

  /** The status `send` uses when none is given. */
  const DefaultStatus: Status := OK

  /** `send(content, status, headers)` on the state. */
  function Sent(w: World, content: string, s: Status, headers: Table<string, string>): World
  {
    w.(dirty := true, pending := w.pending + Emit(w.dirty, s, headers, content))
  }

  /** `req.content` on the state: the body, and the state with the stream read and the body cached. */
  function Consume(headers: Table<string, string>, w: World): (r: (Result<string, Failure>, World))
    ensures Later(w, r.1) && r.1.dirty == w.dirty && r.1.pending == w.pending
  {
    BodyConsumes(headers, w.cache, w.input);
    var b := Body(headers, w.cache, w.input);
    (b.0, w.(cache := b.1, input := b.2))
  }

  function Perform(a: Action, ctx: Ctx, w: World): (r: Run)
    ensures a.Raise? ==> r == Run(w, Raised(a.failure))
    ensures a.Skip? ==> r == Run(w, Done)
  {
    match a
    case Reply(body, s, hs) => Run(Sent(w, body, s.GetOr(DefaultStatus), hs), Done)
    case Echo(s) =>
      var (content, w') := Consume(ctx.headers, w);
      if content.Failure? then Run(w', Raised(content.error))
      else Run(Sent(w', content.value, s.GetOr(DefaultStatus), []), Done)
    case Raise(f) => Run(w, Raised(f))
    case Skip => Run(w, Done)
  }

  /**
   * What running a handler does. `first + next` runs next only when first
   * returns normally. The wrapper catches RuntimeException only: a failure
   * whose exact kind has a handler in the exception table (read when the
   * request is served) runs that handler; any other runtime failure is
   * answered with its message, or "Error", and status 500.
   */
  function Exec(h: Handler, ctx: Ctx, w: World): Run
    requires AllPlain(ctx.failures)
    decreases if Plain(h) then 0 else 1, h
  {
    match h
    case Act(a) => Perform(a, ctx, w)
    case Plus(f, n) =>
      var r := Exec(f, ctx, w);
      if r.outcome.Raised? then r else Exec(n, ctx, r.world)
    case Guard(inner) =>
      var r := Exec(inner, ctx, w);
      if r.outcome.Done? || !r.outcome.failure.runtime then r
      else
        match Get(ctx.failures, r.outcome.failure.kind)
        case Some(fh) =>
          GetPlain(ctx.failures, r.outcome.failure.kind);
          Exec(fh, ctx, r.world)
        case None =>
          Run(Sent(r.world, r.outcome.failure.message.GetOr("Error"), InternalServerError, []), Done)
  }

  // ------------------------------------------------------------ properties

  /** State b follows state a: text is only added, input only consumed, and a cached body stays. */
  predicate Later(a: World, b: World)
  {
    |a.pending| <= |b.pending| && b.pending[..|a.pending|] == a.pending
    && |b.input| <= |a.input| && b.input == a.input[|a.input| - |b.input|..]
    && (a.dirty ==> b.dirty)
    && (a.cache.Some? ==> b.cache == a.cache)
  }

  lemma LaterTransitive(a: World, b: World, c: World)
    requires Later(a, b) && Later(b, c)
    ensures Later(a, c)
  {
    assert c.pending[..|a.pending|] == c.pending[..|b.pending|][..|a.pending|];
    assert c.input == a.input[|a.input| - |b.input|..][|b.input| - |c.input|..];
  }

  lemma SentLater(w: World, content: string, s: Status, headers: Table<string, string>)
    ensures Later(w, Sent(w, content, s, headers))
  {
    var p := Sent(w, content, s, headers).pending;
    assert p[..|w.pending|] == w.pending;
  }

  lemma PerformLater(a: Action, ctx: Ctx, w: World)
    ensures Later(w, Perform(a, ctx, w).world)
  {
    match a
    case Reply(body, s, hs) => SentLater(w, body, s.GetOr(DefaultStatus), hs);
    case Echo(s) => EchoLater(s, ctx, w);
    case Raise(_) =>
    case Skip =>
  }

  lemma EchoLater(s: Option<Status>, ctx: Ctx, w: World)
    ensures Later(w, Perform(Echo(s), ctx, w).world)
  {
    var (content, w') := Consume(ctx.headers, w);
    if content.Success? {
      SentLater(w', content.value, s.GetOr(DefaultStatus), []);
      LaterTransitive(w, w', Sent(w', content.value, s.GetOr(DefaultStatus), []));
    }
  }

  /**
   * A handler never takes back what it wrote: the response text only
   * grows, the input is only consumed from the front, a written header
   * block stays written and a read body stays cached.
   */
  lemma {:induction false} ExecLater(h: Handler, ctx: Ctx, w: World)
    requires AllPlain(ctx.failures)
    ensures Later(w, Exec(h, ctx, w).world)
    decreases if Plain(h) then 0 else 1, h
  {
    match h
    case Act(a) => PerformLater(a, ctx, w);
    case Plus(f, n) =>
      var r := Exec(f, ctx, w);
      ExecLater(f, ctx, w);
      if r.outcome.Done? {
        ExecLater(n, ctx, r.world);
        LaterTransitive(w, r.world, Exec(n, ctx, r.world).world);
      }
    case Guard(inner) =>
      var r := Exec(inner, ctx, w);
      ExecLater(inner, ctx, w);
      if r.outcome.Raised? && r.outcome.failure.runtime {
        match Get(ctx.failures, r.outcome.failure.kind)
        case Some(fh) =>
          GetPlain(ctx.failures, r.outcome.failure.kind);
          ExecLater(fh, ctx, r.world);
          LaterTransitive(w, r.world, Exec(fh, ctx, r.world).world);
        case None =>
          var m := r.outcome.failure.message.GetOr("Error");
          SentLater(r.world, m, InternalServerError, []);
          LaterTransitive(w, r.world, Sent(r.world, m, InternalServerError, []));
      }
  }

  /**
   * The one-shot shape of a response: nothing is written while it is
   * clean, and once it is dirty the text begins with a header block.
   */
  ghost predicate Framed(w: World)
  {
    if w.dirty then exists s: Status, hs: Table<string, string> :: HeaderBlock(s, hs) <= w.pending
    else w.pending == ""
  }

  lemma SentFramed(w: World, content: string, s: Status, headers: Table<string, string>)
    requires Framed(w)
    ensures Framed(Sent(w, content, s, headers))
  {
    var w' := Sent(w, content, s, headers);
    if w.dirty {
      var s0: Status, hs0: Table<string, string> :| HeaderBlock(s0, hs0) <= w.pending;
      SentLater(w, content, s, headers);
      assert HeaderBlock(s0, hs0) <= w'.pending;
    } else {
      assert w'.pending == HeaderBlock(s, headers) + content;
      assert HeaderBlock(s, headers) <= w'.pending;
    }
  }

  lemma PerformFramed(a: Action, ctx: Ctx, w: World)
    requires Framed(w)
    ensures Framed(Perform(a, ctx, w).world)
  {
    match a
    case Reply(body, s, hs) => SentFramed(w, body, s.GetOr(DefaultStatus), hs);
    case Echo(s) =>
      var (content, w') := Consume(ctx.headers, w);
      if content.Success? {
        SentFramed(w', content.value, s.GetOr(DefaultStatus), []);
      }
    case Raise(_) =>
    case Skip =>
  }

  /** Every handler keeps the one-shot shape: once anything is written, the text begins with a whole header block. */
  lemma {:induction false} ExecFramed(h: Handler, ctx: Ctx, w: World)
    requires AllPlain(ctx.failures) && Framed(w)
    ensures Framed(Exec(h, ctx, w).world)
    decreases if Plain(h) then 0 else 1, h
  {
    match h
    case Act(a) => PerformFramed(a, ctx, w);
    case Plus(f, n) =>
      var r := Exec(f, ctx, w);
      ExecFramed(f, ctx, w);
      if r.outcome.Done? {
        ExecFramed(n, ctx, r.world);
      }
    case Guard(inner) =>
      var r := Exec(inner, ctx, w);
      ExecFramed(inner, ctx, w);
      if r.outcome.Raised? && r.outcome.failure.runtime {
        match Get(ctx.failures, r.outcome.failure.kind)
        case Some(fh) =>
          GetPlain(ctx.failures, r.outcome.failure.kind);
          ExecFramed(fh, ctx, r.world);
        case None =>
          SentFramed(r.world, r.outcome.failure.message.GetOr("Error"), InternalServerError, []);
      }
  }

  /** The primitive actions a plain handler performs, in order. */
  function Actions(h: Handler): seq<Action>
    requires Plain(h)
  {
    match h
    case Act(a) => [a]
    case Plus(f, n) => Actions(f) + Actions(n)
  }

  /** Running actions one after another, stopping at the first that raises. */
  function ExecAll(actions: seq<Action>, ctx: Ctx, w: World): Run
  {
    if |actions| == 0 then Run(w, Done)
    else
      var r := Perform(actions[0], ctx, w);
      if r.outcome.Raised? then r else ExecAll(actions[1..], ctx, r.world)
  }

  lemma {:induction false} ExecAllAppend(xs: seq<Action>, ys: seq<Action>, ctx: Ctx, w: World)
    ensures var r := ExecAll(xs, ctx, w);
            ExecAll(xs + ys, ctx, w) == if r.outcome.Raised? then r else ExecAll(ys, ctx, r.world)
    decreases |xs|
  {
    if |xs| == 0 {
      assert xs + ys == ys;
    } else {
      assert (xs + ys)[1..] == xs[1..] + ys;
      var r := Perform(xs[0], ctx, w);
      if r.outcome.Done? {
        ExecAllAppend(xs[1..], ys, ctx, r.world);
      }
    }
  }

  /**
   * `plus` is sequencing: a plain handler does exactly its actions in
   * order, up to the first one that throws.
   */
  lemma {:induction false} ExecFlat(h: Handler, ctx: Ctx, w: World)
    requires Plain(h) && AllPlain(ctx.failures)
    ensures Exec(h, ctx, w) == ExecAll(Actions(h), ctx, w)
  {
    match h
    case Act(a) =>
      assert [a][1..] == [];
    case Plus(f, n) =>
      ExecFlat(f, ctx, w);
      ExecAllAppend(Actions(f), Actions(n), ctx, w);
      var r := Exec(f, ctx, w);
      if r.outcome.Done? {
        ExecFlat(n, ctx, r.world);
      }
  }

  /** How `plus` groups does not matter. */
  lemma PlusAssociates(a: Handler, b: Handler, c: Handler, ctx: Ctx, w: World)
    requires AllPlain(ctx.failures)
    ensures Exec(Plus(Plus(a, b), c), ctx, w) == Exec(Plus(a, Plus(b, c)), ctx, w)
  {
  }

  /** A raised failure skips everything after it. */
  lemma PlusStops(f: Handler, n: Handler, ctx: Ctx, w: World)
    requires AllPlain(ctx.failures) && Exec(f, ctx, w).outcome.Raised?
    ensures Exec(Plus(f, n), ctx, w) == Exec(f, ctx, w)
  {
  }

  /** The wrapper leaves a handler that returns normally, or throws a checked failure, as it is. */
  lemma GuardPasses(inner: Handler, ctx: Ctx, w: World)
    requires AllPlain(ctx.failures)
    requires var o := Exec(inner, ctx, w).outcome; o.Done? || !o.failure.runtime
    ensures Exec(Guard(inner), ctx, w) == Exec(inner, ctx, w)
  {
  }

  /** A runtime failure whose kind has a handler is handed to it, on the state the failure left. */
  lemma GuardHandles(inner: Handler, ctx: Ctx, w: World, fh: Handler)
    requires AllPlain(ctx.failures)
    requires var o := Exec(inner, ctx, w).outcome;
             o.Raised? && o.failure.runtime && Get(ctx.failures, o.failure.kind) == Some(fh)
    ensures Plain(fh)
    ensures Exec(Guard(inner), ctx, w) == Exec(fh, ctx, Exec(inner, ctx, w).world)
  {
    GetPlain(ctx.failures, Exec(inner, ctx, w).outcome.failure.kind);
  }

  /**
   * Any other runtime failure is answered: its message (or "Error") is sent
   * with status 500, which writes a 500 status line only if nothing was sent
   * before. The wrapped handler then returns normally.
   */
  lemma GuardAnswers(inner: Handler, ctx: Ctx, w: World)
    requires AllPlain(ctx.failures)
    requires var o := Exec(inner, ctx, w).outcome;
             o.Raised? && o.failure.runtime && Get(ctx.failures, o.failure.kind).None?
    ensures var r := Exec(inner, ctx, w);
            var text := r.outcome.failure.message.GetOr("Error");
            Exec(Guard(inner), ctx, w).outcome == Done
            && Exec(Guard(inner), ctx, w).world.pending
               == r.world.pending + (if r.world.dirty then "" else HeaderBlock(InternalServerError, [])) + text
  {
  }

  // ------------------------------------------------------ the imperative run

  /** Running one action on the objects. */
  method Do(a: Action, req: Request, rsp: Response) returns (outcome: Outcome)
    requires rsp.status == DefaultStatus
    modifies req, req.stream, rsp
    ensures var r := Perform(a, Ctx(req.headers, []), old(World(req.cache, req.stream.rest, rsp.dirty, rsp.pending)));
            outcome == r.outcome && World(req.cache, req.stream.rest, rsp.dirty, rsp.pending) == r.world
    ensures rsp.wire == old(rsp.wire)
  {
    match a
    case Reply(body, s, hs) =>
      rsp.Send(body, s.GetOr(rsp.status), hs);
      outcome := Done;
    case Echo(s) =>
      var content := req.Content();
      if content.Failure? {
        outcome := Raised(content.error);
      } else {
        rsp.Send(content.value, s.GetOr(rsp.status), []);
        outcome := Done;
      }
    case Raise(f) =>
      outcome := Raised(f);
    case Skip =>
      outcome := Done;
  }

  /** `handler(req, rsp)`, with the exception table as it stands when the request is served. */
  method Invoke(h: Handler, failures: Table<string, Handler>, req: Request, rsp: Response) returns (outcome: Outcome)
    requires AllPlain(failures) && rsp.status == DefaultStatus
    modifies req, req.stream, rsp
    ensures var r := Exec(h, Ctx(req.headers, failures), old(World(req.cache, req.stream.rest, rsp.dirty, rsp.pending)));
            outcome == r.outcome && World(req.cache, req.stream.rest, rsp.dirty, rsp.pending) == r.world
    ensures rsp.wire == old(rsp.wire)
    decreases if Plain(h) then 0 else 1, h
  {
    match h
    case Act(a) =>
      outcome := Do(a, req, rsp);
      PerformIgnoresFailures(a, req.headers, failures, old(World(req.cache, req.stream.rest, rsp.dirty, rsp.pending)));
    case Plus(f, n) =>
      outcome := Invoke(f, failures, req, rsp);
      if outcome.Done? {
        outcome := Invoke(n, failures, req, rsp);
      }
    case Guard(inner) =>
      outcome := Invoke(inner, failures, req, rsp);
      if outcome.Raised? && outcome.failure.runtime {
        var handler := Get(failures, outcome.failure.kind);
        if handler.Some? {
          GetPlain(failures, outcome.failure.kind);
          outcome := Invoke(handler.value, failures, req, rsp);
        } else {
          rsp.Send(outcome.failure.message.GetOr("Error"), InternalServerError, []);
          outcome := Done;
        }
      }
  }

  /** A primitive action does not look at the exception table. */
  lemma PerformIgnoresFailures(a: Action, headers: Table<string, string>, failures: Table<string, Handler>, w: World)
    ensures Perform(a, Ctx(headers, failures), w) == Perform(a, Ctx(headers, []), w)
  {
  }
}
