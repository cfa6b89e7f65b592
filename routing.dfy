/**
 * The Server's tables and what it does with them: registration, the
 * bind-time composition of hooks around every route, and the per-request
 * choice of a route.
 *
 * Java's regular expressions are not modelled: a Regex value tells which
 * patterns compile and which texts a pattern matches in full.
 */
module Routing {
  import opened Wrappers
  import opened OrderedMap
  import opened Failures
  import opened Text
  import opened Wire
  import opened Responses
  import opened Handlers

  /** `String.toRegex()` and `Regex.matches(text)`: whether a pattern compiles, and whether it matches all of a text. */
  datatype Regex = Regex(compiles: string -> bool, matches: (string, string) -> bool)

  /** The answer when no route applies. */
  const NotFoundHandler: Handler := Act(Reply("Resource Not Found", Some(NotFound), []))

  // -------------------------------------------------------------- match

  /** The first pattern that does not compile, in table order: the one whose PatternSyntaxException escapes. */
  function FirstBad(t: Table<string, Handler>, rx: Regex): (r: Option<string>)
    ensures r.Some? ==> r.value in Keys(t) && !rx.compiles(r.value)
  {
    if |t| == 0 then None
    else if !rx.compiles(t[0].0) then Some(t[0].0)
    else FirstBad(t[1..], rx)
  }

  /** There is no bad pattern exactly when every pattern of the table compiles. */
  lemma {:induction false} FirstBadNone(t: Table<string, Handler>, rx: Regex)
    ensures FirstBad(t, rx).None? <==> forall i :: 0 <= i < |t| ==> rx.compiles(t[i].0)
  {
    if |t| > 0 {
      FirstBadNone(t[1..], rx);
      assert forall i :: 1 <= i < |t| ==> t[i] == t[1..][i - 1];
    }
  }

  /** The bad pattern reported is the first one: every pattern before its entry compiles. */
  lemma {:induction false} FirstBadFirst(t: Table<string, Handler>, rx: Regex)
    requires FirstBad(t, rx).Some?
    ensures exists i :: 0 <= i < |t| && t[i].0 == FirstBad(t, rx).value && forall j :: 0 <= j < i ==> rx.compiles(t[j].0)
  {
    if rx.compiles(t[0].0) {
      var u := t[1..];
      assert FirstBad(t, rx) == FirstBad(u, rx);
      FirstBadFirst(u, rx);
      var i :| 0 <= i < |u| && u[i].0 == FirstBad(u, rx).value && forall j :: 0 <= j < i ==> rx.compiles(u[j].0);
      assert t[i + 1] == u[i];
      forall j | 0 <= j < i + 1
        ensures rx.compiles(t[j].0)
      {
        if j > 0 {
          assert t[j] == u[j - 1];
        }
      }
    } else {
      assert t[0].0 == FirstBad(t, rx).value;
    }
  }

  /** The index of the first entry whose pattern matches the url, or |t| when none does. */
  function FirstMatching(t: Table<string, Handler>, rx: Regex, url: string): (i: nat)
    ensures i <= |t|
  {
    if |t| == 0 || rx.matches(t[0].0, url) then 0
    else 1 + FirstMatching(t[1..], rx, url)
  }

  /** The entry found matches the url, and no entry before it does. */
  lemma {:induction false} FirstMatchingFirst(t: Table<string, Handler>, rx: Regex, url: string)
    ensures var i := FirstMatching(t, rx, url);
            (forall j :: 0 <= j < i ==> !rx.matches(t[j].0, url)) && (i < |t| ==> rx.matches(t[i].0, url))
  {
    if |t| > 0 && !rx.matches(t[0].0, url) {
      FirstMatchingFirst(t[1..], rx, url);
      assert forall j :: 1 <= j < |t| ==> t[j] == t[1..][j - 1];
    }
  }

  /**
   * `match(req)` on the table of the request's method: the handler stored
   * under the url itself; otherwise, once every pattern has compiled, the
   * first one (in registration order) matching the url; otherwise the
   * 404 fallback. A pattern that fails to compile is the error.
   */
  function Match(routes: Table<string, Handler>, rx: Regex, url: string): Result<Handler, string>
  {
    match Get(routes, url)
    case Some(h) => Success(h)
    case None =>
      match FirstBad(routes, rx)
      case Some(p) => Failure(p)
      case None =>
        var i := FirstMatching(routes, rx, url);
        if i < |routes| then Success(routes[i].1) else Success(NotFoundHandler)
  }

  /** An exact key wins over every pattern, whether or not the patterns compile. */
  lemma MatchExact(routes: Table<string, Handler>, rx: Regex, url: string, i: nat)
    requires Distinct(routes) && i < |routes| && routes[i].0 == url
    ensures Match(routes, rx, url) == Success(routes[i].1)
  {
    DistinctGet(routes, i);
  }

  /** Without an exact key, the first pattern that matches the url is chosen. */
  lemma MatchPattern(routes: Table<string, Handler>, rx: Regex, url: string, i: nat)
    requires url !in Keys(routes)
    requires i < |routes| && rx.matches(routes[i].0, url)
    requires forall j :: 0 <= j < |routes| ==> rx.compiles(routes[j].0) && (j < i ==> !rx.matches(routes[j].0, url))
    ensures Match(routes, rx, url) == Success(routes[i].1)
  {
    FirstBadNone(routes, rx);
    FirstMatchingAt(routes, rx, url, i);
  }

  /** Without an exact key and with every pattern compiling, resolution goes by the first matching pattern. */
  lemma MatchUnkeyed(routes: Table<string, Handler>, rx: Regex, url: string)
    requires url !in Keys(routes)
    requires forall j :: 0 <= j < |routes| ==> rx.compiles(routes[j].0)
    ensures var i := FirstMatching(routes, rx, url);
            Match(routes, rx, url) == if i < |routes| then Success(routes[i].1) else Success(NotFoundHandler)
  {
    FirstBadNone(routes, rx);
  }

  lemma FirstMatchingAt(t: Table<string, Handler>, rx: Regex, url: string, i: nat)
    requires i < |t| && rx.matches(t[i].0, url)
    requires forall j :: 0 <= j < i ==> !rx.matches(t[j].0, url)
    ensures FirstMatching(t, rx, url) == i
  {
    FirstMatchingFirst(t, rx, url);
  }

  /** Without an exact key or a matching pattern, the 404 fallback answers. */
  lemma MatchFallback(routes: Table<string, Handler>, rx: Regex, url: string)
    requires url !in Keys(routes)
    requires forall j :: 0 <= j < |routes| ==> rx.compiles(routes[j].0)
    requires forall j :: 0 <= j < |routes| ==> !rx.matches(routes[j].0, url)
    ensures Match(routes, rx, url) == Success(NotFoundHandler)
  {
    FirstBadNone(routes, rx);
    FirstMatchingNone(routes, rx, url);
  }

  /** When no entry matches, the search runs off the end of the table. */
  lemma FirstMatchingNone(t: Table<string, Handler>, rx: Regex, url: string)
    requires forall j :: 0 <= j < |t| ==> !rx.matches(t[j].0, url)
    ensures FirstMatching(t, rx, url) == |t|
  {
    FirstMatchingFirst(t, rx, url);
  }

  /** Resolution fails exactly when the url is no key and some pattern of the table does not compile. */
  lemma MatchFails(routes: Table<string, Handler>, rx: Regex, url: string)
    ensures Match(routes, rx, url).Failure? <==>
              url !in Keys(routes) && exists j :: 0 <= j < |routes| && !rx.compiles(routes[j].0)
    ensures Match(routes, rx, url).Failure? ==>
              Match(routes, rx, url).error in Keys(routes) && !rx.compiles(Match(routes, rx, url).error)
  {
    FirstBadNone(routes, rx);
  }

  /** In a table without repeated keys, a key's value is the one stored in its entry. */
  lemma {:induction false} DistinctGet<V>(t: Table<string, V>, i: nat)
    requires Distinct(t) && i < |t|
    ensures Get(t, t[i].0) == Some(t[i].1)
  {
    if i > 0 {
      assert t[0].0 != t[i].0;
      DistinctGet(t[1..], i - 1);
    }
  }

  // --------------------------------------------------------- composition

  datatype BindError =
    | BadHook(pattern: string)  // a hook pattern that does not compile
    | NothingToReduce           // `reduce` on an empty list: "Empty collection can't be reduced."

  /** Whether a hook registered under a pattern applies to a route key: equal text, or a full match. */
  function Applies(rx: Regex, pattern: string, key: string): bool
  {
    key == pattern || rx.matches(pattern, key)
  }

  /** The same test as a predicate on patterns, for selecting from a hook table. */
  function AppliesTo(rx: Regex, key: string): string -> bool
  {
    p => Applies(rx, p, key)
  }

  /**
   * `hooks.filterKeys { key == it || key.matches(it.toRegex()) }.values`:
   * the hooks that apply to a route key, in registration order. A pattern
   * other than the key itself is compiled, and the first that does not
   * compile is the error.
   */
  function SelectHooks(hooks: Table<string, Handler>, rx: Regex, key: string): (r: Result<seq<Handler>, BindError>)
    ensures r.Failure? <==> exists i :: 0 <= i < |hooks| && hooks[i].0 != key && !rx.compiles(hooks[i].0)
    ensures r.Failure? ==>
              r.error.BadHook? && r.error.pattern in Keys(hooks) && r.error.pattern != key && !rx.compiles(r.error.pattern)
    ensures r.Success? ==> r.value == Values(Select(hooks, AppliesTo(rx, key)))
  {
    if |hooks| == 0 then Success([])
    else
      var (p, h) := hooks[0];
      assert forall i :: 1 <= i < |hooks| ==> hooks[i] == hooks[1..][i - 1];
      if p != key && !rx.compiles(p) then Failure(BadHook(p))
      else
        match SelectHooks(hooks[1..], rx, key)
        case Failure(e) => Failure(e)
        case Success(rest) =>
          ValuesCons(hooks[0], Select(hooks[1..], AppliesTo(rx, key)));
          Success(if Applies(rx, p, key) then [h] + rest else rest)
  }

  lemma {:induction false} SelectNone<V>(t: Table<string, V>, p: string -> bool)
    requires forall i :: 0 <= i < |t| ==> !p(t[i].0)
    ensures Select(t, p) == []
  {
    if |t| > 0 {
      assert forall i :: 1 <= i < |t| ==> t[1..][i - 1] == t[i];
      SelectNone(t[1..], p);
    }
  }

  lemma ValuesCons<K, V>(e: (K, V), t: Table<K, V>)
    ensures Values([e] + t) == [e.1] + Values(t)
  {
    assert ([e] + t)[1..] == t;
  }

  /** `reduce { acc, ele -> acc + ele }`: the handlers chained left to right; an empty list throws. */
  function Reduce(hs: seq<Handler>): (r: Result<Handler, BindError>)
    ensures r.Failure? <==> |hs| == 0
  {
    if |hs| == 0 then Failure(NothingToReduce) else Success(Chain(hs[0], hs[1..]))
  }

  function Chain(acc: Handler, rest: seq<Handler>): Handler
    decreases |rest|
  {
    if |rest| == 0 then acc else Chain(Plus(acc, rest[0]), rest[1..])
  }

  predicate AllPlainList(hs: seq<Handler>)
  {
    forall i :: 0 <= i < |hs| ==> Plain(hs[i])
  }

  /** The actions of a list of plain handlers, one after another. */
  function ActionsOf(hs: seq<Handler>): seq<Action>
    requires AllPlainList(hs)
  {
    if |hs| == 0 then [] else Actions(hs[0]) + ActionsOf(hs[1..])
  }

  /** Chaining runs the handlers in list order. */
  lemma {:induction false} ChainActions(acc: Handler, rest: seq<Handler>)
    requires Plain(acc) && AllPlainList(rest)
    ensures Plain(Chain(acc, rest))
    ensures Actions(Chain(acc, rest)) == Actions(acc) + ActionsOf(rest)
    decreases |rest|
  {
    if |rest| > 0 {
      ChainActions(Plus(acc, rest[0]), rest[1..]);
      assert Actions(acc) + Actions(rest[0]) + ActionsOf(rest[1..]) == Actions(acc) + ActionsOf(rest);
    }
  }

  /**
   * One route's executable handler: the matching before-hooks reduced,
   * then the route, then the matching after-hooks reduced. The errors
   * come in Kotlin's evaluation order.
   */
  function Compose(before: Table<string, Handler>, after: Table<string, Handler>, rx: Regex, key: string, route: Handler)
    : Result<Handler, BindError>
  {
    match SelectHooks(before, rx, key)
    case Failure(e) => Failure(e)
    case Success(bs) =>
      match Reduce(bs)
      case Failure(e) => Failure(e)
      case Success(b) =>
        match SelectHooks(after, rx, key)
        case Failure(e) => Failure(e)
        case Success(as_) =>
          match Reduce(as_)
          case Failure(e) => Failure(e)
          case Success(a) => Success(Plus(Plus(b, route), a))
  }

  /** A route no before-hook applies to cannot be composed, even when every pattern compiles. */
  lemma ComposeNeedsHooks(before: Table<string, Handler>, after: Table<string, Handler>, rx: Regex, key: string, route: Handler)
    requires forall i :: 0 <= i < |before| ==> rx.compiles(before[i].0) && !Applies(rx, before[i].0, key)
    ensures Compose(before, after, rx, key, route) == Failure(NothingToReduce)
  {
    SelectNone(before, AppliesTo(rx, key));
  }

  /** Nor can a route no after-hook applies to, even when a before-hook applies and every pattern compiles. */
  lemma ComposeNeedsAfterHooks(before: Table<string, Handler>, after: Table<string, Handler>, rx: Regex, key: string,
                               route: Handler, b: nat)
    requires b < |before| && Applies(rx, before[b].0, key)
    requires forall i :: 0 <= i < |before| ==> rx.compiles(before[i].0)
    requires forall i :: 0 <= i < |after| ==> rx.compiles(after[i].0) && !Applies(rx, after[i].0, key)
    ensures Compose(before, after, rx, key, route) == Failure(NothingToReduce)
  {
    assert AppliesTo(rx, key)(before[b].0);
    SelectKeeps(before, AppliesTo(rx, key), b);
    SelectNone(after, AppliesTo(rx, key));
  }

  /**
   * The composed handler performs, in order: the applying before-hooks in
   * before-table order, the route's own actions, then the applying
   * after-hooks in after-table order.
   */
  lemma ComposeOrder(before: Table<string, Handler>, after: Table<string, Handler>, rx: Regex, key: string, route: Handler)
    requires AllPlain(before) && AllPlain(after) && Plain(route)
    requires Compose(before, after, rx, key, route).Success?
    ensures var h := Compose(before, after, rx, key, route).value;
            var bs := Values(Select(before, AppliesTo(rx, key)));
            var as_ := Values(Select(after, AppliesTo(rx, key)));
            AllPlainList(bs) && AllPlainList(as_) && Plain(h)
            && Actions(h) == ActionsOf(bs) + Actions(route) + ActionsOf(as_)
  {
    var bs := Values(Select(before, AppliesTo(rx, key)));
    var as_ := Values(Select(after, AppliesTo(rx, key)));
    SelectedPlain(before, AppliesTo(rx, key));
    SelectedPlain(after, AppliesTo(rx, key));
    ChainActions(bs[0], bs[1..]);
    ChainActions(as_[0], as_[1..]);
    assert ActionsOf(bs) == Actions(bs[0]) + ActionsOf(bs[1..]);
    assert ActionsOf(as_) == Actions(as_[0]) + ActionsOf(as_[1..]);
  }

  lemma SelectedPlain(t: Table<string, Handler>, p: string -> bool)
    requires AllPlain(t)
    ensures AllPlainList(Values(Select(t, p)))
  {
    var s := Select(t, p);
    forall i | 0 <= i < |s| ensures Plain(Values(s)[i]) {
      assert s[i] in s;
    }
  }

  /** What bindRoutes stores for a route: the composed handler, wrapped when exception handlers exist. */
  function Bound(before: Table<string, Handler>, after: Table<string, Handler>, failures: Table<string, Handler>,
                 rx: Regex, key: string, route: Handler): (r: Result<Handler, BindError>)
    ensures r.Success? ==> (r.value.Guard? <==> |failures| > 0)
  {
    match Compose(before, after, rx, key, route)
    case Failure(e) => Failure(e)
    case Success(h) => Success(if |failures| > 0 then Guard(h) else h)
  }

  /** What bindRoutes computes for one route, from its key and its handler. */
  type Binder = (string, Handler) -> Result<Handler, BindError>

  /** The binder of a server: its hooks, its exception table and the regex engine. */
  function Binding(before: Table<string, Handler>, after: Table<string, Handler>, failures: Table<string, Handler>,
                   rx: Regex): Binder
  {
    (key, route) => Bound(before, after, failures, rx, key, route)
  }

  /** One route table rebound, entry by entry in table order, stopping at the first error. */
  function BindTable(t: Table<string, Handler>, bind: Binder): (r: Result<Table<string, Handler>, BindError>)
    ensures r.Success? ==> |r.value| == |t|
    decreases |t|
  {
    if |t| == 0 then Success([])
    else
      var n := |t| - 1;
      match BindTable(t[..n], bind)
      case Failure(e) => Failure(e)
      case Success(done) =>
        match bind(t[n].0, t[n].1)
        case Failure(e) => Failure(e)
        case Success(h) => Success(done + [(t[n].0, h)])
  }

  /** Each rebound entry keeps its key and holds what its route binds to. */
  lemma {:induction false} BindTableEntry(t: Table<string, Handler>, bind: Binder, i: nat)
    requires BindTable(t, bind).Success? && i < |t|
    ensures bind(t[i].0, t[i].1).Success? && BindTable(t, bind).value[i] == (t[i].0, bind(t[i].0, t[i].1).value)
    decreases |t|
  {
    var n := |t| - 1;
    if i < n {
      BindTableEntry(t[..n], bind, i);
    }
  }

  /** The rebinding fails exactly when some route fails to bind, and then with the first such route's error. */
  lemma {:induction false} BindTableFails(t: Table<string, Handler>, bind: Binder, i: nat)
    requires i < |t| && bind(t[i].0, t[i].1).Failure?
    requires forall j :: 0 <= j < i ==> bind(t[j].0, t[j].1).Success?
    ensures BindTable(t, bind) == Failure(bind(t[i].0, t[i].1).error)
    decreases |t|
  {
    var n := |t| - 1;
    if i < n {
      BindTableFails(t[..n], bind, i);
    } else {
      BindTableSucceeds(t[..n], bind);
    }
  }

  lemma {:induction false} BindTableSucceeds(t: Table<string, Handler>, bind: Binder)
    requires forall j :: 0 <= j < |t| ==> bind(t[j].0, t[j].1).Success?
    ensures BindTable(t, bind).Success?
    decreases |t|
  {
    if |t| > 0 {
      BindTableSucceeds(t[..|t| - 1], bind);
    }
  }

  /** Rebinding keeps the keys, so a table without repeats stays without repeats. */
  lemma BindTableKeys(t: Table<string, Handler>, bind: Binder)
    requires BindTable(t, bind).Success?
    ensures Keys(BindTable(t, bind).value) == Keys(t)
    ensures Distinct(t) ==> Distinct(BindTable(t, bind).value)
  {
    var r := BindTable(t, bind).value;
    forall i | 0 <= i < |t| ensures r[i].0 == t[i].0 {
      BindTableEntry(t, bind, i);
    }
  }

  /** Binding one more entry: the step of the imperative loop, on the table as it stands. */
  lemma BindTableStep(t: Table<string, Handler>, j: nat, bind: Binder)
    requires j < |t| && BindTable(t[..j], bind).Success? && bind(t[j].0, t[j].1).Success?
    ensures var done := BindTable(t[..j], bind).value;
            var h := bind(t[j].0, t[j].1).value;
            BindTable(t[..j + 1], bind) == Success(done + [(t[j].0, h)])
            && (done + t[j..])[j := (t[j].0, h)] == (done + [(t[j].0, h)]) + t[j + 1..]
  {
    assert t[..j + 1][..j] == t[..j];
    var done := BindTable(t[..j], bind).value;
    assert |done| == j;
  }

  /** The loop step on the half-rebound table: entry j takes its bound handler, and the table keeps its keys. */
  lemma BindTableAdvance(t: Table<string, Handler>, j: nat, bind: Binder, h: Handler)
    requires Distinct(t) && j < |t| && BindTable(t[..j], bind).Success?
    requires bind(t[j].0, t[j].1) == Success(h)
    ensures BindTable(t[..j + 1], bind).Success?
    ensures (BindTable(t[..j], bind).value + t[j..])[j := (t[j].0, h)] == BindTable(t[..j + 1], bind).value + t[j + 1..]
    ensures Distinct(BindTable(t[..j + 1], bind).value + t[j + 1..])
  {
    BindTableStep(t, j, bind);
    RebindDistinct(t, j + 1, bind);
  }

  /** The loop's invariant once every entry is done. */
  lemma BindTableDone(t: Table<string, Handler>, bind: Binder)
    requires BindTable(t[..|t|], bind).Success?
    ensures BindTable(t, bind).Success?
    ensures BindTable(t[..|t|], bind).value + t[|t|..] == BindTable(t, bind).value
  {
    assert t[..|t|] == t;
    assert t[|t|..] == [];
  }

  /** A failure at entry j fails the whole rebinding. */
  lemma BindTableStops(t: Table<string, Handler>, j: nat, bind: Binder)
    requires j < |t| && BindTable(t[..j], bind).Success? && bind(t[j].0, t[j].1).Failure?
    ensures BindTable(t, bind) == Failure(bind(t[j].0, t[j].1).error)
  {
    assert t[..j + 1][..j] == t[..j];
    BindTablePrefixFails(t, j + 1, bind);
  }

  lemma {:induction false} BindTablePrefixFails(t: Table<string, Handler>, k: nat, bind: Binder)
    requires k <= |t| && BindTable(t[..k], bind).Failure?
    ensures BindTable(t, bind) == BindTable(t[..k], bind)
    decreases |t|
  {
    if k < |t| {
      var n := |t| - 1;
      assert t[..n][..k] == t[..k];
      BindTablePrefixFails(t[..n], k, bind);
    } else {
      assert t[..k] == t;
    }
  }

  /** A half-rebound table has the keys of the original. */
  lemma RebindDistinct(t: Table<string, Handler>, j: nat, bind: Binder)
    requires Distinct(t) && j <= |t| && BindTable(t[..j], bind).Success?
    ensures Keys(BindTable(t[..j], bind).value + t[j..]) == Keys(t)
    ensures Distinct(BindTable(t[..j], bind).value + t[j..])
  {
    var done := BindTable(t[..j], bind).value;
    var rest := t[j..];
    var v := done + rest;
    BindTableKeys(t[..j], bind);
    forall i | 0 <= i < |v| ensures v[i].0 == t[i].0 {
      if i < j {
        assert v[i] == done[i];
        assert Keys(done)[i] == Keys(t[..j])[i];
      } else {
        assert v[i] == rest[i - j];
      }
    }
    SameKeys(v, t);
    SameKeysDistinct(v, t);
  }

  lemma SameKeys(a: Table<string, Handler>, b: Table<string, Handler>)
    requires |a| == |b| && forall i :: 0 <= i < |a| ==> a[i].0 == b[i].0
    ensures Keys(a) == Keys(b)
  {
  }

  /** Kotlin's `ordinal`: the position of a method in `Method.values()`. */
  function Ordinal(m: Method): (k: nat)
    ensures k < |Methods| && Methods[k] == m
  {
    match m
    case GET => 0
    case POST => 1
    case PUT => 2
    case DELETE => 3
    case OPTIONS => 4
    case HEAD => 5
    case TRACE => 6
    case CONNECT => 7
    case PATCH => 8
  }

  /** The tables once those of the first k methods, in Method order, are rebound; or the first error. */
  function BindUpTo(b: map<Method, Table<string, Handler>>, k: nat, bind: Binder): Result<map<Method, Table<string, Handler>>, BindError>
    requires forall m :: m in b
    requires k <= |Methods|
  {
    if k == 0 then Success(b)
    else
      match BindUpTo(b, k - 1, bind)
      case Failure(e) => Failure(e)
      case Success(cur) =>
        match BindTable(b[Methods[k - 1]], bind)
        case Failure(e) => Failure(e)
        case Success(t) => Success(cur[Methods[k - 1] := t])
  }

  /** What `bindRoutes()` makes of the tables b: every method's table rebound, or the first error. */
  function BindAll(b: map<Method, Table<string, Handler>>, bind: Binder): Result<map<Method, Table<string, Handler>>, BindError>
    requires forall m :: m in b
  {
    BindUpTo(b, |Methods|, bind)
  }

  /** Part way, the tables of the first k methods are rebound and the others untouched. */
  lemma {:induction false} BindUpToAt(b: map<Method, Table<string, Handler>>, k: nat, bind: Binder, m: Method)
    requires forall m :: m in b
    requires k <= |Methods| && BindUpTo(b, k, bind).Success?
    ensures Ordinal(m) < k ==> BindTable(b[m], bind).Success?
    ensures m in BindUpTo(b, k, bind).value
    ensures BindUpTo(b, k, bind).value[m] == if Ordinal(m) < k then BindTable(b[m], bind).value else b[m]
  {
    if k > 0 {
      BindUpToAt(b, k - 1, bind, m);
    }
  }

  /** Part way, the rebinding has succeeded exactly when the tables of the first k methods each rebind. */
  lemma {:induction false} BindUpToSucceeds(b: map<Method, Table<string, Handler>>, k: nat, bind: Binder)
    requires forall m :: m in b
    requires k <= |Methods|
    ensures BindUpTo(b, k, bind).Success? <==> forall i :: 0 <= i < k ==> BindTable(b[Methods[i]], bind).Success?
  {
    if k > 0 {
      BindUpToSucceeds(b, k - 1, bind);
    }
  }

  /** Once an error has happened, it is the outcome of every later stage. */
  lemma {:induction false} BindUpToFails(b: map<Method, Table<string, Handler>>, k: nat, j: nat, bind: Binder)
    requires forall m :: m in b
    requires k <= j <= |Methods| && BindUpTo(b, k, bind).Failure?
    ensures BindUpTo(b, j, bind) == BindUpTo(b, k, bind)
    decreases j
  {
    if k < j {
      BindUpToFails(b, k, j - 1, bind);
    }
  }

  /** The binding succeeds exactly when every method's table rebinds. */
  lemma BindAllSucceeds(b: map<Method, Table<string, Handler>>, bind: Binder)
    requires forall m :: m in b
    ensures BindAll(b, bind).Success? <==> forall m :: BindTable(b[m], bind).Success?
  {
    BindUpToSucceeds(b, |Methods|, bind);
    if forall i :: 0 <= i < |Methods| ==> BindTable(b[Methods[i]], bind).Success? {
      forall m ensures BindTable(b[m], bind).Success? {
        assert m == Methods[Ordinal(m)];
      }
    }
  }

  /** After a successful binding, every method keeps its table under its own name, rebound. */
  lemma BindAllTable(b: map<Method, Table<string, Handler>>, bind: Binder, m: Method)
    requires forall m :: m in b
    requires BindAll(b, bind).Success?
    ensures BindTable(b[m], bind).Success? && m in BindAll(b, bind).value
    ensures BindAll(b, bind).value[m] == BindTable(b[m], bind).value
  {
    BindUpToAt(b, |Methods|, bind, m);
  }

  /** The error of a binding is that of the first method, in Method order, whose table fails to rebind. */
  lemma BindAllError(b: map<Method, Table<string, Handler>>, bind: Binder, k: nat)
    requires forall m :: m in b
    requires k < |Methods| && BindTable(b[Methods[k]], bind).Failure?
    requires forall i :: 0 <= i < k ==> BindTable(b[Methods[i]], bind).Success?
    ensures BindAll(b, bind) == Failure(BindTable(b[Methods[k]], bind).error)
  {
    BindUpToSucceeds(b, k, bind);
    BindUpToFails(b, k + 1, |Methods|, bind);
  }

  /**
   * After a successful binding, every route of every method sits under
   * its own key in its own place and holds its composed handler, wrapped
   * when the exception table is non-empty.
   */
  lemma BindAllEntry(b: map<Method, Table<string, Handler>>, before: Table<string, Handler>,
                     after: Table<string, Handler>, failures: Table<string, Handler>, rx: Regex, m: Method, i: nat)
    requires forall m :: m in b
    requires BindAll(b, Binding(before, after, failures, rx)).Success? && i < |b[m]|
    ensures var key := b[m][i].0;
            var h := Compose(before, after, rx, key, b[m][i].1);
            var r := BindAll(b, Binding(before, after, failures, rx)).value;
            h.Success? && m in r && i < |r[m]|
            && r[m][i] == (key, if |failures| > 0 then Guard(h.value) else h.value)
  {
    BindAllTable(b, Binding(before, after, failures, rx), m);
    BindTableEntry(b[m], Binding(before, after, failures, rx), i);
  }

  /** `(System.getProperty("server.port") ?: "1234").toInt()`: the port a Server listens on by default. */
  function PortSetting(property: Option<string>): (r: Result<int, Failure>)
    ensures property.None? ==> r == Success(1234)
    ensures r.Success? ==> MinInt <= r.value <= MaxInt
    ensures property.Some? ==> (r.Failure? <==> ParseInt(property.value).None?)
    ensures property.Some? && r.Success? ==> Some(r.value) == ParseInt(property.value)
  {
    var text := property.GetOr("1234");
    DefaultPortParses();
    match ParseInt(text)
    case None => Failure(NumberFormat(text))
    case Some(n) => Success(n)
  }

  lemma DefaultPortParses()
    ensures ParseInt("1234") == Some(1234)
  {
    ParseDecimal(1234);
    assert Decimal(1234) == "1234";
  }

  // --------------------------------------------------------------- Server

  class Server {
    const port: int
    /** One route table per method, all present from the start. */
    var bindings: map<Method, Table<string, Handler>>
    var before: Table<string, Handler>
    var after: Table<string, Handler>
    /** Failure handlers keyed by the exact class name of the exception. */
    var exception: Table<string, Handler>

    ghost predicate Valid()
      reads this
    {
      (forall m :: m in bindings && Distinct(bindings[m]))
      && Distinct(before) && Distinct(after) && Distinct(exception) && AllPlain(exception)
    }

    constructor (port: int)
      ensures Valid()
      ensures this.port == port && before == [] && after == [] && exception == []
      ensures forall m :: bindings[m] == []
    {
      this.port := port;
      bindings := map m: Method | m in Methods :: [];
      before := [];
      after := [];
      exception := [];
      forall m: Method ensures m in Methods {
        MethodsListed(m);
      }
    }

    /** `bind(method, path, call)`: the previous handler under that path, if any. */
    method Bind(m: Method, path: string, call: Handler) returns (previous: Option<Handler>)
      requires Valid()
      modifies this
      ensures Valid()
      ensures bindings == old(bindings)[m := Put(old(bindings)[m], path, call)]
      ensures before == old(before) && after == old(after) && exception == old(exception)
      ensures previous == Get(old(bindings)[m], path)
    {
      previous := Get(bindings[m], path);
      PutDistinct(bindings[m], path, call);
      bindings := bindings[m := Put(bindings[m], path, call)];
    }

    method GetRoute(path: string, call: Handler) returns (previous: Option<Handler>)
      requires Valid()
      modifies this
      ensures Valid()
      ensures bindings == old(bindings)[GET := Put(old(bindings)[GET], path, call)]
      ensures before == old(before) && after == old(after) && exception == old(exception)
      ensures previous == Get(old(bindings)[GET], path)
    {
      previous := Bind(GET, path, call);
    }

    method PostRoute(path: string, call: Handler) returns (previous: Option<Handler>)
      requires Valid()
      modifies this
      ensures Valid()
      ensures bindings == old(bindings)[POST := Put(old(bindings)[POST], path, call)]
      ensures before == old(before) && after == old(after) && exception == old(exception)
      ensures previous == Get(old(bindings)[POST], path)
    {
      previous := Bind(POST, path, call);
    }

    method PutRoute(path: string, call: Handler) returns (previous: Option<Handler>)
      requires Valid()
      modifies this
      ensures Valid()
      ensures bindings == old(bindings)[PUT := Put(old(bindings)[PUT], path, call)]
      ensures before == old(before) && after == old(after) && exception == old(exception)
      ensures previous == Get(old(bindings)[PUT], path)
    {
      previous := Bind(PUT, path, call);
    }

    method DeleteRoute(path: string, call: Handler) returns (previous: Option<Handler>)
      requires Valid()
      modifies this
      ensures Valid()
      ensures bindings == old(bindings)[DELETE := Put(old(bindings)[DELETE], path, call)]
      ensures before == old(before) && after == old(after) && exception == old(exception)
      ensures previous == Get(old(bindings)[DELETE], path)
    {
      previous := Bind(DELETE, path, call);
    }

    /** `before(path, call)`. */
    method Before(path: string, call: Handler) returns (previous: Option<Handler>)
      requires Valid()
      modifies this
      ensures Valid()
      ensures before == Put(old(before), path, call)
      ensures bindings == old(bindings) && after == old(after) && exception == old(exception)
      ensures previous == Get(old(before), path)
    {
      previous := Get(before, path);
      PutDistinct(before, path, call);
      before := Put(before, path, call);
    }

    /** `before(call)`: a hook for every route, stored under ".*". */
    method BeforeAll(call: Handler) returns (previous: Option<Handler>)
      requires Valid()
      modifies this
      ensures Valid()
      ensures before == Put(old(before), ".*", call)
      ensures bindings == old(bindings) && after == old(after) && exception == old(exception)
      ensures previous == Get(old(before), ".*")
    {
      previous := Before(".*", call);
    }

    /** `after(path, call)`. */
    method After(path: string, call: Handler) returns (previous: Option<Handler>)
      requires Valid()
      modifies this
      ensures Valid()
      ensures after == Put(old(after), path, call)
      ensures bindings == old(bindings) && before == old(before) && exception == old(exception)
      ensures previous == Get(old(after), path)
    {
      previous := Get(after, path);
      PutDistinct(after, path, call);
      after := Put(after, path, call);
    }

    /** `after(call)`: a hook for every route, stored under ".*". */
    method AfterAll(call: Handler) returns (previous: Option<Handler>)
      requires Valid()
      modifies this
      ensures Valid()
      ensures after == Put(old(after), ".*", call)
      ensures bindings == old(bindings) && before == old(before) && exception == old(exception)
      ensures previous == Get(old(after), ".*")
    {
      previous := After(".*", call);
    }

    /** `exception(klass, call)`: a handler for failures of exactly that class. */
    method Exception(kind: string, call: Handler) returns (previous: Option<Handler>)
      requires Valid() && Plain(call)
      modifies this
      ensures Valid()
      ensures exception == Put(old(exception), kind, call)
      ensures bindings == old(bindings) && before == old(before) && after == old(after)
      ensures previous == Get(old(exception), kind)
    {
      previous := Get(exception, kind);
      PutDistinct(exception, kind, call);
      PutPlain(exception, kind, call);
      exception := Put(exception, kind, call);
    }

    /**
     * `bindRoutes()`: every route of every method, in Method order and
     * table order, is overwritten in place by its composed handler. The
     * first error stops the binding (and `start`).
     */
    method BindRoutes(rx: Regex) returns (error: Option<BindError>)
      requires Valid()
      modifies this`bindings
      ensures var r := BindAll(old(bindings), Binding(before, after, exception, rx));
              (error.None? <==> r.Success?) && (r.Failure? ==> error == Some(r.error))
              && (r.Success? ==> bindings == r.value && Valid())
      ensures before == old(before) && after == old(after) && exception == old(exception)
    {
      ghost var start := bindings;
      ghost var bind := Binding(before, after, exception, rx);
      var k := 0;
      while k < |Methods|
        invariant 0 <= k <= |Methods|
        invariant forall m :: m in start
        invariant BindUpTo(start, k, bind) == Success(bindings)
        invariant Valid()
      {
        BindUpToAt(start, k, bind, Methods[k]);
        OrdinalAt(k);
        error := BindTableInPlace(Methods[k], rx);
        if error.Some? {
          BindUpToFails(start, k + 1, |Methods|, bind);
          return;
        }
        k := k + 1;
      }
      error := None;
    }

    /** One step of the inner loop: `values[key] = action`, then the guarded action when exception handlers exist. */
    method RebindEntry(values: Table<string, Handler>, j: nat, rx: Regex) returns (next: Table<string, Handler>, error: Option<BindError>)
      requires Distinct(values) && j < |values|
      ensures var r := Bound(before, after, exception, rx, values[j].0, values[j].1);
              (error.None? <==> r.Success?) && (r.Failure? ==> error == Some(r.error))
              && (r.Success? ==> next == values[j := (values[j].0, r.value)])
    {
      var (key, value) := values[j];
      var action := Compose(before, after, rx, key, value);
      if action.Failure? {
        return values, Some(action.error);
      }
      PutAt(values, j, action.value);
      next := Put(values, key, action.value);
      if |exception| > 0 {
        PutTwice(values, j, action.value, Guard(action.value));
        next := Put(next, key, Guard(action.value));
      }
      error := None;
    }

    /** The inner loop of bindRoutes: one method's table, entry by entry. */
    method BindTableInPlace(m: Method, rx: Regex) returns (error: Option<BindError>)
      requires Valid()
      modifies this`bindings
      ensures before == old(before) && after == old(after) && exception == old(exception)
      ensures var r := BindTable(old(bindings)[m], Binding(before, after, exception, rx));
              (error.None? <==> r.Success?) && (r.Failure? ==> error == Some(r.error))
              && (r.Success? ==> bindings == old(bindings)[m := r.value] && Valid())
    {
      var values;
      values, error := RebindTable(bindings[m], rx);
      if error.None? {
        BindTableKeys(bindings[m], Binding(before, after, exception, rx));
      }
      bindings := bindings[m := values];
    }

    /**
     * The entries of one table, in table order, each overwritten by its
     * composed handler; the first error stops the loop, leaving the
     * entries before it rebound.
     */
    method RebindTable(t: Table<string, Handler>, rx: Regex) returns (values: Table<string, Handler>, error: Option<BindError>)
      requires Distinct(t)
      ensures var r := BindTable(t, Binding(before, after, exception, rx));
              (error.None? <==> r.Success?) && (r.Failure? ==> error == Some(r.error))
              && (r.Success? ==> values == r.value)
    {
      ghost var bind := Binding(before, after, exception, rx);
      values := t;
      var j := 0;
      while j < |values|
        invariant 0 <= j <= |values| == |t|
        invariant BindTable(t[..j], bind).Success?
        invariant values == BindTable(t[..j], bind).value + t[j..]
        invariant Distinct(values)
      {
        assert values[j] == t[j];
        var next, failed := RebindEntry(values, j, rx);
        BindingIs(before, after, exception, rx, t[j].0, t[j].1);
        if failed.Some? {
          BindTableStops(t, j, bind);
          return values, failed;
        }
        BindTableAdvance(t, j, bind, next[j].1);
        values := next;
        j := j + 1;
      }
      BindTableDone(t, bind);
      error := None;
    }
  }

  lemma BindingIs(before: Table<string, Handler>, after: Table<string, Handler>, failures: Table<string, Handler>,
                  rx: Regex, key: string, route: Handler)
    ensures Binding(before, after, failures, rx)(key, route) == Bound(before, after, failures, rx, key, route)
  {
  }

  /** Two puts on the same present key: the second one wins, in place. */
  lemma PutTwice(t: Table<string, Handler>, j: nat, a: Handler, b: Handler)
    requires Distinct(t) && j < |t|
    ensures Put(t[j := (t[j].0, a)], t[j].0, b) == t[j := (t[j].0, b)]
  {
    var u := t[j := (t[j].0, a)];
    assert Keys(u) == Keys(t);
    SameKeysDistinct(u, t);
    PutAt(u, j, b);
    assert u[j := (t[j].0, b)] == t[j := (t[j].0, b)];
  }

  lemma OrdinalAt(k: nat)
    requires k < |Methods|
    ensures Ordinal(Methods[k]) == k
  {
  }

  /** A table with the same keys as a table without repeats has no repeats. */
  lemma SameKeysDistinct(a: Table<string, Handler>, b: Table<string, Handler>)
    requires Keys(a) == Keys(b) && Distinct(b)
    ensures Distinct(a)
  {
    forall i, j | 0 <= i < j < |a| ensures a[i].0 != a[j].0 {
      assert Keys(a)[i] == Keys(b)[i] && Keys(a)[j] == Keys(b)[j];
    }
  }

  lemma PutPlain(t: Table<string, Handler>, k: string, h: Handler)
    requires AllPlain(t) && Plain(h)
    ensures AllPlain(Put(t, k, h))
  {
    var r := Put(t, k, h);
    forall i | 0 <= i < |r| ensures Plain(r[i].1) {
      PutEntry(t, k, h, i);
    }
  }

  lemma {:induction false} PutEntry<V>(t: Table<string, V>, k: string, v: V, i: nat)
    requires i < |Put(t, k, v)|
    ensures Put(t, k, v)[i] == (k, v) || Put(t, k, v)[i] in t
  {
    if |t| > 0 && t[0].0 != k && i > 0 {
      PutEntry(t[1..], k, v, i - 1);
    }
  }
}
