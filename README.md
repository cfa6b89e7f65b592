# A verified model of the Httpd micro web server

Httpd is a small HTTP/1.1 server written in Kotlin. A `Server` keeps a
route table per request method, tables of *before* and *after* hooks, and
a table of exception handlers. When it starts, `bindRoutes` rewrites every
route in place. Each route becomes its matching before-hooks, then the
route itself, then its matching after-hooks. When exception handlers exist,
it is also wrapped in a try/catch. For every connection, a `Client` reads
the request line and headers from the socket and builds a `Request`. Its
`url` and `query` are derived from the target, and its body is read lazily
and cached. The client then resolves a handler with `match` and runs it on
a `Response`. That response writes the status line and headers only on the
first `send`, and the client flushes it at the end.

The model is split into modules that follow this structure:

- `Wire` (wire.dfy) covers the request line, the header block and the `Reader` over the connection's input.
- `Requests` (requests.dfy) covers the derived `url` and `query`, and the `Request` class with its lazily read, cached `content`.
- `Responses` (responses.dfy) covers `Status` and the one-shot `Response` writer class.
- `Handlers` (handlers.dfy) covers handlers as data. A handler is made of primitive actions, `plus` and the try/catch wrapper. `Exec` is their meaning, and `Invoke` runs a handler on the objects.
- `Routing` (routing.dfy) covers `match`, the bind-time composition and the `Server` class with its registration methods and `bindRoutes`.
- `Dispatch` (dispatch.dfy) covers one whole connection. `Exchange` is its meaning, and the `Serve` method is proved equal to it.
- `Text`, `OrderedMap`, `Failures` and `Wrappers` hold Kotlin's string functions, insertion-ordered maps (`LinkedHashMap`), the exceptions a handler can raise, and `Option`/`Result`.

Kotlin maps made by `mutableMapOf`/`linkedMapOf`/`toMap` are tables of
pairs in first-insertion order, and a `put` on a present key replaces the
value in place. An exception the server does not catch is a `Failure`
value. A failure that escapes a connection's thread ends it with nothing
flushed.

Java regular expressions (`toRegex`, `matches`) are a library outside the
model. Route and hook patterns go through a `Regex` value passed in as a
parameter: it says whether a pattern compiles and whether it fully
matches a text. The two fixed patterns that compute `url` and `query` are
written out as string operations. Because Java's `.` stops at line
terminators, they are applied line by line.

Two behaviours of the code differ from the usual description of the server.
The model follows the code in both:

- **Empty hook lists.** The hook lists are chained with Kotlin's `reduce`, which throws on an empty list. A route that no before-hook applies to, or that no after-hook applies to, therefore cannot be bound. The error stops `bindRoutes`, and with it `start`. It does not become a do-nothing hook (`Routing.ComposeNeedsHooks`, `Routing.ComposeNeedsAfterHooks`).
- **Targets without `=`.** The query is built from the target, cut before its first `#`, when it has no `?`, and every `&`-piece must contain `=`. A request such as `GET /hello HTTP/1.1` therefore makes the `Request` constructor throw. The connection gets no answer at all; it does not get `200` (`Dispatch.ExchangeNeedsQuery`, `Requests.QueryNeedsEquals`).

## Model

| member | source | states |
|---|---|---|
| Text.JoinSplit | src/main/kotlin/Httpd.kt:36 | Kotlin's `split` loses nothing: joining its pieces with the delimiter gives the text back |
| Text.SplitJoin | src/main/kotlin/Httpd.kt:36 | splitting joined pieces that do not contain the delimiter gives the pieces back |
| Text.SplitOne | src/main/kotlin/Httpd.kt:22 | split yields more than one piece exactly when the delimiter occurs |
| Text.TrimSlice | src/main/kotlin/Httpd.kt:23 | `trim` keeps one contiguous slice of the text and drops only whitespace around it |
| Text.TrimSkipsLead | src/main/kotlin/Httpd.kt:23 | whitespace before a header value does not reach the trimmed value |
| Text.TrimmedStays | src/main/kotlin/Httpd.kt:23 | a text with no whitespace at either end is its own trim |
| Text.DecimalValue | src/main/kotlin/Httpd.kt:64 | the digits the status line prints for a code read back as that code |
| Text.ParseDecimal | src/main/kotlin/Httpd.kt:43 | `toInt` reads back any printed Int, positive or negative |
| Text.ParseInt | src/main/kotlin/Httpd.kt:43 | `toInt` succeeds only on optionally signed decimal digits whose value fits in 32 bits |
| OrderedMap.GetPutSame | src/main/kotlin/Httpd.kt:194 | after a `put`, the key reads back the new value |
| OrderedMap.GetPutOther | src/main/kotlin/Httpd.kt:194 | a `put` leaves every other key's value unchanged |
| OrderedMap.KeysPut | src/main/kotlin/Httpd.kt:112-118 | a `put` keeps insertion order: a present key keeps its place and a new key goes last |
| OrderedMap.PutAt | src/main/kotlin/Httpd.kt:149 | a `put` on a present key overwrites that one entry in place |
| OrderedMap.PutDistinct | src/main/kotlin/Httpd.kt:194 | a `put` never stores a key twice |
| OrderedMap.GetPutAllLast | src/main/kotlin/Httpd.kt:52 | with `toMap`, the last pair for a key decides its value |
| OrderedMap.GetPutAllAbsent | src/main/kotlin/Httpd.kt:52 | with `toMap`, a key no pair mentions keeps its old value |
| OrderedMap.SelectAppend | src/main/kotlin/Httpd.kt:139-140 | `filterKeys` works entry by entry, so the selected hooks keep table order |
| OrderedMap.SelectKeeps | src/main/kotlin/Httpd.kt:139-140 | every entry whose key passes the test is selected |
| Wire.MethodNamed | src/main/kotlin/Httpd.kt:37 | `Method.valueOf` succeeds exactly on the name of a declared method, and returns that method |
| Wire.MethodNamedName | src/main/kotlin/Httpd.kt:82-84 | every method is found under its own name, which is non-empty and holds no space or line break |
| Wire.NextLine | src/main/kotlin/Httpd.kt:21 | `readLine` fails only at the end of the input; a line holds no terminator and consumes at least one character |
| Wire.NextLineOf | src/main/kotlin/Httpd.kt:21 | a line followed by `\n`, by `\r\n`, or by a lone `\r` (one not followed by `\n`) is read back whole, and the text after the terminator is left |
| Wire.NextLineSplits | src/main/kotlin/Httpd.kt:21 | conversely, a line read is either the last text of the input, or the text before one of the three terminators, and only that terminator is dropped |
| Wire.Reader.ReadLine | src/main/kotlin/Httpd.kt:21 | reads one line exactly as `NextLine` does, and consumes it |
| Wire.Reader.Read | src/main/kotlin/Httpd.kt:44 | `read()` takes the next character, or yields the end-of-stream character and consumes nothing |
| Wire.RequestLine | src/main/kotlin/Httpd.kt:36-37 | a successful parse leaves no space in the target or the version |
| Wire.RequestLineTokens | src/main/kotlin/Httpd.kt:36-37 | a line of a method name, a target, a version and extra space-free tokens yields the first three tokens, and the extra tokens are ignored |
| Wire.RequestLineOfTokens | src/main/kotlin/Httpd.kt:36-37 | method, target and version are tokens 0, 1 and 2 of the space-split line |
| Wire.RequestLineRefused | src/main/kotlin/Httpd.kt:36-37 | the request line is refused exactly when its first token names no method or it has fewer than three tokens |
| Wire.HeaderField | src/main/kotlin/Httpd.kt:22-23 | a header line is malformed exactly when it holds no ':' |
| Wire.HeaderFieldPieces | src/main/kotlin/Httpd.kt:22-23 | the name is the text before the first ':', and the value is only the second ':'-piece, trimmed (`Host: a:1234` gives `a`) |
| Wire.FieldLineRead | src/main/kotlin/Httpd.kt:20-25 | one well-formed header line, ended by any of the three terminators, is read back as its field and stored with `put` |
| Wire.FieldLinesLead | src/main/kotlin/Httpd.kt:20-25 | the text after a header line never starts with a `\n` that a lone `\r` would absorb |
| Wire.HeadersRoundTrip | src/main/kotlin/Httpd.kt:20-25 | a header block written by a client, with `\n`, `\r\n` or `\r` line ends, reads back as its fields, stored in order; it stops at the blank line and leaves the body |
| Wire.ParseHead | src/main/kotlin/Httpd.kt:19-38 | a parsed head always consumes at least the request line |
| Wire.ParseHeadRoundTrip | src/main/kotlin/Httpd.kt:19-38 | parsing what a client wrote, with `\n`, `\r\n` or `\r` line ends, gives back its method, target, version and headers, and leaves exactly the body |
| Wire.ParseHeadSteps | src/main/kotlin/Httpd.kt:19-38 | the head is the request line, then the headers up to the blank line |
| Requests.LineEnd | src/main/kotlin/Httpd.kt:47-48 | finds where the first line of the target ends, as Java's `.` sees it |
| Requests.CutAt | src/main/kotlin/Httpd.kt:47 | the kept text is a prefix without any of the marks, and is followed by a mark when shorter than the line |
| Requests.AfterLast | src/main/kotlin/Httpd.kt:48 | the kept text is a suffix without the character, and follows an occurrence of it when shorter than the line |
| Requests.PerLineAvoids | src/main/kotlin/Httpd.kt:47 | the line-by-line rewrite never introduces a mark that no line's rewrite produces |
| Requests.PerLineKeeps | src/main/kotlin/Httpd.kt:48 | the line-by-line rewrite only keeps characters of the target |
| Requests.PerLineIdentity | src/main/kotlin/Httpd.kt:47 | a target without the marks is left alone by the rewrite |
| Requests.UrlUnmarked | src/main/kotlin/Httpd.kt:47 | the url holds neither '?' nor '#' |
| Requests.UrlCut | src/main/kotlin/Httpd.kt:47 | on a one-line target, the url is the target cut just before its first '?' or '#', so it is a prefix of the target |
| Requests.UrlPlain | src/main/kotlin/Httpd.kt:47 | a target with neither '?' nor '#' is its own url |
| Requests.QueryTextCut | src/main/kotlin/Httpd.kt:48 | the query text is what follows the last '?' with any '#' suffix removed, or the target cut before its first '#' when there is no '?' |
| Requests.QueryPairs | src/main/kotlin/Httpd.kt:48-52 | building pairs fails exactly when some '&'-piece lacks '='; otherwise there is one pair per piece, its key the text before the first '=' and its value the second '='-piece of the piece |
| Requests.PiecesRead | src/main/kotlin/Httpd.kt:48-52 | `key=value` pieces written from pairs without '=' or '&' read back as exactly those pairs |
| Requests.QueryWritten | src/main/kotlin/Httpd.kt:48-52 | a target `path?k1=v1&k2=v2...` builds the query map of exactly those pairs, put in order |
| Requests.QueryTextOf | src/main/kotlin/Httpd.kt:48 | the query text of `path?text` is the text, when it holds no '?', no '#' and no line terminator |
| Requests.QueryExample | src/main/kotlin/Httpd.kt:48-52 | the target `/p?a=1` stores the key `a` with the value `1` |
| Requests.PieceOpens | src/main/kotlin/Httpd.kt:49-50 | the first '='-piece of a piece is exactly the text before its first '=' |
| Requests.Query | src/main/kotlin/Httpd.kt:48-52 | the query map stores each key once |
| Requests.QueryNeedsEquals | src/main/kotlin/Httpd.kt:48-52 | a target without '=' (such as `/hello`) cannot be built into a Request |
| Requests.QueryLastWins | src/main/kotlin/Httpd.kt:52 | of several pieces with the same key, the last one decides its value |
| Requests.ContentLength | src/main/kotlin/Httpd.kt:43 | an absent Content-Length header means 0; a present one is read with `toInt`, which fails exactly on text it cannot parse and otherwise gives the parsed value |
| Requests.Padding | src/main/kotlin/Httpd.kt:44 | reading past the end yields only end-of-stream characters |
| Requests.ReadN | src/main/kotlin/Httpd.kt:43-45 | the fold reads exactly k characters: the next k of the input when they exist, else the rest padded with end-of-stream characters |
| Requests.BodyFirstRead | src/main/kotlin/Httpd.kt:42-46 | the first access consumes exactly Content-Length characters and caches them |
| Requests.BodyDeclared | src/main/kotlin/Httpd.kt:42-46 | `Content-Length: n`, written in decimal, makes the length n and the first access read exactly n characters |
| Requests.BodyAbsent | src/main/kotlin/Httpd.kt:42-46 | without Content-Length the body is empty and nothing is consumed |
| Requests.BodyCached | src/main/kotlin/Httpd.kt:42-46 | every access after a successful one returns the same text and consumes nothing |
| Requests.BodyConsumes | src/main/kotlin/Httpd.kt:42-46 | an access only consumes the stream from its front, and a cached body stays cached |
| Requests.BodyUnreadable | src/main/kotlin/Httpd.kt:42-46 | an unreadable Content-Length fails without consuming anything, and fails again on the next access |
| Requests.Request.constructor | src/main/kotlin/Httpd.kt:41-53 | stores the request's parts and derives `url` and `query` from the target; the body is not yet read |
| Requests.Request.Content | src/main/kotlin/Httpd.kt:42-46 | the counted read loop leaves the result, the cache and the stream exactly as the lazy body's definition says |
| Responses.StatusOf | src/main/kotlin/Httpd.kt:86-101 | a code found in the status table belongs to the status returned |
| Responses.StatusOfCode | src/main/kotlin/Httpd.kt:86-101 | every status is found again by its code, which has three digits, and has a non-empty reason |
| Responses.HeaderBlockEnds | src/main/kotlin/Httpd.kt:63-71 | the header block ends in one empty line, and in two when headers are present |
| Responses.HeaderLinesEnd | src/main/kotlin/Httpd.kt:66 | each header line ends with a line break |
| Responses.EmitDirty | src/main/kotlin/Httpd.kt:62-73 | once the response is dirty, sends write their bodies and nothing else |
| Responses.OneHeaderBlock | src/main/kotlin/Httpd.kt:62-73 | a run of sends writes exactly one header block, the first send's status and headers, then all bodies; later status and header arguments have no effect |
| Responses.Response.constructor | src/main/kotlin/Httpd.kt:55-60 | a new response has status OK, is clean and has written nothing |
| Responses.Response.Send | src/main/kotlin/Httpd.kt:62-77 | the header loop appends the header block only while clean, then the content, and leaves the response dirty |
| Responses.Response.Flush | src/main/kotlin/Httpd.kt:79 | everything written so far reaches the connection |
| Handlers.GetPlain | src/main/kotlin/Httpd.kt:157 | a handler looked up in the exception table is a user-written one, with no wrapper inside |
| Handlers.Consume | src/main/kotlin/Httpd.kt:42-46 | reading `content` leaves written text and the header flag alone, and only moves the state forward |
| Handlers.Perform | src/main/kotlin/Httpd.kt:103 | a throwing action leaves the state untouched; a handler that returns without sending changes nothing |
| Handlers.ExecLater | src/main/kotlin/Httpd.kt:62-73 | no handler takes back what was written: output only grows, input is only consumed, a written header block and a read body stay |
| Handlers.SentFramed | src/main/kotlin/Httpd.kt:62-73 | a send keeps the one-shot shape: the text is empty while clean, and starts with a header block once dirty |
| Handlers.PerformFramed | src/main/kotlin/Httpd.kt:62-73 | every primitive action keeps the one-shot shape |
| Handlers.ExecFramed | src/main/kotlin/Httpd.kt:62-73 | every handler, composed or wrapped, keeps the one-shot shape |
| Handlers.ExecAllAppend | src/main/kotlin/Httpd.kt:105-108 | running two action lists one after the other is running their concatenation |
| Handlers.ExecFlat | src/main/kotlin/Httpd.kt:105-108 | a handler built with `plus` runs its primitive actions in order, stopping at the first that throws |
| Handlers.PlusAssociates | src/main/kotlin/Httpd.kt:105-108 | how `plus` is grouped does not matter |
| Handlers.PlusStops | src/main/kotlin/Httpd.kt:105-108 | when the first handler throws, the next one never runs |
| Handlers.GuardPasses | src/main/kotlin/Httpd.kt:152-155 | the wrapper leaves a normal return, or a failure that is no RuntimeException, as it is |
| Handlers.GuardHandles | src/main/kotlin/Httpd.kt:156-157 | a runtime failure whose exact kind has a handler is handed to that handler, on the state the failure left |
| Handlers.GuardAnswers | src/main/kotlin/Httpd.kt:158-159 | any other runtime failure is answered by a send of its message, or "Error", with status 500 |
| Handlers.Do | src/main/kotlin/Httpd.kt:62-77 | running one action on the request and response objects changes them exactly as its meaning says |
| Handlers.Invoke | src/main/kotlin/Httpd.kt:105-108 | running a handler on the objects changes them exactly as its meaning says, and flushes nothing |
| Handlers.PerformIgnoresFailures | src/main/kotlin/Httpd.kt:103 | a primitive action does not depend on the exception table |
| Routing.FirstBad | src/main/kotlin/Httpd.kt:188 | a pattern it names is a key of the table that does not compile |
| Routing.FirstBadNone | src/main/kotlin/Httpd.kt:188 | no pattern is named exactly when every pattern of the table compiles |
| Routing.FirstBadFirst | src/main/kotlin/Httpd.kt:188 | the pattern named is the first bad one: every pattern before its entry compiles |
| Routing.FirstMatchingFirst | src/main/kotlin/Httpd.kt:188 | the entry found fully matches the url, and no entry before it does |
| Routing.FirstMatchingNone | src/main/kotlin/Httpd.kt:188 | when no pattern matches, the search runs past the last entry |
| Routing.MatchExact | src/main/kotlin/Httpd.kt:186-187 | a route stored under exactly the url wins over every pattern, even when patterns do not compile |
| Routing.MatchUnkeyed | src/main/kotlin/Httpd.kt:187-190 | without an exact key and with every pattern compiling, the first matching entry answers, or the 404 fallback when none matches |
| Routing.MatchPattern | src/main/kotlin/Httpd.kt:187-188 | without an exact key, the first matching pattern in registration order is chosen |
| Routing.FirstMatchingAt | src/main/kotlin/Httpd.kt:188 | the first matching entry is the one before which nothing matches |
| Routing.MatchFallback | src/main/kotlin/Httpd.kt:188-190 | with no exact key and no matching pattern, the 404 "Resource Not Found" handler answers |
| Routing.MatchFails | src/main/kotlin/Httpd.kt:186-192 | resolution fails exactly when the url is no key and some pattern does not compile, and then names that pattern |
| Routing.DistinctGet | src/main/kotlin/Httpd.kt:187 | in a map, the value looked up under a key is the one stored with it |
| Routing.SelectHooks | src/main/kotlin/Httpd.kt:139-144 | hook selection fails exactly when a pattern unequal to the route key does not compile; otherwise it gives the applicable hooks in table order |
| Routing.SelectNone | src/main/kotlin/Httpd.kt:139-141 | when no hook applies, nothing is selected |
| Routing.Reduce | src/main/kotlin/Httpd.kt:141-142 | `reduce` fails exactly on an empty hook list |
| Routing.ChainActions | src/main/kotlin/Httpd.kt:141-142 | the reduced chain runs the hooks in list order |
| Routing.ComposeNeedsHooks | src/main/kotlin/Httpd.kt:139-147 | a route that no before-hook applies to cannot be composed |
| Routing.ComposeNeedsAfterHooks | src/main/kotlin/Httpd.kt:139-147 | a route that no after-hook applies to cannot be composed either, even when a before-hook applies |
| Routing.ComposeOrder | src/main/kotlin/Httpd.kt:139-147 | a composed route runs the applicable before-hooks in table order, then the route, then the applicable after-hooks |
| Routing.SelectedPlain | src/main/kotlin/Httpd.kt:139-147 | selected hooks are user-written handlers |
| Routing.Bound | src/main/kotlin/Httpd.kt:149-163 | a route is wrapped exactly when the exception table is non-empty at bind time |
| Routing.BindTable | src/main/kotlin/Httpd.kt:138-164 | rebinding keeps the number of entries |
| Routing.BindTableEntry | src/main/kotlin/Httpd.kt:138-164 | each rebound entry keeps its key and holds what its route binds to |
| Routing.BindTableFails | src/main/kotlin/Httpd.kt:138-164 | a table's rebinding fails with the error of its first route that cannot be bound |
| Routing.BindTableSucceeds | src/main/kotlin/Httpd.kt:138-164 | a table whose every route binds is rebound |
| Routing.BindTableKeys | src/main/kotlin/Httpd.kt:149 | rebinding overwrites in place: the keys and their order stay, so no key repeats |
| Routing.BindTablePrefixFails | src/main/kotlin/Httpd.kt:138-164 | once a prefix fails, the whole table fails the same way |
| Routing.BindTableStep | src/main/kotlin/Httpd.kt:138-164 | rebinding one more entry extends the rebound prefix by that entry |
| Routing.BindTableAdvance | src/main/kotlin/Httpd.kt:138-164 | the loop step: entry j takes its bound handler and the half-rebound table keeps its keys |
| Routing.BindTableDone | src/main/kotlin/Httpd.kt:138-164 | once every entry is visited, the half-rebound table is the rebound table |
| Routing.BindTableStops | src/main/kotlin/Httpd.kt:138-164 | a failure at an entry stops the rebinding of the whole table |
| Routing.RebindDistinct | src/main/kotlin/Httpd.kt:149 | a half-rebound table keeps the original keys, so no key repeats |
| Routing.Ordinal | src/main/kotlin/Httpd.kt:112-114 | each method has its place in `Method.values()` order |
| Routing.BindUpToAt | src/main/kotlin/Httpd.kt:137-165 | part way through, the tables of the methods already visited are rebound and the others untouched |
| Routing.BindUpToSucceeds | src/main/kotlin/Httpd.kt:137-165 | part way through, no error has happened exactly when every table visited so far rebinds |
| Routing.BindUpToFails | src/main/kotlin/Httpd.kt:137-165 | an error, once it happens, is the outcome of the whole binding |
| Routing.BindAllSucceeds | src/main/kotlin/Httpd.kt:137-165 | the binding succeeds exactly when every method's table rebinds |
| Routing.BindAllTable | src/main/kotlin/Httpd.kt:137-165 | after a successful binding every method keeps its own table, rebound |
| Routing.BindAllError | src/main/kotlin/Httpd.kt:137-165 | a failed binding reports the error of the first method, in `Method.values()` order, whose table fails |
| Routing.BindAllEntry | src/main/kotlin/Httpd.kt:139-163 | after binding, each route holds its hooks and itself composed, wrapped when exception handlers exist |
| Routing.PortSetting | src/main/kotlin/Httpd.kt:110 | without the `server.port` property the port is 1234; a given property must parse as an Int, and the port is its parsed value |
| Routing.Server.constructor | src/main/kotlin/Httpd.kt:110-118 | a new server has an empty route table for every method, and empty hook and exception tables |
| Routing.Server.Bind | src/main/kotlin/Httpd.kt:194 | `put` into that method's table only, returning the previous handler |
| Routing.Server.GetRoute | src/main/kotlin/Httpd.kt:195 | `put` into the GET table only |
| Routing.Server.PostRoute | src/main/kotlin/Httpd.kt:196 | `put` into the POST table only |
| Routing.Server.PutRoute | src/main/kotlin/Httpd.kt:197 | `put` into the PUT table only |
| Routing.Server.DeleteRoute | src/main/kotlin/Httpd.kt:198 | `put` into the DELETE table only |
| Routing.Server.Before | src/main/kotlin/Httpd.kt:201 | `put` into the before-hooks only |
| Routing.Server.BeforeAll | src/main/kotlin/Httpd.kt:202 | a global before-hook is stored under ".*" |
| Routing.Server.After | src/main/kotlin/Httpd.kt:199 | `put` into the after-hooks only |
| Routing.Server.AfterAll | src/main/kotlin/Httpd.kt:200 | a global after-hook is stored under ".*" |
| Routing.Server.Exception | src/main/kotlin/Httpd.kt:203 | `put` into the exception table only, keyed by exact class |
| Routing.Server.BindRoutes | src/main/kotlin/Httpd.kt:136-166 | the loop over methods reports the first binding error in Method order; on success every table holds its composed routes, in place |
| Routing.Server.BindTableInPlace | src/main/kotlin/Httpd.kt:138-164 | one method's table fails exactly as its rebinding does; on success the table is replaced by the rebound table and nothing else changes |
| Routing.Server.RebindTable | src/main/kotlin/Httpd.kt:138-164 | the loop over one table's entries fails exactly as its rebinding does, with the same error, and otherwise yields the rebound table |
| Routing.Server.RebindEntry | src/main/kotlin/Httpd.kt:139-163 | one entry overwritten in place by its composed handler, wrapped when exception handlers exist; a composition error leaves it failing |
| Routing.PutTwice | src/main/kotlin/Httpd.kt:149-152 | storing the composed handler and then its wrapper leaves only the wrapper, in place |
| Routing.SameKeysDistinct | src/main/kotlin/Httpd.kt:149 | a table with the keys of a map has no repeated key |
| Routing.PutPlain | src/main/kotlin/Httpd.kt:203 | registering a user-written exception handler keeps the table user-written |
| Dispatch.Finish | src/main/kotlin/Httpd.kt:30-32 | a connection is answered exactly when the handler returns, with what it wrote |
| Dispatch.ReadRequest | src/main/kotlin/Httpd.kt:19-38 | the header loop reads exactly what the head's definition reads; a Request is built exactly when the head and the query parse |
| Dispatch.Serve | src/main/kotlin/Httpd.kt:15-34 | one connection handled on the objects answers exactly what the exchange's definition says |
| Dispatch.ExchangeRoutes | src/main/kotlin/Httpd.kt:15-38 | a well-formed request, with any of the three line ends, is served by the route its url resolves to, with the client's headers and the text after the blank line as its body |
| Dispatch.ExchangeNeedsQuery | src/main/kotlin/Httpd.kt:48-52 | a target without '=' gets no answer, whatever the routes |
| Dispatch.AnswerFramed | src/main/kotlin/Httpd.kt:62-73 | every answer is empty or starts with one whole header block |
| Dispatch.OwnStatusLines | src/main/kotlin/Httpd.kt:86-101 | the 404 and 500 status lines, spelled out |
| Dispatch.FirstSend | src/main/kotlin/Httpd.kt:62-73 | a first send without headers writes the status line, one empty line and the body |
| Dispatch.NotFoundAnswer | src/main/kotlin/Httpd.kt:188-190 | the fallback answers `HTTP/1.1 404 Not Found`, an empty line and "Resource Not Found" |
| Dispatch.ExchangeNotFound | src/main/kotlin/Httpd.kt:186-192 | a url that is no key and matches no pattern gets the 404 answer |
| Dispatch.SilentAnswer | src/main/kotlin/Httpd.kt:30-32 | a handler that sends nothing leaves the client with no status line at all |
| Dispatch.UnhandledAnswer | src/main/kotlin/Httpd.kt:151-162 | an unhandled runtime failure before any output is answered with a 500 status line and the failure's message |

## Left out

- Sockets, `start`, the accept loop, the thread pool, `System.exit` and `ssl` are left out. The model covers one connection, given as the text the client sent; the answer is the text flushed to it. Concurrency and SSL setup are outside the logic.
- `socket.close()` is left out. Only the flushed text is modelled, not the closing of the connection.
- `static` is left out because it walks the file system. It registers ordinary GET routes under `/?<relative path>`, so `GetRoute` covers what it does to the tables.
- `Application.kt`, `println(out)` and handler return values are left out. They are a demo entry point and logging, and the return values are discarded.
- Java's regex engine is left out. The `Regex` parameter stands for `toRegex` and `matches`, and no property depends on its meaning.
- Bytes and charsets are left out. The input is a text of characters as `InputStreamReader` decodes it, the output is the text written to the `PrintWriter`, and characters are Unicode scalar values rather than UTF-16 code units.
- `PrintWriter` buffering is left out. When its buffer fills, `PrintWriter` may pass text on before `flush`; the model passes text on only at `flush`, so an abandoned connection receives nothing.
- Text.ParseInt: accepts only ASCII digits, while `Integer.parseInt` also accepts other Unicode decimal digits.
- Handlers are limited to data. A Kotlin handler is any lambda; here it is built from four actions (send a fixed body, send the request body, throw, do nothing) with `plus` and the wrapper. Exception handlers are user-written handlers, without a wrapper inside.
- Routing.Server.BindRoutes: when binding fails, the model states the error but not exactly which routes were already overwritten. Calling `start` twice, which would wrap routes again, is not modelled.
- Exceptions are identified by a class-name string with a runtime flag. Exception classes are matched by exact kind only, as `exception.contains(e.javaClass)` does.
