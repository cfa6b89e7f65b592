/**
 * Reading one request from the connection: the request line and the
 * header block that Client.run reads with a BufferedReader, and the
 * character stream itself, consumed from the front.
 */
module Wire {
  import opened Wrappers
  import opened Text
  import opened OrderedMap

  /** The closed set of request methods; `Method.valueOf` accepts exactly these names. */
  datatype Method = GET | POST | PUT | DELETE | OPTIONS | HEAD | TRACE | CONNECT | PATCH {
    function Name(): string
    {
      match this
      case GET => "GET"
      case POST => "POST"
      case PUT => "PUT"
      case DELETE => "DELETE"
      case OPTIONS => "OPTIONS"
      case HEAD => "HEAD"
      case TRACE => "TRACE"
      case CONNECT => "CONNECT"
      case PATCH => "PATCH"
    }
  }

  /** `Method.values()`, in declaration order. */
  const Methods: seq<Method> := [GET, POST, PUT, DELETE, OPTIONS, HEAD, TRACE, CONNECT, PATCH]

  lemma MethodsListed(m: Method)
    ensures m in Methods
  {
  }

  /** `Method.valueOf(name)`: None stands for the IllegalArgumentException it throws. */
  function MethodNamed(name: string): (r: Option<Method>)
    ensures r.Some? ==> r.value.Name() == name
    ensures r.None? ==> forall m: Method :: m.Name() != name
  {
    if name == "GET" then Some(GET)
    else if name == "POST" then Some(POST)
    else if name == "PUT" then Some(PUT)
    else if name == "DELETE" then Some(DELETE)
    else if name == "OPTIONS" then Some(OPTIONS)
    else if name == "HEAD" then Some(HEAD)
    else if name == "TRACE" then Some(TRACE)
    else if name == "CONNECT" then Some(CONNECT)
    else if name == "PATCH" then Some(PATCH)
    else None
  }

  /** valueOf and name are inverse: each method is found under its own name. */
  lemma MethodNamedName(m: Method)
    ensures MethodNamed(m.Name()) == Some(m)
    ensures |m.Name()| > 0 && ' ' !in m.Name() && '\n' !in m.Name() && '\r' !in m.Name()
  {
    match m
    case GET => case POST => case PUT => case DELETE => case OPTIONS =>
    case HEAD => case TRACE => case CONNECT => case PATCH =>
  }

  /** Why a connection is abandoned before any handler runs. */
  datatype ParseError =
    | NoRequestLine               // the stream ended before a request line
    | UnknownMethod(name: string) // Method.valueOf failed
    | MissingToken                // the request line has fewer than three ' '-separated tokens
    | MalformedHeader(line: string) // a header line without ':'
    | MalformedQuery(piece: string) // a query piece without '=' (thrown by the Request constructor)

  predicate NoBreak(s: string)
  {
    '\n' !in s && '\r' !in s
  }

  // ----------------------------------------------------------- the stream

  /** What `read()` yields at the end of the stream: -1 turned into a Char. */
  const EndOfStream: char := '\U{FFFF}'

  /** `BufferedReader.read()`: the next character, and what is left after it. */
  function NextChar(input: string): (r: (char, string))
    ensures |input| > 0 ==> r == (input[0], input[1..])
    ensures |input| == 0 ==> r == (EndOfStream, input)
  {
    if |input| == 0 then (EndOfStream, input) else (input[0], input[1..])
  }

  /**
   * `BufferedReader.readLine()`: the text up to '\n', '\r' or "\r\n" (the
   * terminator is consumed), or up to the end of the stream; None (a null
   * line) only when nothing is left.
   */
  function NextLine(input: string): (r: Option<(string, string)>)
    ensures r.None? <==> |input| == 0
    ensures r.Some? ==> NoBreak(r.value.0) && |r.value.1| < |input|
  {
    if |input| == 0 then None
    else if input[0] == '\n' then Some(("", input[1..]))
    else if input[0] == '\r' then
      Some(("", if |input| > 1 && input[1] == '\n' then input[2..] else input[1..]))
    else
      match NextLine(input[1..])
      case None => Some(([input[0]], ""))
      case Some((line, rest)) => Some(([input[0]] + line, rest))
  }

  /** The three terminators `readLine` accepts: '\n', "\r\n" and a lone '\r'. */
  predicate Terminator(eol: string)
  {
    eol == "\n" || eol == "\r\n" || eol == "\r"
  }

  /** `eol` ends a line before `rest`: a lone '\r' is not followed by a '\n' it would merge with. */
  predicate EndsBefore(eol: string, rest: string)
  {
    Terminator(eol) && (eol == "\r" ==> |rest| == 0 || rest[0] != '\n')
  }

  /** A line followed by any of the three terminators is read back whole, and the rest is left. */
  lemma {:induction false} NextLineOf(line: string, eol: string, rest: string)
    requires NoBreak(line) && EndsBefore(eol, rest)
    ensures NextLine(line + eol + rest) == Some((line, rest))
    decreases |line|
  {
    if |line| == 0 {
      assert line + eol + rest == eol + rest;
      assert (eol + rest)[|eol|..] == rest;
      if eol == "\r" && |rest| > 0 {
        assert (eol + rest)[1] == rest[0];
      }
    } else {
      assert (line + eol + rest)[1..] == line[1..] + eol + rest;
      assert line[0] in line;
      NextLineOf(line[1..], eol, rest);
      assert [line[0]] + line[1..] == line;
    }
  }

  /**
   * Conversely, a line read is the text before a terminator, or the last
   * text of the stream: nothing between the line and the rest is lost but
   * the terminator.
   */
  lemma {:induction false} NextLineSplits(input: string)
    requires |input| > 0
    ensures var (line, rest) := NextLine(input).value;
            (rest == "" && input == line) || exists eol :: Terminator(eol) && input == line + eol + rest
    decreases |input|
  {
    var (line, rest) := NextLine(input).value;
    if input[0] == '\n' {
      assert input == line + "\n" + rest;
    } else if input[0] == '\r' {
      if |input| > 1 && input[1] == '\n' {
        assert input == line + "\r\n" + rest;
      } else {
        assert input == line + "\r" + rest;
      }
    } else if |input| == 1 {
      assert input == line;
    } else {
      NextLineSplits(input[1..]);
      var (line', rest') := NextLine(input[1..]).value;
      assert line == [input[0]] + line' && rest == rest';
      if rest' == "" && input[1..] == line' {
        assert input == line;
      } else {
        var eol :| Terminator(eol) && input[1..] == line' + eol + rest';
        assert input == line + eol + rest;
      }
    }
  }

  /** The connection's input, shared by the header parser and the body reader. */
  class Reader {
    var rest: string

    constructor (input: string)
      ensures rest == input
    {
      rest := input;
    }

    method ReadLine() returns (line: Option<string>)
      modifies this
      ensures old(NextLine(rest)).None? ==> line.None? && rest == old(rest)
      ensures old(NextLine(rest)).Some? ==>
                line == Some(old(NextLine(rest)).value.0) && rest == old(NextLine(rest)).value.1
    {
      var r := NextLine(rest);
      if r.None? {
        line := None;
      } else {
        line := Some(r.value.0);
        rest := r.value.1;
      }
    }

    method Read() returns (c: char)
      modifies this
      ensures (c, rest) == NextChar(old(rest))
    {
      c, rest := NextChar(rest).0, NextChar(rest).1;
    }
  }

  // --------------------------------------------------------- request line

  /**
   * `readLine().split(' ')` read as `Method.valueOf(it[0]), it[1], it[2]`,
   * in Kotlin's evaluation order: the method name is checked first, then
   * the presence of the two other tokens; further tokens are ignored.
   */
  function RequestLine(line: string): (r: Result<(Method, string, string), ParseError>)
    ensures r.Success? ==> ' ' !in r.value.1 && ' ' !in r.value.2
  {
    var tokens := Split(line, ' ');
    match MethodNamed(tokens[0])
    case None => Failure(UnknownMethod(tokens[0]))
    case Some(m) =>
      if |tokens| < 3 then Failure(MissingToken) else Success((m, tokens[1], tokens[2]))
  }

  /** A line of three or more tokens, starting with a method name, yields its first three tokens. */
  lemma RequestLineTokens(m: Method, target: string, version: string, extra: seq<string>)
    requires ' ' !in target && ' ' !in version
    requires forall i :: 0 <= i < |extra| ==> ' ' !in extra[i]
    ensures RequestLine(Join([m.Name(), target, version] + extra, ' ')) == Success((m, target, version))
  {
    var tokens := [m.Name(), target, version] + extra;
    TokensWithoutSpace(m, target, version, extra);
    RequestLineJoined(m, tokens);
  }

  lemma TokensWithoutSpace(m: Method, target: string, version: string, extra: seq<string>)
    requires ' ' !in target && ' ' !in version
    requires forall i :: 0 <= i < |extra| ==> ' ' !in extra[i]
    ensures var tokens := [m.Name(), target, version] + extra;
            forall i :: 0 <= i < |tokens| ==> ' ' !in tokens[i]
  {
    var tokens := [m.Name(), target, version] + extra;
    MethodNamedName(m);
    forall i | 0 <= i < |tokens|
      ensures ' ' !in tokens[i]
    {
      if i >= 3 {
        assert tokens[i] == extra[i - 3];
      }
    }
  }

  lemma RequestLineJoined(m: Method, tokens: seq<string>)
    requires |tokens| >= 3 && tokens[0] == m.Name()
    requires forall i :: 0 <= i < |tokens| ==> ' ' !in tokens[i]
    ensures RequestLine(Join(tokens, ' ')) == Success((m, tokens[1], tokens[2]))
  {
    MethodNamedName(m);
    var line := Join(tokens, ' ');
    SplitJoin(tokens, ' ');
    RequestLineOfTokens(line, tokens, m);
  }

  lemma RequestLineOfTokens(line: string, tokens: seq<string>, m: Method)
    requires Split(line, ' ') == tokens && |tokens| >= 3 && MethodNamed(tokens[0]) == Some(m)
    ensures RequestLine(line) == Success((m, tokens[1], tokens[2]))
  {
  }

  /** A request line with fewer than two spaces, or a first token that names no method, is refused. */
  lemma RequestLineRefused(line: string)
    ensures RequestLine(line).Failure? <==>
              |Split(line, ' ')| < 3 || MethodNamed(Split(line, ' ')[0]).None?
  {
  }

  // --------------------------------------------------------------- headers

  /**
   * One header line, `split(":")` read as `it[0]` and `it[1].trim()`: the
   * name is the text before the first ':', the value the trimmed text
   * between the first and the second ':'. None stands for the
   * IndexOutOfBoundsException of a line without ':'.
   */
  function HeaderField(line: string): (r: Option<(string, string)>)
    ensures r.None? <==> ':' !in line
  {
    SplitOne(line, ':');
    var pieces := Split(line, ':');
    if |pieces| < 2 then None else Some((pieces[0], Trim(pieces[1])))
  }

  /** `Host: a:1234` has the value `a`: only the second ':'-piece is kept. */
  lemma HeaderFieldPieces(name: string, value: string, more: string)
    requires ':' !in name && ':' !in value
    ensures HeaderField(name + ":" + value) == Some((name, Trim(value)))
    ensures HeaderField(name + ":" + value + ":" + more) == Some((name, Trim(value)))
  {
    SplitAfter(name, ':', value);
    SplitWithout(value, ':');
    assert name + ":" + value == name + [':'] + value;
    SplitAfter(name, ':', value + ":" + more);
    SplitAfter(value, ':', more);
    assert name + ":" + value + ":" + more == name + [':'] + (value + [':'] + more);
  }

  /**
   * `lineSequence().takeWhile(String::isNotBlank).forEach { put(...) }`:
   * lines are read until the first blank one (which is consumed) or the end
   * of the stream, each one put into the insertion-ordered header map.
   */
  function HeadersFrom(acc: Table<string, string>, input: string): (r: Result<(Table<string, string>, string), ParseError>)
    ensures r.Success? ==> |r.value.1| <= |input|
    decreases |input|
  {
    match NextLine(input)
    case None => Success((acc, input))
    case Some((line, rest)) =>
      if IsBlank(line) then Success((acc, rest))
      else
        match HeaderField(line)
        case None => Failure(MalformedHeader(line))
        case Some((name, value)) => HeadersFrom(Put(acc, name, value), rest)
  }

  /** A header as a client writes it: `Name: value` and a line terminator. */
  function FieldLine(field: (string, string), eol: string): string
  {
    field.0 + ": " + field.1 + eol
  }

  function FieldLines(fields: seq<(string, string)>, eol: string): string
  {
    if |fields| == 0 then "" else FieldLine(fields[0], eol) + FieldLines(fields[1..], eol)
  }

  /** A header the parser gives back unchanged. */
  predicate WellFormedField(field: (string, string))
  {
    ':' !in field.0 && NoBreak(field.0) && ':' !in field.1 && NoBreak(field.1)
    && (|field.1| == 0 || (!IsWhitespace(field.1[0]) && !IsWhitespace(field.1[|field.1| - 1])))
  }

  /** One header line reads back as its field. */
  lemma FieldLineRead(field: (string, string), eol: string, rest: string)
    requires WellFormedField(field) && EndsBefore(eol, rest)
    ensures HeadersFrom([], FieldLine(field, eol) + rest) == HeadersFrom(Put([], field.0, field.1), rest)
    ensures forall acc :: HeadersFrom(acc, FieldLine(field, eol) + rest) == HeadersFrom(Put(acc, field.0, field.1), rest)
  {
    var line := field.0 + ": " + field.1;
    FieldTextParsed(field);
    assert FieldLine(field, eol) + rest == line + eol + rest;
    NextLineOf(line, eol, rest);
  }

  /** The text of a header line, without its terminator, is one non-blank line that parses as the field. */
  lemma FieldTextParsed(field: (string, string))
    requires WellFormedField(field)
    ensures var line := field.0 + ": " + field.1;
            NoBreak(line) && !IsBlank(line) && HeaderField(line) == Some(field)
  {
    var (name, value) := field;
    var line := name + ": " + value;
    assert NoBreak(line) by {
      assert line == name + ([':', ' '] + value);
      assert '\n' !in [':', ' '] + value && '\r' !in [':', ' '] + value;
    }
    assert line[|name|] == ':';
    assert !IsBlank(line);
    assert line == name + ":" + (" " + value);
    HeaderFieldPieces(name, " " + value, "");
    assert " " + value == [' '] + value;
    TrimSkipsLead([' '], value);
    TrimmedStays(value);
  }

  /** A header line never starts with '\n': its name holds no line break, and an empty name leaves ':' first. */
  lemma FieldLineLead(field: (string, string), eol: string, after: string)
    requires NoBreak(field.0)
    ensures |FieldLine(field, eol) + after| > 0 && (FieldLine(field, eol) + after)[0] != '\n'
  {
    var name := field.0;
    if |name| > 0 {
      assert name[0] in name;
    }
  }

  /** A header block, with its blank line, never starts with a '\n' that a lone '\r' before it would absorb. */
  lemma FieldLinesLead(fields: seq<(string, string)>, eol: string, body: string)
    requires forall i :: 0 <= i < |fields| ==> WellFormedField(fields[i])
    requires EndsBefore(eol, body)
    ensures EndsBefore(eol, FieldLines(fields, eol) + eol + body)
  {
    if eol == "\r" {
      if |fields| == 0 {
        assert FieldLines(fields, eol) + eol + body == eol + body;
      } else {
        assert WellFormedField(fields[0]);
        FieldLinesCons(fields, eol, body);
        FieldLineLead(fields[0], eol, FieldLines(fields[1..], eol) + eol + body);
      }
    }
  }

  lemma FieldLinesCons(fields: seq<(string, string)>, eol: string, body: string)
    requires |fields| > 0
    ensures FieldLines(fields, eol) + eol + body == FieldLine(fields[0], eol) + (FieldLines(fields[1..], eol) + eol + body)
  {
  }

  /** The header block ends at the first blank line: what follows it is left for the body. */
  lemma {:induction false} HeadersRoundTrip(acc: Table<string, string>, fields: seq<(string, string)>, eol: string, body: string)
    requires forall i :: 0 <= i < |fields| ==> WellFormedField(fields[i])
    requires EndsBefore(eol, body)
    ensures HeadersFrom(acc, FieldLines(fields, eol) + eol + body) == Success((PutAll(acc, fields), body))
    decreases |fields|
  {
    if |fields| == 0 {
      assert FieldLines(fields, eol) + eol + body == "" + eol + body;
      NextLineOf("", eol, body);
    } else {
      var rest := FieldLines(fields[1..], eol) + eol + body;
      assert FieldLines(fields, eol) + eol + body == FieldLine(fields[0], eol) + rest;
      FieldLinesLead(fields[1..], eol, body);
      FieldLineRead(fields[0], eol, rest);
      HeadersRoundTrip(Put(acc, fields[0].0, fields[0].1), fields[1..], eol, body);
    }
  }

  // ---------------------------------------------------------- whole head

  /** The parsed request line and headers, before the Request object is built. */
  datatype Head = Head(verb: Method, raw: string, version: string, headers: Table<string, string>)

  /** The request line, then the header block; the rest of the input is left for the body. */
  function ParseHead(input: string): (r: Result<(Head, string), ParseError>)
    ensures r.Success? ==> |r.value.1| < |input|
  {
    match NextLine(input)
    case None => Failure(NoRequestLine)
    case Some((line, rest)) =>
      match RequestLine(line)
      case Failure(e) => Failure(e)
      case Success((m, raw, version)) =>
        match HeadersFrom([], rest)
        case Failure(e) => Failure(e)
        case Success((headers, body)) => Success((Head(m, raw, version, headers), body))
  }

  /** A request head as a client writes it, every line ended by `eol`. */
  function HeadText(m: Method, raw: string, version: string, fields: seq<(string, string)>, eol: string): string
  {
    LineText(m, raw, version) + eol + FieldLines(fields, eol) + eol
  }

  function LineText(m: Method, raw: string, version: string): string
  {
    m.Name() + " " + raw + " " + version
  }

  /**
   * Parsing what a client wrote, with any of the three line terminators,
   * gives back its method, target, version and headers, and leaves the body.
   */
  lemma ParseHeadRoundTrip(m: Method, raw: string, version: string, fields: seq<(string, string)>,
                           eol: string, body: string)
    requires ' ' !in raw && NoBreak(raw) && ' ' !in version && NoBreak(version)
    requires forall i :: 0 <= i < |fields| ==> WellFormedField(fields[i])
    requires EndsBefore(eol, body)
    ensures ParseHead(HeadText(m, raw, version, fields, eol) + body)
              == Success((Head(m, raw, version, PutAll([], fields)), body))
  {
    var line := LineText(m, raw, version);
    var rest := FieldLines(fields, eol) + eol + body;
    var fl := FieldLines(fields, eol);
    assert HeadText(m, raw, version, fields, eol) + body == line + eol + rest by {
      assert HeadText(m, raw, version, fields, eol) == line + eol + fl + eol;
      Regroup(line, eol, fl, eol, body);
    }
    MethodNamedName(m);
    assert NoBreak(line);
    FieldLinesLead(fields, eol, body);
    NextLineOf(line, eol, rest);
    RequestLineTokens(m, raw, version, []);
    assert [m.Name(), raw, version] + [] == [m.Name(), raw, version];
    JoinThree(m.Name(), raw, version, ' ');
    assert line == m.Name() + [' '] + raw + [' '] + version;
    HeadersRoundTrip([], fields, eol, body);
    ParseHeadSteps(HeadText(m, raw, version, fields, eol) + body, line, rest, m, raw, version, PutAll([], fields), body);
  }

  lemma ParseHeadSteps(input: string, line: string, rest: string, m: Method, raw: string, version: string,
                       headers: Table<string, string>, body: string)
    requires NextLine(input) == Some((line, rest))
    requires RequestLine(line) == Success((m, raw, version))
    requires HeadersFrom([], rest) == Success((headers, body))
    ensures ParseHead(input) == Success((Head(m, raw, version, headers), body))
  {
  }
}
