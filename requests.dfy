/**
 * The Request data class: `url` and `query` derived from the raw target
 * when the object is built, and `content`, the body read lazily, once,
 * from the connection stream left after the headers.
 */
module Requests {
  import opened Wrappers
  import opened Text
  import opened OrderedMap
  import opened Failures
  import opened Wire

  // ------------------------------------------------ regex replacement

  /**
   * The characters Java's `.` does not match: a `.*` in the two
   * replacement patterns stops at them, so each line is rewritten on its own.
   */
  predicate IsLineTerminator(c: char)
  {
    c == '\n' || c == '\r' || c as int == 0x85 || c as int == 0x2028 || c as int == 0x2029
  }

  predicate OneLine(s: string)
  {
    forall i :: 0 <= i < |s| ==> !IsLineTerminator(s[i])
  }

  /** The index of the first line terminator, or |s| when there is none. */
  function LineEnd(s: string): (j: nat)
    ensures j <= |s| && OneLine(s[..j])
    ensures j < |s| ==> IsLineTerminator(s[j])
  {
    if |s| == 0 || IsLineTerminator(s[0]) then 0
    else
      var j := 1 + LineEnd(s[1..]);
      assert forall i :: 1 <= i < j ==> s[..j][i] == s[1..][..j - 1][i - 1];
      j
  }

  /**
   * `replace(regex, "")` for a pattern whose matches never contain a line
   * terminator: each line (the text between terminators) is rewritten by
   * f, and the terminators stay.
   */
  function PerLine(s: string, f: string -> string): string
    decreases |s|
  {
    var j := LineEnd(s);
    if j == |s| then f(s) else f(s[..j]) + [s[j]] + PerLine(s[j + 1..], f)
  }

  /** What is left of a line once everything from the first of the marks on is cut. */
  function CutAt(s: string, marks: set<char>): (r: string)
    ensures |r| <= |s| && r == s[..|r|]
    ensures forall i :: 0 <= i < |r| ==> r[i] !in marks
    ensures |r| < |s| ==> s[|r|] in marks
  {
    if |s| == 0 || s[0] in marks then ""
    else [s[0]] + CutAt(s[1..], marks)
  }

  /** The text after the last c, or all of s when c does not occur. */
  function AfterLast(s: string, c: char): (r: string)
    ensures |r| <= |s| && r == s[|s| - |r|..]
    ensures c !in r
    ensures |r| < |s| ==> s[|s| - |r| - 1] == c
  {
    if |s| == 0 || s[|s| - 1] == c then ""
    else
      var r := AfterLast(s[..|s| - 1], c) + [s[|s| - 1]];
      assert s[..|s| - 1][|s| - 1 - (|r| - 1)..] + [s[|s| - 1]] == s[|s| - |r|..];
      r
  }

  /** `[#?].*` on one line: cut at the first '?' or '#'. */
  function UrlLine(line: string): string
  {
    CutAt(line, {'?', '#'})
  }

  /** `.*\?|#.*` on one line: drop everything through the last '?', then everything from the first '#'. */
  function QueryLine(line: string): string
  {
    CutAt(AfterLast(line, '?'), {'#'})
  }

  /** `raw.replace("""[#?].*""".toRegex(), "")`. */
  function Url(raw: string): string
  {
    PerLine(raw, UrlLine)
  }

  /** `raw.replace(""".*\?|#.*""".toRegex(), "")`: the text the query map is built from. */
  function QueryText(raw: string): string
  {
    PerLine(raw, QueryLine)
  }

  /** If f never produces c and c is no line terminator, the rewritten text has no c. */
  lemma {:induction false} PerLineAvoids(s: string, f: string -> string, c: char)
    requires !IsLineTerminator(c)
    requires forall x :: c !in f(x)
    ensures c !in PerLine(s, f)
    decreases |s|
  {
    var j := LineEnd(s);
    if j < |s| {
      PerLineAvoids(s[j + 1..], f, c);
    }
  }

  /** If f only keeps characters, so does the rewriting. */
  lemma {:induction false} PerLineKeeps(s: string, f: string -> string, c: char)
    requires forall x :: c in f(x) ==> c in x
    ensures c in PerLine(s, f) ==> c in s
    decreases |s|
  {
    var j := LineEnd(s);
    if j < |s| {
      PerLineKeeps(s[j + 1..], f, c);
      if c in PerLine(s, f) {
        var r := PerLine(s, f);
        assert r == f(s[..j]) + [s[j]] + PerLine(s[j + 1..], f);
        if c in f(s[..j]) {
          assert c in s[..j];
        } else if c == s[j] {
        } else {
          assert c in s[j + 1..];
        }
      }
    }
  }

  /** If f leaves lines without the marks alone, a text without marks is left alone. */
  lemma {:induction false} PerLineIdentity(s: string, f: string -> string, marks: set<char>)
    requires forall x :: (forall i :: 0 <= i < |x| ==> x[i] !in marks) ==> f(x) == x
    requires forall i :: 0 <= i < |s| ==> s[i] !in marks
    ensures PerLine(s, f) == s
    decreases |s|
  {
    var j := LineEnd(s);
    if j < |s| {
      PerLineIdentity(s[j + 1..], f, marks);
      assert forall i :: 0 <= i < j ==> s[..j][i] !in marks;
      assert s[..j] + [s[j]] + s[j + 1..] == s;
    }
  }

  /** The url holds neither '?' nor '#'. */
  lemma UrlUnmarked(raw: string)
    ensures '?' !in Url(raw) && '#' !in Url(raw)
  {
    forall x ensures '?' !in UrlLine(x) && '#' !in UrlLine(x) {
      var r := UrlLine(x);
      assert forall i :: 0 <= i < |r| ==> r[i] != '?' && r[i] != '#';
    }
    PerLineAvoids(raw, UrlLine, '?');
    PerLineAvoids(raw, UrlLine, '#');
  }

  /** On a one-line target, the url is the target cut just before its first '?' or '#'. */
  lemma UrlCut(raw: string)
    requires OneLine(raw)
    ensures var u := Url(raw);
            |u| <= |raw| && u == raw[..|u|]
            && (|u| < |raw| ==> raw[|u|] == '?' || raw[|u|] == '#')
  {
  }

  /** A target with neither '?' nor '#' is its own url. */
  lemma UrlPlain(raw: string)
    requires '?' !in raw && '#' !in raw
    ensures Url(raw) == raw
  {
    var marks := {'?', '#'};
    forall x | forall i :: 0 <= i < |x| ==> x[i] !in marks
      ensures UrlLine(x) == x
    {
      assert |UrlLine(x)| == |x|;
    }
    PerLineIdentity(raw, UrlLine, marks);
  }

  /** On a one-line target, the query text is the part after the last '?' (all of it if none), cut at '#'. */
  lemma QueryTextCut(raw: string)
    requires OneLine(raw)
    ensures QueryText(raw) == CutAt(AfterLast(raw, '?'), {'#'})
    ensures '?' !in raw ==> QueryText(raw) == CutAt(raw, {'#'})
  {
    if '?' !in raw {
      assert AfterLast(raw, '?') == raw;
    }
  }

  // ---------------------------------------------------------------- query

  /**
   * `.split("&").map { it.split("=").let { it[0] to it[1] } }`: each piece
   * becomes the pair of its first two '='-pieces; the first piece without
   * '=' raises the IndexOutOfBoundsException that aborts construction.
   */
  function QueryPairs(pieces: seq<string>): (r: Result<seq<(string, string)>, ParseError>)
    ensures r.Success? <==> forall i :: 0 <= i < |pieces| ==> '=' in pieces[i]
    ensures r.Success? ==> |r.value| == |pieces|
    ensures r.Success? ==> forall i :: 0 <= i < |pieces| ==>
              '=' !in r.value[i].0 && '=' !in r.value[i].1
              && |r.value[i].0| < |pieces[i]| && r.value[i].0 == pieces[i][..|r.value[i].0|]
              && pieces[i][|r.value[i].0|] == '='
    ensures r.Success? ==> forall i :: 0 <= i < |pieces| ==>
              |Split(pieces[i], '=')| >= 2 && r.value[i] == (Split(pieces[i], '=')[0], Split(pieces[i], '=')[1])
  {
    if |pieces| == 0 then Success([])
    else
      var parts := Split(pieces[0], '=');
      SplitOne(pieces[0], '=');
      if |parts| < 2 then Failure(MalformedQuery(pieces[0]))
      else
        match QueryPairs(pieces[1..])
        case Failure(e) => Failure(e)
        case Success(rest) =>
          PieceOpens(pieces[0]);
          assert forall i :: 1 <= i < |pieces| ==> pieces[i] == pieces[1..][i - 1];
          Success([(parts[0], parts[1])] + rest)
  }

  /** The first '='-piece is the text before the first '='. */
  lemma {:induction false} PieceOpens(piece: string)
    requires '=' in piece
    ensures var parts := Split(piece, '=');
            |parts| >= 2 && |parts[0]| < |piece| && parts[0] == piece[..|parts[0]|] && piece[|parts[0]|] == '='
    decreases |piece|
  {
    if piece[0] != '=' {
      assert '=' in piece[1..] by {
        var k :| 0 <= k < |piece| && piece[k] == '=';
        assert piece[1..][k - 1] == '=';
      }
      PieceOpens(piece[1..]);
      var rest := Split(piece[1..], '=');
      assert piece[..1 + |rest[0]|] == [piece[0]] + piece[1..][..|rest[0]|];
    }
  }

  /** `.toMap()` over the pairs: a later duplicate key overwrites an earlier one, in first-insertion position. */
  function Query(raw: string): (r: Result<Table<string, string>, ParseError>)
    ensures r.Success? ==> Distinct(r.value)
  {
    match QueryPairs(Split(QueryText(raw), '&'))
    case Failure(e) => Failure(e)
    case Success(pairs) =>
      PutAllDistinct([], pairs);
      Success(PutAll([], pairs))
  }

  /** A target without '=' cannot be built into a Request; this includes every target without a query (`/hello`). */
  lemma QueryNeedsEquals(raw: string)
    requires '=' !in raw
    ensures Query(raw).Failure?
  {
    forall x ensures '=' in QueryLine(x) ==> '=' in x {
      var a := AfterLast(x, '?');
      var r := CutAt(a, {'#'});
      if '=' in r {
        var i :| 0 <= i < |r| && r[i] == '=';
        assert a[i] == '=';
        assert x[|x| - |a| + i] == '=';
      }
    }
    PerLineKeeps(raw, QueryLine, '=');
    var pieces := Split(QueryText(raw), '&');
    JoinSplit(QueryText(raw), '&');
    JoinKeeps(pieces, '&', '=');
  }

  /** The first piece of a split lies inside the text. */
  lemma {:induction false} JoinKeeps(pieces: seq<string>, d: char, c: char)
    requires |pieces| >= 1
    ensures c in pieces[0] ==> c in Join(pieces, d)
  {
    if |pieces| > 1 && c in pieces[0] {
      var i :| 0 <= i < |pieces[0]| && pieces[0][i] == c;
      assert Join(pieces, d)[i] == c;
    }
  }

  /** Of several pieces with the same key, the last one decides its value. */
  lemma QueryLastWins(raw: string, i: nat)
    requires Query(raw).Success?
    requires var pairs := QueryPairs(Split(QueryText(raw), '&')).value;
             i < |pairs| && forall j :: i < j < |pairs| ==> pairs[j].0 != pairs[i].0
    ensures var pairs := QueryPairs(Split(QueryText(raw), '&')).value;
            Get(Query(raw).value, pairs[i].0) == Some(pairs[i].1)
  {
    var pairs := QueryPairs(Split(QueryText(raw), '&')).value;
    GetPutAllLast([], pairs, i);
  }

  /** A character a client may write literally inside a query key or value. */
  predicate QueryChar(c: char)
  {
    Unmarked(c) && c != '=' && c != '&'
  }

  /** A character that neither ends the target's line nor opens its query or fragment. */
  predicate Unmarked(c: char)
  {
    c != '?' && c != '#' && !IsLineTerminator(c)
  }

  predicate QueryWord(s: string)
  {
    forall i :: 0 <= i < |s| ==> QueryChar(s[i])
  }

  /** The `key=value` pieces a client writes for its pairs. */
  function Pieces(pairs: seq<(string, string)>): (r: seq<string>)
    ensures |r| == |pairs|
  {
    if |pairs| == 0 then [] else [pairs[0].0 + "=" + pairs[0].1] + Pieces(pairs[1..])
  }

  /** The query string `k1=v1&k2=v2...` for the pairs. */
  function QueryString(pairs: seq<(string, string)>): string
  {
    Join(Pieces(pairs), '&')
  }

  lemma {:induction false} PieceAt(pairs: seq<(string, string)>, i: nat)
    requires i < |pairs|
    ensures Pieces(pairs)[i] == pairs[i].0 + "=" + pairs[i].1
    decreases i
  {
    if i > 0 {
      PieceAt(pairs[1..], i - 1);
    }
  }

  /** Each written piece reads back as its pair. */
  lemma {:induction false} PiecesRead(pairs: seq<(string, string)>)
    requires forall i :: 0 <= i < |pairs| ==> QueryWord(pairs[i].0) && QueryWord(pairs[i].1)
    ensures QueryPairs(Pieces(pairs)) == Success(pairs)
    decreases |pairs|
  {
    if |pairs| > 0 {
      var (k, v) := pairs[0];
      assert QueryWord(k) && QueryWord(v);
      SplitAfter(k, '=', v);
      SplitWithout(v, '=');
      assert k + "=" + v == k + ['='] + v;
      assert Pieces(pairs)[1..] == Pieces(pairs[1..]);
      PiecesRead(pairs[1..]);
      assert [(k, v)] + pairs[1..] == pairs;
    }
  }

  /** The pieces hold no '&', and nothing that ends the line or opens a fragment. */
  lemma PiecesUnmarked(pairs: seq<(string, string)>)
    requires forall i :: 0 <= i < |pairs| ==> QueryWord(pairs[i].0) && QueryWord(pairs[i].1)
    ensures forall i :: 0 <= i < |pairs| ==> '&' !in Pieces(pairs)[i]
    ensures forall i, j :: 0 <= i < |pairs| && 0 <= j < |Pieces(pairs)[i]| ==> Unmarked(Pieces(pairs)[i][j])
  {
    forall i | 0 <= i < |pairs|
      ensures '&' !in Pieces(pairs)[i]
      ensures forall j :: 0 <= j < |Pieces(pairs)[i]| ==> Unmarked(Pieces(pairs)[i][j])
    {
      PieceAt(pairs, i);
      var (k, v) := pairs[i];
      assert QueryWord(k) && QueryWord(v);
      var p := k + "=" + v;
      forall j | 0 <= j < |p|
        ensures p[j] != '&' && Unmarked(p[j])
      {
        if j < |k| {
          assert p[j] == k[j];
        } else if j > |k| {
          assert p[j] == v[j - |k| - 1];
        }
      }
    }
  }

  /** Gluing unmarked pieces with an unmarked delimiter gives unmarked text. */
  lemma {:induction false} JoinUnmarked(pieces: seq<string>, d: char)
    requires Unmarked(d)
    requires forall i, j :: 0 <= i < |pieces| && 0 <= j < |pieces[i]| ==> Unmarked(pieces[i][j])
    ensures forall j :: 0 <= j < |Join(pieces, d)| ==> Unmarked(Join(pieces, d)[j])
    decreases |pieces|
  {
    if |pieces| > 1 {
      JoinUnmarked(pieces[1..], d);
      var rest := Join(pieces[1..], d);
      forall j | 0 <= j < |Join(pieces, d)|
        ensures Unmarked(Join(pieces, d)[j])
      {
        if j < |pieces[0]| {
          assert Join(pieces, d)[j] == pieces[0][j];
        } else if j > |pieces[0]| {
          assert Join(pieces, d)[j] == rest[j - |pieces[0]| - 1];
        }
      }
    } else if |pieces| == 1 {
      assert Join(pieces, d) == pieces[0];
    }
  }

  /** The text after the last c is what follows an occurrence of c with none after it. */
  lemma {:induction false} AfterLastOf(a: string, c: char, b: string)
    requires c !in b
    ensures AfterLast(a + [c] + b, c) == b
    decreases |b|
  {
    var s := a + [c] + b;
    if |b| > 0 {
      assert s[..|s| - 1] == a + [c] + b[..|b| - 1];
      assert c !in b[..|b| - 1] by {
        assert forall i :: 0 <= i < |b| - 1 ==> b[..|b| - 1][i] == b[i];
      }
      AfterLastOf(a, c, b[..|b| - 1]);
      assert s[|s| - 1] == b[|b| - 1];
      assert b[..|b| - 1] + [b[|b| - 1]] == b;
    }
  }

  /**
   * A target written as `path?k1=v1&k2=v2...` is built into the query map
   * of exactly those pairs, inserted in order (`/p?a=1` stores `a` with
   * the value `1`).
   */
  lemma QueryWritten(path: string, pairs: seq<(string, string)>)
    requires OneLine(path) && |pairs| >= 1
    requires forall i :: 0 <= i < |pairs| ==> QueryWord(pairs[i].0) && QueryWord(pairs[i].1)
    ensures Query(path + "?" + QueryString(pairs)) == Success(PutAll([], pairs))
  {
    PiecesUnmarked(pairs);
    JoinUnmarked(Pieces(pairs), '&');
    QueryTextOf(path, QueryString(pairs));
    SplitJoin(Pieces(pairs), '&');
    PiecesRead(pairs);
  }

  /** The query text of `path?text` is text, when text neither ends the line nor holds '?' or '#'. */
  lemma QueryTextOf(path: string, text: string)
    requires OneLine(path)
    requires forall j :: 0 <= j < |text| ==> Unmarked(text[j])
    ensures QueryText(path + "?" + text) == text
  {
    var raw := path + "?" + text;
    assert OneLine(raw) by {
      forall i | 0 <= i < |raw|
        ensures !IsLineTerminator(raw[i])
      {
        if i > |path| {
          assert raw[i] == text[i - |path| - 1];
        } else if i < |path| {
          assert raw[i] == path[i];
        }
      }
    }
    assert '?' !in text && '#' !in text;
    assert raw == path + ['?'] + text;
    AfterLastOf(path, '?', text);
    assert |CutAt(text, {'#'})| == |text|;
    QueryTextCut(raw);
  }

  /** `/p?a=1` stores `a` with the value `1`. */
  lemma QueryExample()
    ensures Query("/p?a=1") == Success([("a", "1")])
  {
    var pairs := [("a", "1")];
    assert QueryWord("a") && QueryWord("1");
    QueryWritten("/p", pairs);
    assert pairs[1..] == [];
    assert Pieces(pairs) == ["a" + "=" + "1"] + Pieces([]);
    assert "a" + "=" + "1" == "a=1";
    assert "/p?a=1" == "/p" + "?" + QueryString(pairs);
  }

  // --------------------------------------------------------------- content

  /**
   * `headers.getOrDefault("Content-Length", "0").toInt()`: the declared
   * body length, or the NumberFormatException that text raises.
   */
  function ContentLength(headers: Table<string, string>): (r: Result<int, Failure>)
    ensures Get(headers, "Content-Length").None? ==> r == Success(0)
    ensures r.Success? ==> MinInt <= r.value <= MaxInt
    ensures Get(headers, "Content-Length").Some? ==>
              (r.Failure? <==> ParseInt(Get(headers, "Content-Length").value).None?)
    ensures Get(headers, "Content-Length").Some? && r.Success? ==>
              Some(r.value) == ParseInt(Get(headers, "Content-Length").value)
  {
    var text := Get(headers, "Content-Length").GetOr("0");
    assert "0"[..0] == "";
    match ParseInt(text)
    case None => Failure(NumberFormat(text))
    case Some(n) => Success(n)
  }

  /** k end-of-stream characters. */
  function Padding(k: nat): (p: string)
    ensures |p| == k && forall i :: 0 <= i < k ==> p[i] == EndOfStream
  {
    seq(k, _ => EndOfStream)
  }

  /**
   * `(1..k).fold("") { acc, _ -> acc + stream.read().toChar() }`: exactly
   * k characters, the end of the stream reading as U+FFFF.
   */
  function ReadN(input: string, k: nat): (r: (string, string))
    ensures |r.0| == k
    ensures k <= |input| ==> r == (input[..k], input[k..])
    ensures k > |input| ==> r == (input + Padding(k - |input|), "")
  {
    if k == 0 then ("", input)
    else
      var (acc, rest) := ReadN(input, k - 1);
      var (c, rest') := NextChar(rest);
      if k <= |input| then
        assert input[..k] == input[..k - 1] + [input[k - 1]];
        (acc + [c], rest')
      else
        assert Padding(k - |input|) == Padding(k - 1 - |input|) + [EndOfStream];
        assert k - 1 == |input| ==> acc == input + Padding(0);
        assert acc + [c] == input + Padding(k - |input|);
        (acc + [c], rest')
  }

  /**
   * The `content` property: a cached value is returned as it is; otherwise
   * the declared length is read from the stream and cached. A length that
   * cannot be parsed throws before anything is read, and leaves the cache
   * empty. The result, the new cache and the stream left.
   */
  function Body(headers: Table<string, string>, cache: Option<string>, input: string)
    : (Result<string, Failure>, Option<string>, string)
  {
    if cache.Some? then (Success(cache.value), cache, input)
    else
      match ContentLength(headers)
      case Failure(f) => (Failure(f), cache, input)
      case Success(n) =>
        var (body, rest) := ReadN(input, if n < 0 then 0 else n);
        (Success(body), Some(body), rest)
  }

  /** An access only consumes the stream from its front, and a cached body stays cached. */
  lemma BodyConsumes(headers: Table<string, string>, cache: Option<string>, input: string)
    ensures var (_, c, rest) := Body(headers, cache, input);
            |rest| <= |input| && rest == input[|input| - |rest|..]
            && (cache.Some? ==> c == cache)
  {
    if cache.None? && ContentLength(headers).Success? {
      var n := ContentLength(headers).value;
      var k := if n < 0 then 0 else n;
      if k > |input| {
        assert input[|input|..] == "";
      }
    }
  }

  /** The first access consumes exactly the declared number of characters and caches them. */
  lemma BodyFirstRead(headers: Table<string, string>, input: string, n: nat)
    requires ContentLength(headers) == Success(n) && n <= |input|
    ensures Body(headers, None, input) == (Success(input[..n]), Some(input[..n]), input[n..])
  {
  }

  /** `Content-Length: n`, with n written in decimal, makes the first access read exactly n characters. */
  lemma BodyDeclared(headers: Table<string, string>, input: string, n: nat)
    requires Get(headers, "Content-Length") == Some(Decimal(n)) && n <= MaxInt && n <= |input|
    ensures ContentLength(headers) == Success(n)
    ensures Body(headers, None, input) == (Success(input[..n]), Some(input[..n]), input[n..])
  {
    ParseDecimal(n);
  }

  /** Without a Content-Length header the body is empty and nothing is consumed. */
  lemma BodyAbsent(headers: Table<string, string>, input: string)
    requires Get(headers, "Content-Length").None?
    ensures Body(headers, None, input) == (Success(""), Some(""), input)
  {
  }

  /** Every access after a successful one returns the same text and consumes nothing. */
  lemma BodyCached(headers: Table<string, string>, cache: Option<string>, input: string)
    requires Body(headers, cache, input).0.Success?
    ensures var (r, c, rest) := Body(headers, cache, input);
            c == Some(r.value) && Body(headers, c, rest) == (r, c, rest)
  {
  }

  /** An unreadable Content-Length fails without consuming anything, and fails again on the next access. */
  lemma BodyUnreadable(headers: Table<string, string>, input: string)
    requires Get(headers, "Content-Length").Some? && ParseInt(Get(headers, "Content-Length").value).None?
    ensures Body(headers, None, input)
              == (Failure(NumberFormat(Get(headers, "Content-Length").value)), None, input)
  {
  }

  // ----------------------------------------------------------- the class

  class Request {
    const verb: Method
    const raw: string
    const version: string
    const headers: Table<string, string>
    const stream: Reader
    const url: string
    const query: Table<string, string>
    var cache: Option<string>

    /** The data-class constructor; it throws when the query cannot be built, which callers check first. */
    constructor (verb: Method, raw: string, version: string, headers: Table<string, string>, stream: Reader)
      requires Query(raw).Success?
      ensures this.verb == verb && this.raw == raw && this.version == version
      ensures this.headers == headers && this.stream == stream
      ensures url == Url(raw) && query == Query(raw).value && cache == None
    {
      this.verb := verb;
      this.raw := raw;
      this.version := version;
      this.headers := headers;
      this.stream := stream;
      url := Url(raw);
      query := Query(raw).value;
      cache := None;
    }

    /** `req.content`. */
    method Content() returns (r: Result<string, Failure>)
      modifies this, stream
      ensures (r, cache, stream.rest) == Body(headers, old(cache), old(stream.rest))
    {
      if cache.Some? {
        return Success(cache.value);
      }
      var length := ContentLength(headers);
      if length.Failure? {
        return Failure(length.error);
      }
      var n := length.value;
      ghost var input := stream.rest;
      var acc := "";
      var i := 1;
      while i <= n
        invariant 1 <= i <= if n < 1 then 1 else n + 1
        invariant (acc, stream.rest) == ReadN(input, i - 1)
      {
        var c := stream.Read();
        acc := acc + [c];
        i := i + 1;
      }
      cache := Some(acc);
      return Success(acc);
    }
  }
}
