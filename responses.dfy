/**
 * The response side: the Status enumeration and the Response class, which
 * writes a status line and header block before the first body, then each
 * body as it comes. Writes collect in the PrintWriter's buffer until
 * `flush` moves them to the connection.
 */
module Responses {
  import opened Wrappers
  import opened Text
  import opened OrderedMap

  datatype Status = OK | Created | MovedPermanently | Found | BadRequest | NotFound | InternalServerError {
    function Code(): int
    {
      match this
      case OK => 200
      case Created => 201
      case MovedPermanently => 301
      case Found => 302
      case BadRequest => 400
      case NotFound => 404
      case InternalServerError => 500
    }

    /** The reason phrase written after the code. */
    function Reason(): string
    {
      match this
      case OK => "OK"
      case Created => "Created"
      case MovedPermanently => "Moved Permanently"
      case Found => "Found"
      case BadRequest => "Bad Request"
      case NotFound => "Not Found"
      case InternalServerError => "Internal Server Error"
    }
  }

  /** The status with a given code, if the enumeration has one. */
  function StatusOf(code: int): (r: Option<Status>)
    ensures r.Some? ==> r.value.Code() == code
  {
    if code == 200 then Some(OK)
    else if code == 201 then Some(Created)
    else if code == 301 then Some(MovedPermanently)
    else if code == 302 then Some(Found)
    else if code == 400 then Some(BadRequest)
    else if code == 404 then Some(NotFound)
    else if code == 500 then Some(InternalServerError)
    else None
  }

  /** Codes identify statuses: every status is found by its code, and each code is a three-digit one with a reason. */
  lemma StatusOfCode(s: Status)
    ensures StatusOf(s.Code()) == Some(s)
    ensures 100 <= s.Code() <= 599 && |s.Reason()| > 0
  {
  }

  /** `HTTP/1.1 <code> <reason>` and a line break. */
  function StatusLine(s: Status): string
  {
    "HTTP/1.1 " + Decimal(s.Code()) + " " + s.Reason() + "\n"
  }

  /** One `key: value` line per header, in the map's order. */
  function HeaderLines(headers: Table<string, string>): string
  {
    if |headers| == 0 then "" else HeaderLine(headers[0]) + HeaderLines(headers[1..])
  }

  function HeaderLine(header: (string, string)): string
  {
    header.0 + ": " + header.1 + "\n"
  }

  /** The header lines from entry i on: entry i's line, then the rest. */
  lemma HeaderLinesFrom(headers: Table<string, string>, i: nat, before: string, after: string)
    requires i < |headers|
    requires after == before + HeaderLine(headers[i])
    ensures after + HeaderLines(headers[i + 1..]) == before + HeaderLines(headers[i..])
  {
    assert headers[i..][1..] == headers[i + 1..];
  }

  /**
   * What the first `send` writes before its body: the status line, the
   * header lines followed by an empty line when there are headers, and
   * one more empty line in every case.
   */
  function HeaderBlock(s: Status, headers: Table<string, string>): string
  {
    StatusLine(s) + (if |headers| == 0 then "" else HeaderLines(headers) + "\n") + "\n"
  }

  /** The header block written piece by piece, after text already buffered. */
  lemma HeaderBlockPieces(p: string, s: Status, headers: Table<string, string>)
    ensures |headers| == 0 ==> p + HeaderBlock(s, headers) == p + StatusLine(s) + "\n"
    ensures |headers| > 0 ==> p + HeaderBlock(s, headers) == p + StatusLine(s) + HeaderLines(headers) + "\n" + "\n"
  {
    if |headers| == 0 {
      Nest3(p, StatusLine(s) + "", "\n");
      assert StatusLine(s) + "" == StatusLine(s);
    } else {
      Nest5(p, StatusLine(s), HeaderLines(headers), "\n", "\n");
    }
  }

  lemma Nest3(p: string, a: string, b: string)
    ensures p + (a + b) == p + a + b
  {
  }

  lemma Nest5(p: string, a: string, b: string, c: string, d: string)
    ensures p + ((a + (b + c)) + d) == p + a + b + c + d
  {
  }

  /** The header block always ends in an empty line; with headers present it ends in two. */
  lemma HeaderBlockEnds(s: Status, headers: Table<string, string>)
    ensures var b := HeaderBlock(s, headers);
            |b| >= 2 && b[|b| - 2..] == "\n\n"
            && (|headers| > 0 ==> |b| >= 3 && b[|b| - 3..] == "\n\n\n")
  {
    var b := HeaderBlock(s, headers);
    if |headers| > 0 {
      var h := HeaderLines(headers);
      assert |h| >= 1 && h[|h| - 1] == '\n' by {
        HeaderLinesEnd(headers);
      }
      assert b == StatusLine(s) + (h + "\n") + "\n";
      assert b[|b| - 3] == h[|h| - 1];
    }
  }

  lemma {:induction false} HeaderLinesEnd(headers: Table<string, string>)
    requires |headers| > 0
    ensures var h := HeaderLines(headers); |h| >= 1 && h[|h| - 1] == '\n'
  {
    if |headers| > 1 {
      HeaderLinesEnd(headers[1..]);
    }
  }

  /** The text one `send` adds to the writer: the header block only on a clean response, then the body. */
  function Emit(dirty: bool, s: Status, headers: Table<string, string>, content: string): string
  {
    (if dirty then "" else HeaderBlock(s, headers)) + content
  }

  /** The arguments of one `send` call. */
  datatype Send = Send(content: string, status: Status, headers: Table<string, string>)

  /** What a run of `send` calls writes, starting clean or dirty. */
  function EmitAll(dirty: bool, sends: seq<Send>): string
    decreases |sends|
  {
    if |sends| == 0 then ""
    else Emit(dirty, sends[0].status, sends[0].headers, sends[0].content) + EmitAll(true, sends[1..])
  }

  /** The bodies of a run of sends, concatenated. */
  function Contents(sends: seq<Send>): string
  {
    if |sends| == 0 then "" else sends[0].content + Contents(sends[1..])
  }

  /** Once a response is dirty, sends write their bodies and nothing else. */
  lemma {:induction false} EmitDirty(sends: seq<Send>)
    ensures EmitAll(true, sends) == Contents(sends)
  {
    if |sends| > 0 {
      EmitDirty(sends[1..]);
    }
  }

  /**
   * Only the first send writes a header block, with its own status and
   * headers; the status and headers of every later send are ignored.
   */
  lemma OneHeaderBlock(sends: seq<Send>)
    requires |sends| > 0
    ensures EmitAll(false, sends) == HeaderBlock(sends[0].status, sends[0].headers) + Contents(sends)
  {
    EmitDirty(sends[1..]);
  }

  class Response {
    /** The status a send uses when none is given; nothing in the server changes it. */
    const status: Status
    /** Whether the header block has been written. */
    var dirty: bool
    /** Text the PrintWriter holds but has not yet passed on. */
    var pending: string
    /** Text already flushed to the connection. */
    var wire: string

    constructor ()
      ensures status == OK && !dirty && pending == "" && wire == ""
    {
      status := OK;
      dirty := false;
      pending := "";
      wire := "";
    }

    /** `send(content, status, headers)`. */
    method Send(content: string, s: Status, headers: Table<string, string>)
      modifies this
      ensures dirty
      ensures pending == old(pending) + Emit(old(dirty), s, headers, content)
      ensures wire == old(wire)
    {
      if !dirty {
        pending := pending + StatusLine(s);
        ghost var start := pending;
        if |headers| > 0 {
          var i := 0;
          while i < |headers|
            invariant 0 <= i <= |headers|
            invariant pending + HeaderLines(headers[i..]) == start + HeaderLines(headers)
            invariant wire == old(wire) && !dirty
          {
            var before := pending;
            pending := pending + HeaderLine(headers[i]);
            HeaderLinesFrom(headers, i, before, pending);
            i := i + 1;
          }
          assert pending == start + HeaderLines(headers);
          pending := pending + "\n";
        }
        pending := pending + "\n";
        HeaderBlockPieces(old(pending), s, headers);
        dirty := true;
      } else {
        assert pending == old(pending) + "";
      }
      Nest3(old(pending), if old(dirty) then "" else HeaderBlock(s, headers), content);
      pending := pending + content;
    }

    /** `flush()`: everything written so far reaches the connection. */
    method Flush()
      modifies this
      ensures wire == old(wire) + old(pending) && pending == ""
      ensures dirty == old(dirty)
    {
      wire := wire + pending;
      pending := "";
    }
  }
}
