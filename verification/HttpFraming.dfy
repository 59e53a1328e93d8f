/**
 Reading one HTTP request off a connection, as API_gateway/router.py does: the header within a size
 limit, then a body of the announced length. The question is when the result depends on how the
 byte stream happens to be cut into chunks.
 */
module HttpFraming {
  import opened Text

  const MAX_HEADER_SIZE := 8192
  const MAX_CONTENT_LENGTH := 1048576
  const HEADER_CHUNK := 1024
  const BODY_CHUNK := 4096
  const END: string := CRLF + CRLF

  datatype Error =
    | HeaderTooLarge | ClosedInHeader | EmptyStatusLine | BadRequestLine | ContentTooLarge | ClosedInBody

  datatype Outcome = Request(verb: string, path: string, headers: seq<string>, body: string) | Failure(error: Error)

  /** How much arrives at once when the stream stands at a position: at least one byte, if any is left. */
  type Cuts = nat -> nat

  function Min(a: nat, b: nat): nat { if a <= b then a else b }

  /** The size of the chunk that `recv(n)` returns; 0 when the peer has closed. */
  function ChunkSize(data: string, cuts: Cuts, pos: nat, n: nat): (k: nat)
    requires pos <= |data| && n > 0
    ensures k <= n && pos + k <= |data| && (k == 0 <==> pos == |data|)
  {
    Min(Min(n, |data| - pos), if cuts(pos) > 0 then cuts(pos) else 1)
  }

  class Connection {
    const data: string
    const cuts: Cuts
    var pos: nat

    constructor (data: string, cuts: Cuts)
      ensures this.data == data && this.cuts == cuts && pos == 0
    {
      this.data, this.cuts, pos := data, cuts, 0;
    }

    method Recv(n: nat) returns (chunk: string)
      requires pos <= |data| && n > 0
      modifies this
      ensures pos == old(pos) + ChunkSize(data, cuts, old(pos), n) <= |data|
      ensures chunk == data[old(pos)..pos]
    {
      var k := ChunkSize(data, cuts, pos, n);
      chunk := data[pos..pos + k];
      pos := pos + k;
    }
  }

  // ---- What the header says ----

  datatype Head = Head(verb: string, path: string, headers: seq<string>, contentLength: int) | Bad(error: Error)

  predicate IsLength(line: string) { "content-length:" <= Lower(line) }

  /** The value of a header line, 0 where it is no number. */
  function LengthIn(line: string): int {
    var colon := Find(line, ":");
    if colon == -1 then 0
    else
      match PyInt(Strip(line[colon + 1..]))
      case Some(n) => n
      case None => 0
  }

  /** The first content length among the header lines, 0 without one. */
  function ContentLength(headers: seq<string>): int {
    if headers == [] then 0
    else if IsLength(headers[0]) then LengthIn(headers[0])
    else ContentLength(headers[1..])
  }

  function HeadOfLines(lines: seq<string>): Head
    requires lines != []
  {
    if lines[0] == "" then Bad(EmptyStatusLine)
    else
      var parts := Split(lines[0], " ");
      if |parts| < 3 then Bad(BadRequestLine) else Head(parts[0], parts[1], lines[1..], ContentLength(lines[1..]))
  }

  function HeadOf(header: string): Head { HeadOfLines(Split(header, CRLF)) }

  // ---- The two reading loops ----

  /** Where the header loop stops, from `pos`. */
  function HeaderPos(data: string, cuts: Cuts, pos: nat): (p: nat)
    requires pos <= |data|
    ensures pos <= p <= |data|
    decreases |data| - pos
  {
    if pos >= MAX_HEADER_SIZE || pos == |data| || Find(data[..pos], END) != -1 then pos
    else HeaderPos(data, cuts, pos + ChunkSize(data, cuts, pos, HEADER_CHUNK))
  }

  /** Where the body loop stops, from `pos`, for a body of `n` bytes that begins at `start`. */
  function BodyPos(data: string, cuts: Cuts, start: nat, n: int, pos: nat): (p: nat)
    requires start <= pos <= |data|
    ensures pos <= p <= |data|
    decreases |data| - pos
  {
    if pos - start >= n || pos == |data| then pos
    else BodyPos(data, cuts, start, n, pos + ChunkSize(data, cuts, pos, Min(BODY_CHUNK, n - (pos - start))))
  }

  /** The body, read on from where the header loop stopped. */
  function WithBody(data: string, cuts: Cuts, head: Head, start: nat, pos: nat): Outcome
    requires start <= pos <= |data|
  {
    match head
    case Bad(error) => Failure(error)
    case Head(verb, path, headers, n) =>
      if n > MAX_CONTENT_LENGTH then Failure(ContentTooLarge)
      else
        var body := data[start..BodyPos(data, cuts, start, n, pos)];
        if |body| < n then Failure(ClosedInBody) else Request(verb, path, headers, PyTake(body, n))
  }

  /** The outcome for one way of cutting the stream. */
  function Parse(data: string, cuts: Cuts): Outcome {
    var pos := HeaderPos(data, cuts, 0);
    var h := Find(data[..pos], END);
    if h == -1 then Failure(if pos >= MAX_HEADER_SIZE then HeaderTooLarge else ClosedInHeader)
    else WithBody(data, cuts, HeadOf(data[..h]), h + |END|, pos)
  }

  method ReadHeader(conn: Connection) returns (buffer: string, headerEnd: int)
    requires conn.pos == 0
    modifies conn
    ensures conn.pos == HeaderPos(conn.data, conn.cuts, 0) && buffer == conn.data[..conn.pos]
    ensures headerEnd == Find(buffer, END)
  {
    buffer, headerEnd := "", -1;
    assert Find("", END) == -1;
    while |buffer| < MAX_HEADER_SIZE && headerEnd == -1
      invariant conn.pos <= |conn.data| && buffer == conn.data[..conn.pos] && headerEnd == Find(buffer, END)
      invariant HeaderPos(conn.data, conn.cuts, 0) == HeaderPos(conn.data, conn.cuts, conn.pos)
      decreases |conn.data| - conn.pos
    {
      var chunk := conn.Recv(HEADER_CHUNK);
      if chunk == "" {
        break;
      }
      buffer := buffer + chunk;
      headerEnd := Find(buffer, END);
    }
  }

  method ReadBody(conn: Connection, start: nat, n: int) returns (body: string)
    requires start <= conn.pos <= |conn.data|
    modifies conn
    ensures body == conn.data[start..BodyPos(conn.data, conn.cuts, start, n, old(conn.pos))]
  {
    body := conn.data[start..conn.pos];
    while |body| < n
      invariant start <= conn.pos <= |conn.data| && body == conn.data[start..conn.pos]
      invariant BodyPos(conn.data, conn.cuts, start, n, old(conn.pos)) ==
                BodyPos(conn.data, conn.cuts, start, n, conn.pos)
      decreases |conn.data| - conn.pos
    {
      var chunk := conn.Recv(Min(BODY_CHUNK, n - |body|));
      if chunk == "" {
        break;
      }
      body := body + chunk;
    }
  }

  /** The first header line that gives a length decides. */
  method FindContentLength(headers: seq<string>) returns (n: int)
    ensures n == ContentLength(headers)
  {
    n := 0;
    for i := 0 to |headers|
      invariant ContentLength(headers) == ContentLength(headers[i..])
    {
      if IsLength(headers[i]) {
        return LengthIn(headers[i]);
      }
    }
  }

  method ParseHttpRequest(conn: Connection) returns (r: Outcome)
    requires conn.pos == 0
    modifies conn
    ensures r == Parse(conn.data, conn.cuts)
  {
    var buffer, headerEnd := ReadHeader(conn);
    if headerEnd == -1 {
      return Failure(if |buffer| >= MAX_HEADER_SIZE then HeaderTooLarge else ClosedInHeader);
    }
    var lines := Split(buffer[..headerEnd], CRLF);
    assert buffer[..headerEnd] == conn.data[..headerEnd];
    if lines[0] == "" {
      return Failure(EmptyStatusLine);
    }
    var parts := Split(lines[0], " ");
    if |parts| < 3 {
      return Failure(BadRequestLine);
    }
    var n := FindContentLength(lines[1..]);
    if n > MAX_CONTENT_LENGTH {
      return Failure(ContentTooLarge);
    }
    var body := ReadBody(conn, headerEnd + |END|, n);
    if |body| < n {
      return Failure(ClosedInBody);
    }
    r := Request(parts[0], parts[1], lines[1..], PyTake(body, n));
  }
}
