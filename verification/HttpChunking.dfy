/**
 When the request read off a connection does not depend on how the stream was cut, exactly; and
 that the request the frontend prints is read back, however it is cut.
 */
module HttpChunking {
  import opened Text
  import opened TextFacts
  import opened HttpFraming

  /** Where the header of the whole stream ends, or -1. */
  function HeaderEnd(data: string): int { Find(data, END) }

  /**
   The outcome by the bytes alone. A header must end within the limit; the body is exactly the
   announced number of bytes after it.
   */
  function Whole(data: string): Outcome {
    var h := HeaderEnd(data);
    if h == -1 || h + 4 > 8192 then
      Failure(if |data| >= 8192 then HeaderTooLarge else ClosedInHeader)
    else
      match HeadOf(data[..h])
      case Bad(error) => Failure(error)
      case Head(verb, path, headers, n) =>
        if n > 1048576 then Failure(ContentTooLarge)
        else if h + 4 + n > |data| then Failure(ClosedInBody)
        else Request(verb, path, headers, if n < 0 then "" else data[h + 4..h + 4 + n])
  }

  // ---- What the loops read ----

  lemma {:induction false} FindInPrefix(data: string, p: nat)
    requires p <= |data|
    ensures Find(data[..p], END) ==
            if HeaderEnd(data) != -1 && HeaderEnd(data) + |END| <= p then HeaderEnd(data) else -1
  {
    var h, i := HeaderEnd(data), Find(data[..p], END);
    forall j ensures At(data[..p], END, j) <==> At(data, END, j) && j + |END| <= p {
      if 0 <= j && j + |END| <= p {
        assert data[..p][j..j + |END|] == data[j..j + |END|];
      }
    }
    if h != -1 && h + |END| <= p {
      assert At(data[..p], END, h);
    }
  }

  /** A header that ends within the limit is found, with less than one chunk read beyond it. */
  lemma {:induction false} HeaderFound(data: string, cuts: Cuts, pos: nat)
    requires pos <= |data|
    requires HeaderEnd(data) != -1 && HeaderEnd(data) + |END| <= MAX_HEADER_SIZE
    requires pos < HeaderEnd(data) + |END| + HEADER_CHUNK
    ensures HeaderEnd(data) + |END| <= HeaderPos(data, cuts, pos) < HeaderEnd(data) + |END| + HEADER_CHUNK
    decreases |data| - pos
  {
    FindInPrefix(data, pos);
    if pos < HeaderEnd(data) + |END| {
      HeaderFound(data, cuts, pos + ChunkSize(data, cuts, pos, HEADER_CHUNK));
    }
  }

  /** Without a header end that can be found, the loop reads to the limit or to the end of the stream. */
  lemma {:induction false} HeaderNotFound(data: string, cuts: Cuts, pos: nat)
    requires pos <= |data| && pos < MAX_HEADER_SIZE + HEADER_CHUNK
    requires HeaderEnd(data) == -1 || HeaderEnd(data) + |END| >= MAX_HEADER_SIZE + HEADER_CHUNK
    ensures Find(data[..HeaderPos(data, cuts, pos)], END) == -1
    ensures HeaderPos(data, cuts, pos) >= MAX_HEADER_SIZE <==> |data| >= MAX_HEADER_SIZE
    decreases |data| - pos
  {
    FindInPrefix(data, pos);
    if pos < MAX_HEADER_SIZE && pos < |data| {
      HeaderNotFound(data, cuts, pos + ChunkSize(data, cuts, pos, HEADER_CHUNK));
    }
  }

  /** The body loop reads the announced bytes, or all there are. */
  lemma {:induction false} BodyRead(data: string, cuts: Cuts, start: nat, n: int, pos: nat)
    requires start <= pos <= |data|
    ensures var p := BodyPos(data, cuts, start, n, pos); p - start >= n || p == |data|
    ensures n <= pos - start ==> BodyPos(data, cuts, start, n, pos) == pos
    decreases |data| - pos
  {
    if pos - start < n && pos < |data| {
      BodyRead(data, cuts, start, n, pos + ChunkSize(data, cuts, pos, Min(BODY_CHUNK, n - (pos - start))));
    }
  }

  // ---- When the cuts do not matter ----

  /** The length the header announces is negative. */
  predicate NegativeLength(data: string) {
    var h := HeaderEnd(data);
    h != -1 && (match HeadOf(data[..h]) case Head(_, _, _, n) => n < 0 case Bad(_) => false)
  }

  function AnnouncedLength(data: string): int
    requires NegativeLength(data)
  {
    HeadOf(data[..HeaderEnd(data)]).contentLength
  }

  /** The most that can be read beyond the header by the header loop. */
  function MostLeftOver(data: string): int {
    Min(|data|, HeaderEnd(data) + 4 + 1024 - 1) - (HeaderEnd(data) + 4)
  }

  /**
   No header end, or one within the limit, or one beyond reach even in one last chunk; and if
   within the limit with a negative length, one that cuts off all that can be left over.
   */
  predicate Steady(data: string) {
    var h := HeaderEnd(data);
    || h == -1
    || h + 4 >= 8192 + 1024
    || (h + 4 <= 8192 && (NegativeLength(data) ==> MostLeftOver(data) <= -AnnouncedLength(data)))
  }

  lemma {:induction false} BodyIsWhole(data: string, cuts: Cuts, h: nat, n: int, pos: nat)
    requires h + |END| <= pos <= |data|
    ensures var start := h + |END|; var body := data[start..BodyPos(data, cuts, start, n, pos)];
      && (|body| < n <==> start + n > |data|)
      && (0 <= n <= |body| ==> PyTake(body, n) == data[start..start + n])
      && (n < 0 ==> body == data[start..pos])
  {
    BodyRead(data, cuts, h + |END|, n, pos);
  }

  lemma {:induction false} SteadyBody(data: string, cuts: Cuts, pos: nat)
    requires Steady(data) && HeaderEnd(data) != -1 && HeaderEnd(data) + |END| <= MAX_HEADER_SIZE
    requires HeaderEnd(data) + |END| <= pos <= |data| && pos < HeaderEnd(data) + |END| + HEADER_CHUNK
    ensures WithBody(data, cuts, HeadOf(data[..HeaderEnd(data)]), HeaderEnd(data) + |END|, pos) == Whole(data)
  {
    hide HeadOf, BodyPos;
    var h := HeaderEnd(data);
    match HeadOf(data[..h])
    case Bad(_) =>
    case Head(_, _, _, n) =>
      BodyIsWhole(data, cuts, h, n, pos);
      if n < 0 {
        assert |data[h + |END|..pos]| <= MostLeftOver(data);
      }
  }

  lemma {:induction false} SteadyFound(data: string, cuts: Cuts)
    requires Steady(data) && HeaderEnd(data) != -1 && HeaderEnd(data) + |END| <= MAX_HEADER_SIZE
    ensures Parse(data, cuts) == Whole(data)
  {
    hide HeadOf, Steady, Whole, WithBody;
    var h, pos := HeaderEnd(data), HeaderPos(data, cuts, 0);
    HeaderFound(data, cuts, 0);
    FindInPrefix(data, pos);
    assert data[..pos][..h] == data[..h];
    SteadyBody(data, cuts, pos);
  }

  /** One cut as small as can be up to `jump`, then as large as can be. */
  function JumpAt(jump: nat): Cuts { p => if p < jump then 1 else HEADER_CHUNK }

  lemma {:induction false} JumpHeader(data: string, jump: nat, pos: nat)
    requires pos <= jump < |data| && HeaderEnd(data) != -1
    requires jump < HeaderEnd(data) + |END| <= jump + HEADER_CHUNK && jump < MAX_HEADER_SIZE
    ensures HeaderPos(data, JumpAt(jump), pos) == Min(|data|, jump + HEADER_CHUNK)
    decreases jump - pos
  {
    FindInPrefix(data, pos);
    if pos < jump {
      JumpHeader(data, jump, pos + 1);
    } else {
      FindInPrefix(data, Min(|data|, jump + HEADER_CHUNK));
    }
  }

  /** Byte by byte, the header loop stops right behind the header, or at the limit. */
  lemma {:induction false} BytewiseHeader(data: string, pos: nat)
    requires HeaderEnd(data) != -1 && pos <= HeaderEnd(data) + |END| && pos <= MAX_HEADER_SIZE
    ensures HeaderPos(data, JumpAt(|data|), pos) == Min(MAX_HEADER_SIZE, HeaderEnd(data) + |END|)
    decreases |data| - pos
  {
    FindInPrefix(data, pos);
    if pos < HeaderEnd(data) + |END| && pos < MAX_HEADER_SIZE {
      BytewiseHeader(data, pos + 1);
    }
  }

  /** A header that ends within one chunk beyond the limit is refused or read, as the cuts fall. */
  lemma {:induction false} BandDepends(data: string)
    requires HeaderEnd(data) != -1 && 8192 < HeaderEnd(data) + |END| < 8192 + 1024
    ensures Parse(data, JumpAt(|data|)) == Failure(HeaderTooLarge)
    ensures Parse(data, JumpAt(MAX_HEADER_SIZE - 1)) != Failure(HeaderTooLarge)
  {
    BytewiseHeader(data, 0);
    FindInPrefix(data, MAX_HEADER_SIZE);
    JumpHeader(data, MAX_HEADER_SIZE - 1, 0);
    FindInPrefix(data, Min(|data|, MAX_HEADER_SIZE - 1 + HEADER_CHUNK));
    NotTooLarge(data[..HeaderEnd(data)]);
  }

  lemma {:induction false} NotTooLarge(header: string)
    ensures HeadOf(header) != Bad(HeaderTooLarge)
  {
  }

  /**
   With a negative length, the end of what happened to be read with the header is cut off, and the
   rest is the body.
   */
  lemma {:induction false} NegativeDepends(data: string)
    requires NegativeLength(data) && HeaderEnd(data) + |END| <= MAX_HEADER_SIZE
    requires MostLeftOver(data) > -AnnouncedLength(data)
    ensures Parse(data, JumpAt(|data|)) != Parse(data, JumpAt(HeaderEnd(data) + |END| - 1))
  {
    var h, n := HeaderEnd(data), AnnouncedLength(data);
    var start, far := h + |END|, Min(|data|, h + |END| - 1 + HEADER_CHUNK);
    BytewiseHeader(data, 0);
    FindInPrefix(data, start);
    BodyIsWhole(data, JumpAt(|data|), h, n, start);
    JumpHeader(data, start - 1, 0);
    FindInPrefix(data, far);
    BodyIsWhole(data, JumpAt(start - 1), h, n, far);
    assert |PyTake(data[start..far], n)| == |data[start..far]| + n > 0;
    assert PyTake(data[start..start], n) == "";
  }

  /** Every way of cutting the stream gives the same outcome. */
  ghost predicate CutsDoNotMatter(data: string) { forall c: Cuts, d: Cuts :: Parse(data, c) == Parse(data, d) }

  /**
   Chunk independence, exactly: the outcome is the same for all ways of cutting the stream iff the
   stream is steady; and then it is the outcome by the bytes alone.
   */
  lemma {:induction false} ChunkIndependence(data: string)
    ensures CutsDoNotMatter(data) <==> Steady(data)
    ensures Steady(data) ==> forall cuts: Cuts :: Parse(data, cuts) == Whole(data)
  {
    var h := HeaderEnd(data);
    if Steady(data) {
      forall cuts: Cuts ensures Parse(data, cuts) == Whole(data) {
        if h == -1 || h + |END| >= MAX_HEADER_SIZE + HEADER_CHUNK {
          HeaderNotFound(data, cuts, 0);
        } else {
          SteadyFound(data, cuts);
        }
      }
    } else if h + |END| > MAX_HEADER_SIZE {
      BandDepends(data);
    } else {
      NegativeDepends(data);
    }
  }

  /** A request that is read has as its body exactly the bytes its header announces, right behind the header. */
  lemma {:induction false} BodyIsExact(data: string, cuts: Cuts)
    requires Steady(data) && !NegativeLength(data)
    ensures var r := Parse(data, cuts);
      r.Request? ==> IsExactBody(data, r.body)
  {
    ChunkIndependence(data);
  }

  predicate IsExactBody(data: string, body: string) {
    var h := HeaderEnd(data);
    && h != -1 && HeadOf(data[..h]).Head?
    && |body| == HeadOf(data[..h]).contentLength && h + |END| + |body| <= |data|
    && body == data[h + |END|..h + |END| + |body|]
  }

  // ---- Printed requests ----

  /** The lines of a header, with no line end behind the last. */
  function JoinLines(lines: seq<string>): string
    requires lines != []
  {
    JoinWith(lines, CRLF)
  }

  /** A line that can be sent: not empty, and no carriage return in it. */
  predicate IsLine(line: string) { line != "" && '\r' !in line }

  predicate AreLines(lines: seq<string>) { lines != [] && forall i :: 0 <= i < |lines| ==> IsLine(lines[i]) }

  lemma {:induction false} SplitJoined(lines: seq<string>)
    requires AreLines(lines)
    ensures Split(JoinLines(lines), CRLF) == lines
  {
    var line := lines[0];
    assert IsLine(line);
    if |lines| == 1 {
      NoCarriageReturn(line);
    } else {
      var rest := JoinLines(lines[1..]);
      FindLineEnd(line, rest);
      assert (line + CRLF + rest)[|line| + |CRLF|..] == rest;
      SplitJoined(lines[1..]);
    }
  }

  /** Before its end, a printed header shows no blank line. */
  lemma {:induction false} EndOfJoined(lines: seq<string>, tail: string)
    requires AreLines(lines)
    ensures Find(JoinLines(lines) + END + tail, END) == |JoinLines(lines)|
  {
    var line := lines[0];
    assert IsLine(line);
    if |lines| == 1 {
      LineThenEnd(line, tail);
    } else {
      var rest := JoinLines(lines[1..]) + END + tail;
      EndOfJoined(lines[1..], tail);
      assert JoinLines(lines) + END + tail == line + CRLF + rest;
      assert IsLine(lines[1]);
      FirstOfJoined(lines[1..]);
      SkipLine(line, rest);
    }
  }

  lemma {:induction false} FirstOfJoined(lines: seq<string>)
    requires AreLines(lines)
    ensures JoinLines(lines) != "" && JoinLines(lines)[0] != '\r'
  {
    assert IsLine(lines[0]) && lines[0][0] in lines[0];
  }

  lemma {:induction false} CarriageReturns(s: string, j: int)
    requires At(s, END, j)
    ensures s[j] == '\r' && s[j + 2] == '\r'
  {
    assert s[j..j + |END|][0] == s[j] && s[j..j + |END|][2] == s[j + 2];
  }

  lemma {:induction false} LineThenEnd(line: string, tail: string)
    requires IsLine(line)
    ensures Find(line + END + tail, END) == |line|
  {
    var s := line + END + tail;
    assert forall i :: 0 <= i < |line| ==> s[i] == line[i];
    assert At(s, END, |line|) by { assert s[|line|..|line| + |END|] == END; }
    forall j | At(s, END, j) ensures j >= |line| {
      CarriageReturns(s, j);
    }
  }

  lemma {:induction false} SkipLine(line: string, rest: string)
    requires IsLine(line) && rest != "" && rest[0] != '\r' && Find(rest, END) != -1
    ensures Find(line + CRLF + rest, END) == |line| + |CRLF| + Find(rest, END)
  {
    var s, k, f := line + CRLF + rest, |line| + |CRLF|, Find(rest, END);
    assert forall i :: 0 <= i < |line| ==> s[i] == line[i];
    assert At(s, END, k + f) by { assert s[k + f..k + f + |END|] == rest[f..f + |END|]; }
    forall j | At(s, END, j) ensures j >= k + f {
      CarriageReturns(s, j);
      assert s[|line| + 1] == '\n' && s[|line| + 2] == rest[0];
      assert j >= k ==> s[j..j + |END|] == rest[j - k..j - k + |END|];
      assert j >= k ==> At(rest, END, j - k);
    }
  }

  /** What is sent: the header, a blank line, the body. */
  function RequestText(lines: seq<string>, body: string): string
    requires lines != []
  {
    JoinLines(lines) + END + body
  }

  /**
   A printed request is read back from any cuts: a request line of at least three words, lines
   with no carriage return, a header within the limit, and the length of the body announced.
   */
  lemma {:induction false} RequestRoundTrip(lines: seq<string>, body: string, cuts: Cuts)
    requires AreLines(lines) && |Split(lines[0], " ")| >= 3 && |JoinLines(lines)| + |END| <= MAX_HEADER_SIZE
    requires ContentLength(lines[1..]) == |body| <= MAX_CONTENT_LENGTH
    ensures Parse(RequestText(lines, body), cuts)
         == Request(Split(lines[0], " ")[0], Split(lines[0], " ")[1], lines[1..], body)
  {
    hide Steady, ContentLength, JoinLines, Split, Find, HeadOf;
    var data, h := RequestText(lines, body), |JoinLines(lines)|;
    EndOfJoined(lines, body);
    assert data[..h] == JoinLines(lines) && data[h + |END|..] == body;
    HeadOfJoined(lines);
    assert Steady(data) by { SteadyIf(data); }
    ChunkIndependence(data);
  }

  lemma {:induction false} HeadOfJoined(lines: seq<string>)
    requires AreLines(lines) && |Split(lines[0], " ")| >= 3
    ensures HeadOf(JoinLines(lines))
         == Head(Split(lines[0], " ")[0], Split(lines[0], " ")[1], lines[1..], ContentLength(lines[1..]))
  {
    hide ContentLength, JoinLines, Split;
    SplitJoined(lines);
    assert IsLine(lines[0]);
  }

  lemma {:induction false} SteadyIf(data: string)
    requires HeaderEnd(data) != -1 && HeaderEnd(data) + |END| <= MAX_HEADER_SIZE && !NegativeLength(data)
    ensures Steady(data)
  {
  }
}
