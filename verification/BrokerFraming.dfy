/**
 Cutting a client's bytes into lines, and that the broker does the same for every way the bytes
 arrive, exactly when no chunk can be mistaken for a health check.
 */
module BrokerFraming {
  import opened Text
  import opened Broker

  // ---- Lines ----

  /** Lines as they are sent, each with its newline. */
  function Unlines(lines: seq<string>): string {
    if lines == [] then "" else lines[0] + NEWLINE + Unlines(lines[1..])
  }

  lemma {:induction false} NewlineAt(s: string)
    ensures forall j :: At(s, NEWLINE, j) ==> s[j] == '\n'
    ensures '\n' in s ==> Find(s, NEWLINE) != -1
  {
    forall j | At(s, NEWLINE, j) ensures s[j] == '\n' {
      assert s[j..j + 1][0] == '\n';
    }
    if '\n' in s {
      var k :| 0 <= k < |s| && s[k] == '\n';
      assert At(s, NEWLINE, k) by { assert s[k..k + 1] == NEWLINE; }
    }
  }

  lemma {:induction false} FindNewline(line: string, tail: string)
    requires '\n' !in line
    ensures Find(line + NEWLINE + tail, NEWLINE) == |line|
  {
    var s := line + NEWLINE + tail;
    NewlineAt(s);
    assert forall i :: 0 <= i < |line| ==> s[i] == line[i];
    assert At(s, NEWLINE, |line|) by { assert s[|line|..|line| + 1] == NEWLINE; }
  }

  /** Cutting gives lines without newlines and a rest without newline, which put together are the text. */
  lemma {:induction false} CutLinesSpec(s: string)
    ensures var (lines, rest) := CutLines(s);
      s == Unlines(lines) + rest && '\n' !in rest && forall i :: 0 <= i < |lines| ==> '\n' !in lines[i]
    decreases |s|
  {
    hide Find;
    var i := Find(s, NEWLINE);
    NewlineAt(s);
    if i != -1 {
      var (lines, rest) := CutLines(s[i + 1..]);
      CutLinesSpec(s[i + 1..]);
      NoneBefore(s, i);
      assert ([s[..i]] + lines)[1..] == lines;
      assert s == s[..i] + NEWLINE + s[i + 1..] by { assert s[i..i + 1] == NEWLINE; }
    }
  }

  lemma {:induction false} NoneBefore(s: string, i: nat)
    requires Find(s, NEWLINE) == i
    ensures '\n' !in s[..i]
  {
    if '\n' in s[..i] {
      var k :| 0 <= k < i && s[..i][k] == '\n';
      assert At(s, NEWLINE, k) by { assert s[k..k + 1] == NEWLINE; }
    }
  }

  /** And that determines them: lines sent, and an unfinished one, are what is cut. */
  lemma {:induction false} LinesRoundTrip(lines: seq<string>, rest: string)
    requires '\n' !in rest && forall i :: 0 <= i < |lines| ==> '\n' !in lines[i]
    ensures CutLines(Unlines(lines) + rest) == (lines, rest)
  {
    if lines == [] {
      assert Unlines(lines) + rest == rest;
      NewlineAt(rest);
    } else {
      var tail := Unlines(lines[1..]) + rest;
      assert Unlines(lines) + rest == lines[0] + NEWLINE + tail;
      FindNewline(lines[0], tail);
      assert (lines[0] + NEWLINE + tail)[|lines[0]| + 1..] == tail;
      assert (lines[0] + NEWLINE + tail)[..|lines[0]|] == lines[0];
      LinesRoundTrip(lines[1..], rest);
      assert [lines[0]] + lines[1..] == lines;
    }
  }

  lemma {:induction false} UnlinesAppend(a: seq<string>, b: seq<string>)
    ensures Unlines(a + b) == Unlines(a) + Unlines(b)
  {
    if a == [] {
      assert a + b == b;
    } else {
      UnlinesAppend(a[1..], b);
      assert (a + b)[1..] == a[1..] + b;
    }
  }

  /** Cutting as the text grows: first the lines there are, then on with what was left. */
  lemma {:induction false} CutLinesAppend(s: string, t: string)
    ensures var (first, rest) := CutLines(s); var (more, last) := CutLines(rest + t);
      CutLines(s + t) == (first + more, last)
  {
    hide CutLines, Unlines;
    var (first, rest) := CutLines(s);
    var (more, last) := CutLines(rest + t);
    CutLinesSpec(s);
    CutLinesSpec(rest + t);
    UnlinesAppend(first, more);
    assert s + t == Unlines(first) + (rest + t);
    assert s + t == Unlines(first + more) + last;
    LinesRoundTrip(first + more, last);
  }

  // ---- One client, any chunks ----

  /** How many lines a chunk completes. */
  function LinesIn(b: Broker, c: Conn, chunk: string): nat { |CutLines(BufferOf(b, c) + chunk).0| }

  /** The broker fed with chunks of `c` in turn, until the connection is closed; `from` lines came before. */
  function Feed(b: Broker, c: Conn, chunks: seq<string>, refuse: nat -> set<Conn>, from: nat): Broker
    decreases |chunks|
  {
    if chunks == [] || c in b.closed then b
    else Feed(OnData(b, c, chunks[0], refuse, from), c, chunks[1..], refuse, from + LinesIn(b, c, chunks[0]))
  }

  /** The same but for the buffer of `c`. */
  predicate SameBut(a: Broker, b: Broker, c: Conn) {
    b.(buffers := a.buffers) == a && b.buffers - {c} == a.buffers - {c}
  }

  function WithBuffer(b: Broker, c: Conn, rest: string): Broker { b.(buffers := b.buffers[c := rest]) }

  lemma {:induction false} SameCompleted(a: Broker, b: Broker, c: Conn, rest: string)
    requires SameBut(a, b, c)
    ensures WithBuffer(a, c, rest) == WithBuffer(b, c, rest) && Cleanup(a, c) == Cleanup(b, c)
  {
    assert forall d :: d != c ==> (d in a.buffers <==> d in a.buffers - {c});
    assert forall d :: d != c ==> (d in b.buffers <==> d in b.buffers - {c});
    assert forall d :: d in a.buffers && d != c ==> a.buffers[d] == (a.buffers - {c})[d];
    assert forall d :: d in b.buffers && d != c ==> b.buffers[d] == (b.buffers - {c})[d];
    assert a.buffers[c := rest] == b.buffers[c := rest];
  }

  lemma {:induction false} BufferSame(b: Broker, c: Conn, rest: string)
    ensures SameBut(b, WithBuffer(b, c, rest), c)
  {
  }

  lemma {:induction false} LineSame(a: Broker, b: Broker, c: Conn, line: string, refuse: set<Conn>)
    requires SameBut(a, b, c)
    ensures SameBut(OnLine(a, c, line, refuse).0, OnLine(b, c, line, refuse).0, c)
    ensures OnLine(a, c, line, refuse).1 == OnLine(b, c, line, refuse).1
  {
    hide CommandOf, Detached, Send;
    if CommandOf(line).Pub? {
      var dead := Dead(a, CommandOf(line).topic, refuse);
      assert (a.buffers - dead) - {c} == (a.buffers - {c}) - dead;
      assert (b.buffers - dead) - {c} == (b.buffers - {c}) - dead;
    }
  }

  lemma {:induction false} LinesSame(a: Broker, b: Broker, c: Conn, lines: seq<string>, refuse: nat -> set<Conn>,
                                     from: nat, i: nat)
    requires SameBut(a, b, c) && i <= |lines|
    ensures SameBut(OnLines(a, c, lines, refuse, from, i).0, OnLines(b, c, lines, refuse, from, i).0, c)
    ensures OnLines(a, c, lines, refuse, from, i).1 == OnLines(b, c, lines, refuse, from, i).1
    decreases |lines| - i
  {
    hide OnLine, SameBut;
    if i < |lines| {
      var now := refuse(from + i);
      LineSame(a, b, c, lines[i], now);
      LinesSame(OnLine(a, c, lines[i], now).0, OnLine(b, c, lines[i], now).0, c, lines, refuse, from, i + 1);
    }
  }

  lemma {:induction false} LinesShift(b: Broker, c: Conn, first: seq<string>, more: seq<string>,
                                      refuse: nat -> set<Conn>,
                                      from: nat, i: nat)
    requires i <= |more|
    ensures OnLines(b, c, first + more, refuse, from, |first| + i) == OnLines(b, c, more, refuse, from + |first|, i)
    decreases |more| - i
  {
    hide OnLine;
    if i < |more| {
      assert refuse(from + (|first| + i)) == refuse(from + |first| + i);
      LinesShift(OnLine(b, c, more[i], refuse(from + |first| + i)).0, c, first, more, refuse, from, i + 1);
    }
  }

  /** Lines in two parts: the second only if the first went well. */
  lemma {:induction false} LinesInParts(b: Broker, c: Conn, first: seq<string>, more: seq<string>,
                                        refuse: nat -> set<Conn>,
                                        from: nat, i: nat)
    requires i <= |first|
    ensures var (b', ok) := OnLines(b, c, first, refuse, from, i);
      OnLines(b, c, first + more, refuse, from, i)
      == if ok then OnLines(b', c, more, refuse, from + |first|, 0) else (b', false)
    decreases |first| - i
  {
    hide OnLine;
    if i == |first| {
      LinesShift(b, c, first, more, refuse, from, 0);
    } else {
      LinesInParts(OnLine(b, c, first[i], refuse(from + i)).0, c, first, more, refuse, from, i + 1);
    }
  }

  lemma {:induction false} LineLeavesOpen(b: Broker, c: Conn, line: string, refuse: set<Conn>)
    requires OnLine(b, c, line, refuse).1 && c !in b.closed
    ensures c !in OnLine(b, c, line, refuse).0.closed
  {
    hide CommandOf;
  }

  lemma {:induction false} LinesLeaveOpen(b: Broker, c: Conn, lines: seq<string>, refuse: nat -> set<Conn>,
                                          from: nat, i: nat)
    requires i <= |lines| && OnLines(b, c, lines, refuse, from, i).1 && c !in b.closed
    ensures c !in OnLines(b, c, lines, refuse, from, i).0.closed
    decreases |lines| - i
  {
    hide OnLine;
    if i < |lines| {
      LineLeavesOpen(b, c, lines[i], refuse(from + i));
      LinesLeaveOpen(OnLine(b, c, lines[i], refuse(from + i)).0, c, lines, refuse, from, i + 1);
    }
  }

  /** What text does when it is not taken for a health check: the lines it completes, in turn. */
  function OnText(b: Broker, c: Conn, buffer: string, refuse: nat -> set<Conn>, from: nat): Broker {
    var (lines, rest) := CutLines(buffer);
    var (b', ok) := OnLines(b, c, lines, refuse, from, 0);
    if ok then WithBuffer(b', c, rest) else Cleanup(b', c)
  }

  /** Text, and then more of it. */
  lemma {:induction false} TextInParts(b: Broker, c: Conn, buffer: string, more: string, refuse: nat -> set<Conn>,
                                       from: nat)
    requires c !in b.closed
    ensures var b' := OnText(b, c, buffer, refuse, from);
      OnText(b, c, buffer + more, refuse, from)
      == if c in b'.closed then b' else OnText(b', c, BufferOf(b', c) + more, refuse, from + |CutLines(buffer).0|)
  {
    hide OnLines, CutLines, SameBut;
    var (first, rest) := CutLines(buffer);
    var (next, last) := CutLines(rest + more);
    var after := from + |first|;
    CutLinesAppend(buffer, more);
    LinesInParts(b, c, first, next, refuse, from, 0);
    var (b1, ok) := OnLines(b, c, first, refuse, from, 0);
    if ok {
      var b2 := WithBuffer(b1, c, rest);
      LinesLeaveOpen(b, c, first, refuse, from, 0);
      BufferSame(b1, c, rest);
      LinesSame(b1, b2, c, next, refuse, after, 0);
      SameCompleted(OnLines(b1, c, next, refuse, after, 0).0, OnLines(b2, c, next, refuse, after, 0).0, c, last);
    }
  }

  /** No chunk is empty, and none would be taken for a health check. */
  ghost predicate Plain(chunks: seq<string>) {
    forall i :: 0 <= i < |chunks| ==> chunks[i] != "" && !IsHttp(chunks[i])
  }

  /** For plain chunks the broker does what it does for the whole text. */
  lemma {:induction false} PlainChunks(b: Broker, c: Conn, chunks: seq<string>, refuse: nat -> set<Conn>, from: nat)
    requires Plain(chunks) && chunks != [] && c !in b.closed
    ensures Feed(b, c, chunks, refuse, from) == OnText(b, c, BufferOf(b, c) + Join(chunks), refuse, from)
    decreases |chunks|
  {
    hide OnText, IsHttp, OnData, BufferOf, CutLines;
    var chunk, more, buffer := chunks[0], Join(chunks[1..]), BufferOf(b, c);
    var b', after := OnData(b, c, chunk, refuse, from), from + LinesIn(b, c, chunk);
    DataIsText(b, c, chunk, refuse, from);
    JoinFirst(chunks, buffer);
    if |chunks| == 1 {
      assert Feed(b', c, chunks[1..], refuse, after) == b';
    } else {
      TextInParts(b, c, buffer + chunk, more, refuse, from);
      if c !in b'.closed {
        PlainChunks(b', c, chunks[1..], refuse, after);
      }
    }
  }

  lemma {:induction false} JoinFirst(chunks: seq<string>, buffer: string)
    requires chunks != []
    ensures buffer + Join(chunks) == buffer + chunks[0] + Join(chunks[1..])
    ensures |chunks| == 1 ==> buffer + Join(chunks) == buffer + chunks[0]
  {
    var head, tail := chunks[0], Join(chunks[1..]);
    assert Join(chunks) == head + tail;
    Regroup(buffer, head, tail);
    if |chunks| == 1 {
      assert tail == "";
      assert head + "" == head;
    }
  }

  lemma {:induction false} Regroup(a: string, b: string, c: string)
    ensures a + (b + c) == a + b + c
  {
  }

  lemma {:induction false} DataIsText(b: Broker, c: Conn, chunk: string, refuse: nat -> set<Conn>, from: nat)
    requires chunk != "" && !IsHttp(chunk)
    ensures OnData(b, c, chunk, refuse, from) == OnText(b, c, BufferOf(b, c) + chunk, refuse, from)
  {
  }

  // ---- Exactly when the cuts do not matter ----

  /** The text contains, at any place, what a health check begins with. */
  predicate ContainsHttp(text: string) { Find(text, "GET ") != -1 || Find(text, "HEAD ") != -1 }

  ghost predicate Cuts(chunks: seq<string>, text: string) {
    Join(chunks) == text && chunks != [] && forall i :: 0 <= i < |chunks| ==> chunks[i] != ""
  }

  /** However the text arrives, the broker does what its complete lines say, and keeps the rest. */
  ghost predicate CutsDoNotMatter(b: Broker, c: Conn, text: string, refuse: nat -> set<Conn>, from: nat) {
    forall chunks :: Cuts(chunks, text) ==>
      Feed(b, c, chunks, refuse, from) == OnText(b, c, BufferOf(b, c) + text, refuse, from)
  }

  lemma {:induction false} HttpInside(before: string, text: string, after: string)
    requires ContainsHttp(text)
    ensures ContainsHttp(before + text + after)
  {
    OccursInside(before, text, after, "GET ");
    OccursInside(before, text, after, "HEAD ");
  }

  lemma {:induction false} OccursInside(before: string, text: string, after: string, p: string)
    ensures Find(text, p) != -1 ==> Find(before + text + after, p) != -1
  {
    var i, s := Find(text, p), before + text + after;
    if i != -1 {
      assert At(s, p, |before| + i) by { assert s[|before| + i..|before| + i + |p|] == text[i..i + |p|]; }
    }
  }

  lemma {:induction false} HttpStarts(chunk: string)
    requires IsHttp(chunk)
    ensures ContainsHttp(chunk)
  {
    assert "GET " <= chunk ==> At(chunk, "GET ", 0);
    assert "HEAD " <= chunk ==> At(chunk, "HEAD ", 0);
  }

  lemma {:induction false} HttpChunk(chunks: seq<string>, i: nat)
    requires i < |chunks| && IsHttp(chunks[i])
    ensures ContainsHttp(Join(chunks))
  {
    hide ContainsHttp, IsHttp;
    if i == 0 {
      HttpStarts(chunks[0]);
      HttpInside("", chunks[0], Join(chunks[1..]));
      assert "" + chunks[0] + Join(chunks[1..]) == Join(chunks);
    } else {
      HttpChunk(chunks[1..], i - 1);
      HttpInside(chunks[0], Join(chunks[1..]), "");
      assert chunks[0] + Join(chunks[1..]) + "" == Join(chunks);
    }
  }

  /** The first place where the text looks like a health check. */
  function FirstHttp(text: string): (j: nat)
    requires ContainsHttp(text)
    ensures j < |text|
  {
    var g, h := Find(text, "GET "), Find(text, "HEAD ");
    if g == -1 || (h != -1 && h < g) then h else g
  }

  lemma {:induction false} FirstHttpSpec(text: string)
    requires ContainsHttp(text)
    ensures IsHttp(text[FirstHttp(text)..]) && (FirstHttp(text) > 0 ==> !IsHttp(text[..FirstHttp(text)]))
  {
    var j := FirstHttp(text);
    assert At(text, "GET ", j) ==> text[j..][..4] == "GET ";
    assert At(text, "HEAD ", j) ==> text[j..][..5] == "HEAD ";
    if j > 0 {
      assert "GET " <= text[..j] ==> At(text, "GET ", 0);
      assert "HEAD " <= text[..j] ==> At(text, "HEAD ", 0);
    }
  }

  /** `c` is open and takes whatever it is sent. */
  ghost predicate Takes(b: Broker, c: Conn, refuse: nat -> set<Conn>) { c !in b.closed && forall n :: c !in refuse(n) }

  lemma {:induction false} LinesSucceed(b: Broker, c: Conn, lines: seq<string>, refuse: nat -> set<Conn>,
                                        from: nat, i: nat)
    requires i <= |lines| && Takes(b, c, refuse)
    ensures OnLines(b, c, lines, refuse, from, i).1
    decreases |lines| - i
  {
    hide OnLine;
    if i < |lines| {
      LineSucceeds(b, c, lines[i], refuse(from + i));
      LineLeavesOpen(b, c, lines[i], refuse(from + i));
      LinesSucceed(OnLine(b, c, lines[i], refuse(from + i)).0, c, lines, refuse, from, i + 1);
    }
  }

  lemma {:induction false} LineSucceeds(b: Broker, c: Conn, line: string, refuse: set<Conn>)
    requires c !in b.closed && c !in refuse
    ensures OnLine(b, c, line, refuse).1
  {
    hide CommandOf;
  }

  lemma {:induction false} TextLeavesOpen(b: Broker, c: Conn, buffer: string, refuse: nat -> set<Conn>, from: nat)
    requires Takes(b, c, refuse)
    ensures c !in OnText(b, c, buffer, refuse, from).closed
  {
    LinesSucceed(b, c, CutLines(buffer).0, refuse, from, 0);
    LinesLeaveOpen(b, c, CutLines(buffer).0, refuse, from, 0);
  }

  lemma {:induction false} FeedLast(b: Broker, c: Conn, rest: string, refuse: nat -> set<Conn>, from: nat)
    requires c !in b.closed && IsHttp(rest)
    ensures c in Feed(b, c, [rest], refuse, from).closed
  {
    assert rest != "";
    assert Feed(b, c, [rest], refuse, from) == OnData(b, c, rest, refuse, from);
  }

  lemma {:induction false} FeedTwo(b: Broker, c: Conn, first: string, rest: string, refuse: nat -> set<Conn>, from: nat)
    requires c !in b.closed && first != "" && !IsHttp(first) && IsHttp(rest)
    requires c !in OnText(b, c, BufferOf(b, c) + first, refuse, from).closed
    ensures c in Feed(b, c, [first, rest], refuse, from).closed
  {
    hide OnText, IsHttp, OnData, LinesIn;
    DataIsText(b, c, first, refuse, from);
    FeedLast(OnText(b, c, BufferOf(b, c) + first, refuse, from), c, rest, refuse, from + LinesIn(b, c, first));
    assert [first, rest][1..] == [rest];
  }

  lemma {:induction false} JoinTwo(first: string, rest: string)
    ensures Join([rest]) == rest && Join([first, rest]) == first + rest
  {
    assert [first, rest][1..] == [rest];
  }

  /** Cut before the first such place, the broker takes the rest for a health check and closes the connection. */
  lemma {:induction false} HttpCloses(b: Broker, c: Conn, text: string, refuse: nat -> set<Conn>, from: nat)
    requires Takes(b, c, refuse) && ContainsHttp(text)
    ensures !CutsDoNotMatter(b, c, text, refuse, from)
  {
    hide ContainsHttp, OnText, IsHttp, Feed, Join;
    var j := FirstHttp(text);
    FirstHttpSpec(text);
    TextLeavesOpen(b, c, BufferOf(b, c) + text[..j], refuse, from);
    TextLeavesOpen(b, c, BufferOf(b, c) + text, refuse, from);
    JoinTwo(text[..j], text[j..]);
    if j == 0 {
      assert text[0..] == text;
      FeedLast(b, c, text, refuse, from);
      assert Cuts([text], text);
    } else {
      FeedTwo(b, c, text[..j], text[j..], refuse, from);
      assert text[..j] + text[j..] == text;
      assert Cuts([text[..j], text[j..]], text);
    }
  }

  /**
   Chunk independence, exactly: for an open connection that takes its answers, whoever else refuses
   and when, the broker's state after any chunks of a text is what the text's complete lines make of
   it, with the unfinished line kept, iff neither "GET " nor "HEAD " occurs anywhere in the text.
   */
  lemma {:induction false} ChunkIndependence(b: Broker, c: Conn, text: string, refuse: nat -> set<Conn>, from: nat)
    requires Takes(b, c, refuse)
    ensures CutsDoNotMatter(b, c, text, refuse, from) <==> !ContainsHttp(text)
  {
    hide Feed, OnText, IsHttp, ContainsHttp;
    if ContainsHttp(text) {
      HttpCloses(b, c, text, refuse, from);
    } else {
      forall chunks | Cuts(chunks, text)
        ensures Feed(b, c, chunks, refuse, from) == OnText(b, c, BufferOf(b, c) + text, refuse, from)
      {
        forall i | 0 <= i < |chunks| ensures !IsHttp(chunks[i]) {
          if IsHttp(chunks[i]) {
            HttpChunk(chunks, i);
          }
        }
        PlainChunks(b, c, chunks, refuse, from);
      }
    }
  }

  /** What is kept for a connection is never a complete line. */
  lemma {:induction false} KeptIsUnfinished(b: Broker, c: Conn, data: string, refuse: nat -> set<Conn>, from: nat,
                                        d: Conn)
    requires '\n' !in BufferOf(b, d)
    ensures '\n' !in BufferOf(OnData(b, c, data, refuse, from), d)
  {
    hide CutLines, OnLines, Reply;
    CutLinesSpec(BufferOf(b, c) + data);
    LinesBuffers(b, c, CutLines(BufferOf(b, c) + data).0, refuse, from, 0, d);
    ReplyBuffers(b, c, "HTTP/1.1 200 OK", refuse(from));
  }

  lemma {:induction false} ReplyBuffers(b: Broker, c: Conn, text: string, refuse: set<Conn>)
    ensures Reply(b, c, text, refuse).0.buffers == b.buffers
  {
  }

  lemma {:induction false} LinesBuffers(b: Broker, c: Conn, lines: seq<string>, refuse: nat -> set<Conn>,
                                        from: nat, i: nat, d: Conn)
    requires i <= |lines| && '\n' !in BufferOf(b, d)
    ensures '\n' !in BufferOf(OnLines(b, c, lines, refuse, from, i).0, d)
    decreases |lines| - i
  {
    hide OnLine;
    if i < |lines| {
      LineBuffers(b, c, lines[i], refuse(from + i), d);
      LinesBuffers(OnLine(b, c, lines[i], refuse(from + i)).0, c, lines, refuse, from, i + 1, d);
    }
  }

  lemma {:induction false} LineBuffers(b: Broker, c: Conn, line: string, refuse: set<Conn>, d: Conn)
    requires '\n' !in BufferOf(b, d)
    ensures '\n' !in BufferOf(OnLine(b, c, line, refuse).0, d)
  {
    hide CommandOf, Detached, Send;
  }
}
