/** What a line sent to the broker does, from its text: who subscribes, who is sent what, what is answered. */
module BrokerLines {
  import opened Text
  import opened TextFacts
  import opened Broker
  import opened BrokerRuns
  import F = BrokerFraming

  // ---- The commands, as they are written ----

  /** A topic, as it stands behind the command word: without a space. */
  predicate IsTopic(topic: string) { ' ' !in topic }

  /** "SUB topic", in any letter case, with or without something behind it. */
  predicate IsSub(s: string, word: string, topic: string, more: string) {
    && SameLetters(word, "SUB") && IsTopic(topic) && (more == "" || more[0] == ' ')
    && s == word + (SPACE + (topic + more)) && Bare(s)
  }

  /** "PUB topic text"; the text may contain spaces. */
  predicate IsPub(s: string, word: string, topic: string, text: string) {
    && SameLetters(word, "PUB") && IsTopic(topic)
    && s == word + (SPACE + (topic + (SPACE + text))) && Bare(s)
  }

  /** What stands in front of the first space is split off. */
  lemma {:induction false} SplitWord(word: string, rest: string)
    requires ' ' !in word
    ensures Find(word, SPACE) == -1
    ensures Find(word + (SPACE + rest), SPACE) == |word|
    ensures (word + (SPACE + rest))[..|word|] == word && (word + (SPACE + rest))[|word| + 1..] == rest
  {
    CharSeparates(word, ' ');
    FindSeparator(word, SPACE, rest);
    assert word + (SPACE + rest) == word + SPACE + rest;
  }

  lemma {:induction false} SplitsInTwo(word: string, topic: string)
    requires ' ' !in word && ' ' !in topic
    ensures SplitTwice(word + (SPACE + topic)) == [word, topic]
  {
    SplitWord(word, topic);
    SplitWord(topic, "");
  }

  lemma {:induction false} SplitsInThree(word: string, topic: string, text: string)
    requires ' ' !in word && ' ' !in topic
    ensures SplitTwice(word + (SPACE + (topic + (SPACE + text)))) == [word, topic, text]
  {
    SplitWord(word, topic + (SPACE + text));
    SplitWord(topic, text);
  }

  /** And back: the parts, with spaces between them, are the text. */
  lemma {:induction false} PartsJoin(s: string)
    ensures var p := SplitTwice(s);
      && ' ' !in p[0] && (|p| >= 2 ==> ' ' !in p[1])
      && (|p| == 1 ==> s == p[0])
      && (|p| == 2 ==> s == p[0] + (SPACE + p[1]))
      && (|p| == 3 ==> s == p[0] + (SPACE + (p[1] + (SPACE + p[2]))))
  {
    NoSpaceBefore(s);
    var i := Find(s, SPACE);
    if i != -1 {
      NoSpaceBefore(s[i + 1..]);
    }
  }

  lemma {:induction false} NoSpaceBefore(s: string)
    ensures var i := Find(s, SPACE);
      if i == -1 then ' ' !in s else ' ' !in s[..i] && s == s[..i] + (SPACE + s[i + 1..])
  {
    var i := Find(s, SPACE);
    forall j | 0 <= j < |s| && s[j] == ' ' ensures 0 <= i <= j {
      assert s[j..j + 1] == SPACE;
      assert At(s, SPACE, j);
    }
    if i != -1 {
      assert s[i..i + 1] == SPACE;
    }
  }

  lemma {:induction false} NoSpaces(word: string, name: string)
    requires SameLetters(word, name) && ' ' !in name
    ensures ' ' !in word
  {
  }

  // ---- How they are read ----

  /** `line` is `s` with white space around it. */
  predicate Around(line: string, lead: string, s: string, trail: string) {
    AllWhite(lead) && Bare(s) && AllWhite(trail) && line == lead + s + trail
  }

  lemma {:induction false} ReadSub(line: string, lead: string, s: string, trail: string, word: string, topic: string,
                                   more: string)
    requires Around(line, lead, s, trail) && IsSub(s, word, topic, more)
    ensures CommandOf(line) == Sub(topic)
  {
    hide SplitTwice, Strip;
    StripIs(lead, s, trail);
    NoSpaces(word, "SUB");
    UpperIs(word, "SUB");
    if more == "" {
      assert topic + more == topic;
      SplitsInTwo(word, topic);
    } else {
      assert topic + more == topic + (SPACE + more[1..]);
      SplitsInThree(word, topic, more[1..]);
    }
  }

  lemma {:induction false} ReadPub(line: string, lead: string, s: string, trail: string, word: string, topic: string,
                                   text: string)
    requires Around(line, lead, s, trail) && IsPub(s, word, topic, text)
    ensures CommandOf(line) == Pub(topic, text)
  {
    hide SplitTwice, Strip;
    StripIs(lead, s, trail);
    NoSpaces(word, "PUB");
    UpperIs(word, "PUB");
    SplitsInThree(word, topic, text);
  }

  lemma {:induction false} ReadBlank(line: string)
    ensures CommandOf(line) == Blank <==> AllWhite(line)
  {
    hide SplitTwice, Strip;
    var lead, trail := StripParts(line);
    if AllWhite(line) {
      StripIs(line, "", "");
      assert line + "" + "" == line;
    } else {
      assert Strip(line) == "" ==> line == lead + trail;
    }
  }

  /** Any other line is an unknown command. */
  lemma {:induction false} ReadOther(line: string, lead: string, s: string, trail: string)
    requires Around(line, lead, s, trail)
    ensures CommandOf(line) == Unknown <==>
      && s != ""
      && (forall word, topic, more :: !IsSub(s, word, topic, more))
      && (forall word, topic, text :: !IsPub(s, word, topic, text))
  {
    hide SplitTwice, Strip, Upper;
    StripIs(lead, s, trail);
    forall word, topic, more | IsSub(s, word, topic, more) ensures CommandOf(line) == Sub(topic) {
      ReadSub(line, lead, s, trail, word, topic, more);
    }
    forall word, topic, text | IsPub(s, word, topic, text) ensures CommandOf(line) == Pub(topic, text) {
      ReadPub(line, lead, s, trail, word, topic, text);
    }
    var p := SplitTwice(s);
    PartsJoin(s);
    UpperIs(p[0], "SUB");
    UpperIs(p[0], "PUB");
    match CommandOf(line)
    case Sub(_) =>
      if |p| == 2 {
        assert p[1] + "" == p[1];
        assert IsSub(s, p[0], p[1], "");
      } else {
        assert IsSub(s, p[0], p[1], SPACE + p[2]);
      }
    case Pub(_, _) => assert IsPub(s, p[0], p[1], p[2]);
    case _ =>
  }

  // ---- What they do ----

  /** An answer, for whoever can be sent to. */
  function Answered(d: Conn, c: Conn, ok: bool, text: string): seq<Out> { if d == c && ok then [Answer(text)] else [] }

  lemma {:induction false} Replied(b: Broker, c: Conn, text: string, refuse: set<Conn>, d: Conn)
    ensures var r := Reply(b, c, text, refuse);
      && r.1 == (c !in b.closed && c !in refuse) && r.0 == b.(sent := r.0.sent)
      && SentTo(r.0.sent, d) == SentTo(b.sent, d) + Answered(d, c, r.1, text)
  {
    hide Send, SentTo;
    SentAfter(b.sent, {c}, Answer(text), d);
  }

  /**
   A SUB line puts the sender on the topic, and changes no other subscription; the sender alone is
   sent anything, the answer.
   */
  lemma {:induction false} SubLine(b: Broker, c: Conn, line: string, refuse: set<Conn>,
                lead: string, s: string, trail: string, word: string, topic: string, more: string)
    requires Around(line, lead, s, trail) && IsSub(s, word, topic, more)
    ensures var (b', ok) := OnLine(b, c, line, refuse);
      && ok == (c !in b.closed && c !in refuse)
      && (forall t :: On(b'.subscribers, t) == if t == topic then On(b.subscribers, t) + {c} else On(b.subscribers, t))
      && (forall d :: SentTo(b'.sent, d) == SentTo(b.sent, d) + Answered(d, c, ok, "+OK Subscribed"))
      && b'.buffers == b.buffers && b'.closed == b.closed && b'.log == b.log + [Subscribed(c, topic)]
  {
    hide CommandOf, SentTo;
    ReadSub(line, lead, s, trail, word, topic, more);
    forall d ensures SentTo(OnLine(b, c, line, refuse).0.sent, d)
        == SentTo(b.sent, d) + Answered(d, c, OnLine(b, c, line, refuse).1, "+OK Subscribed") {
      Replied(OnSub(b, c, topic), c, "+OK Subscribed", refuse, d);
    }
  }

  /** Subscribers of the topic that are closed or refuse to be sent to. */
  function Unreachable(b: Broker, topic: string, refuse: set<Conn>): set<Conn> {
    set d | d in On(b.subscribers, topic) && (d in b.closed || d in refuse)
  }

  function Delivered(b: Broker, d: Conn, topic: string, text: string, refuse: set<Conn>): seq<Out> {
    if d in On(b.subscribers, topic) && d !in b.closed && d !in refuse then [Message(topic, text)] else []
  }

  lemma {:induction false} Published(b: Broker, topic: string, text: string, refuse: set<Conn>, d: Conn)
    ensures var b' := OnPub(b, topic, text, refuse); var gone := Unreachable(b, topic, refuse);
      && SentTo(b'.sent, d) == SentTo(b.sent, d) + Delivered(b, d, topic, text, refuse)
      && b'.closed == b.closed + gone && b'.buffers == b.buffers - gone
      && b'.log == b.log + [Removed(gone), Event.Published(topic, text)]
      && forall t :: On(b'.subscribers, t) == On(b.subscribers, t) - gone
  {
    hide Send, SentTo, Detached;
    var dead := Dead(b, topic, refuse);
    assert dead == Unreachable(b, topic, refuse);
    SentAfter(b.sent, On(b.subscribers, topic) - dead, Message(topic, text), d);
    forall t ensures On(Detached(b.subscribers, dead), t) == On(b.subscribers, t) - dead {
      DetachedOn(b.subscribers, dead, t);
    }
  }

  /**
   A PUB line sends its text, once, to every subscriber of its topic that can be sent to, and to
   nobody else; those that cannot are taken off all topics, nobody else is; the sender is answered.
   */
  lemma {:induction false} PubLine(b: Broker, c: Conn, line: string, refuse: set<Conn>,
                lead: string, s: string, trail: string, word: string, topic: string, text: string)
    requires Around(line, lead, s, trail) && IsPub(s, word, topic, text)
    ensures var (b', ok) := OnLine(b, c, line, refuse); var gone := Unreachable(b, topic, refuse);
      && ok == (c !in b.closed && c !in refuse)
      && (forall d :: SentTo(b'.sent, d) ==
            SentTo(b.sent, d) + Delivered(b, d, topic, text, refuse) + Answered(d, c, ok, "+OK Published"))
      && (forall t :: On(b'.subscribers, t) == On(b.subscribers, t) - gone)
      && b'.closed == b.closed + gone && b'.buffers == b.buffers - gone
      && b'.log == b.log + [Removed(gone), Event.Published(topic, text)]
  {
    hide CommandOf, SentTo, OnPub, Reply, Delivered, On;
    ReadPub(line, lead, s, trail, word, topic, text);
    Published(b, topic, text, refuse, c);
    Replied(OnPub(b, topic, text, refuse), c, "+OK Published", refuse, c);
    forall d ensures SentTo(OnLine(b, c, line, refuse).0.sent, d) == SentTo(b.sent, d)
        + Delivered(b, d, topic, text, refuse) + Answered(d, c, OnLine(b, c, line, refuse).1, "+OK Published") {
      Published(b, topic, text, refuse, d);
      Replied(OnPub(b, topic, text, refuse), c, "+OK Published", refuse, d);
    }
  }

  /** What a client receives of a PUB line: its text, on its topic, if it is subscribed and can be sent to. */
  lemma {:induction false} PubReceived(b: Broker, c: Conn, line: string, refuse: set<Conn>, lead: string, s: string,
                                       trail: string,
                    word: string, topic: string, text: string, d: Conn, t: string)
    requires Around(line, lead, s, trail) && IsPub(s, word, topic, text)
    ensures var b' := OnLine(b, c, line, refuse).0;
      Received(SentTo(b'.sent, d), t) == Received(SentTo(b.sent, d), t) +
        if t == topic && d in On(b.subscribers, topic) && d !in b.closed && d !in refuse then [text] else []
  {
    hide OnLine, SentTo, Received, On;
    PubLine(b, c, line, refuse, lead, s, trail, word, topic, text);
    var outs, ok := SentTo(b.sent, d), OnLine(b, c, line, refuse).1;
    var more := outs + Delivered(b, d, topic, text, refuse);
    ReceivedOneMore(outs, Message(topic, text), t);
    ReceivedOneMore(more, Answer("+OK Published"), t);
    assert outs + [] == outs && more + [] == more;
  }

  /** A blank line does nothing, and any other line only earns its sender an error. */
  lemma {:induction false} OtherLine(b: Broker, c: Conn, line: string, refuse: set<Conn>, lead: string, s: string,
                                     trail: string, d: Conn)
    requires Around(line, lead, s, trail)
    requires forall word, topic, more :: !IsSub(s, word, topic, more)
    requires forall word, topic, text :: !IsPub(s, word, topic, text)
    ensures var (b', ok) := OnLine(b, c, line, refuse);
      if s == "" then b' == b && ok
      else
        && ok == (c !in b.closed && c !in refuse) && b' == b.(sent := b'.sent)
        && SentTo(b'.sent, d) == SentTo(b.sent, d) + Answered(d, c, ok, "-ERR Unknown Command")
  {
    hide CommandOf, SentTo, Reply;
    if s == "" {
      ReadBlank(line);
    } else {
      ReadOther(line, lead, s, trail);
      Replied(b, c, "-ERR Unknown Command", refuse, d);
    }
  }

  // ---- Chunks ----

  /** A whole line in one chunk, with nothing waiting, is worked off; a failure ends the connection. */
  lemma {:induction false} LineInAChunk(b: Broker, c: Conn, line: string, refuse: nat -> set<Conn>, from: nat)
    requires BufferOf(b, c) == "" && '\n' !in line
    requires !("GET " <= line + NEWLINE) && !("HEAD " <= line + NEWLINE)
    ensures var (b', ok) := OnLine(b, c, line, refuse(from));
      OnData(b, c, line + NEWLINE, refuse, from) == if ok then b'.(buffers := b'.buffers[c := ""]) else Cleanup(b', c)
  {
    hide OnLine;
    F.LinesRoundTrip([line], "");
    assert F.Unlines([line]) + "" == line + NEWLINE by { OneLine(line); }
    assert BufferOf(b, c) + (line + NEWLINE) == line + NEWLINE;
    var (b', ok) := OnLine(b, c, line, refuse(from));
    assert OnLines(b', c, [line], refuse, from, 1) == (b', true);
  }

  lemma {:induction false} OneLine(line: string)
    ensures F.Unlines([line]) + "" == line + NEWLINE
  {
    assert [line][1..] == [];
  }

  /**
   A health check is answered, and the connection closed; it stays on its topics, so that a later
   publication finds it unreachable.
   */
  lemma {:induction false} HealthChecked(b: Broker, c: Conn, data: string, refuse: nat -> set<Conn>, from: nat, d: Conn)
    requires "GET " <= data || "HEAD " <= data
    ensures var b' := OnData(b, c, data, refuse, from);
      && b'.subscribers == b.subscribers && b'.log == b.log
      && b'.closed == b.closed + {c} && b'.buffers == b.buffers - {c}
      && SentTo(b'.sent, d) ==
         SentTo(b.sent, d) + Answered(d, c, c !in b.closed && c !in refuse(from), "HTTP/1.1 200 OK")
  {
    hide SentTo, Reply;
    Replied(b, c, "HTTP/1.1 200 OK", refuse(from), d);
  }

  /** The end of a client's stream takes it off every topic, and closes it. */
  lemma {:induction false} StreamEnded(b: Broker, c: Conn, refuse: nat -> set<Conn>, from: nat, t: string)
    ensures var b' := OnData(b, c, "", refuse, from);
      && On(b'.subscribers, t) == On(b.subscribers, t) - {c} && b'.sent == b.sent
      && b'.closed == b.closed + {c} && b'.buffers == b.buffers - {c} && b'.log == b.log + [Removed({c})]
  {
    DetachedOn(b.subscribers, {c}, t);
  }
}
