/**
 What clients of the broker can rely on: who receives what, in which order; and that what the
 broker does depends on the bytes a client sends, not on how they are cut, exactly when no cut can
 make a chunk look like a health check.
 */
module BrokerRuns {
  import opened Broker
  import F = BrokerFraming

  // ---- Runs ----

  datatype Step = Accept(conn: Conn) | Data(conn: Conn, data: string, refuse: nat -> set<Conn>)

  function Next(b: Broker, step: Step): Broker {
    match step
    case Accept(c) => b.(buffers := b.buffers[c := ""])
    case Data(c, data, refuse) => OnData(b, c, data, refuse, 0)
  }

  function StateAt(steps: seq<Step>, i: nat): Broker
    requires i <= |steps|
  {
    if i == 0 then INIT else Next(StateAt(steps, i - 1), steps[i - 1])
  }

  // ---- What the history says ----

  /** By the history, `c` is subscribed to `topic`: it subscribed, and was not removed since. */
  predicate SubscribedIn(log: seq<Event>, c: Conn, topic: string) {
    log != [] &&
    match log[|log| - 1]
    case Subscribed(d, t) => (d == c && t == topic) || SubscribedIn(log[..|log| - 1], c, topic)
    case Removed(conns) => c !in conns && SubscribedIn(log[..|log| - 1], c, topic)
    case Published(_, _) => SubscribedIn(log[..|log| - 1], c, topic)
  }

  /** What `c` ought to have received on `topic`: what was published there while it was subscribed. */
  function Due(log: seq<Event>, c: Conn, topic: string): seq<string> {
    if log == [] then []
    else
      var before, e := log[..|log| - 1], log[|log| - 1];
      if e.Published? && e.topic == topic && SubscribedIn(before, c, topic) then Due(before, c, topic) + [e.text]
      else Due(before, c, topic)
  }

  /** What was published on `topic`. */
  function PublishedOn(log: seq<Event>, topic: string): seq<string> {
    if log == [] then []
    else
      var before, e := log[..|log| - 1], log[|log| - 1];
      if e.Published? && e.topic == topic then PublishedOn(before, topic) + [e.text] else PublishedOn(before, topic)
  }

  /** What a connection was sent on `topic`. */
  function Received(outs: seq<Out>, topic: string): seq<string> {
    if outs == [] then []
    else
      var before, o := outs[..|outs| - 1], outs[|outs| - 1];
      if o.Message? && o.topic == topic then Received(before, topic) + [o.text] else Received(before, topic)
  }

  /** The map of subscribers and what was sent are as the history says. */
  ghost predicate AsRecorded(b: Broker, c: Conn, topic: string) {
    && (c in On(b.subscribers, topic) <==> SubscribedIn(b.log, c, topic))
    && Received(SentTo(b.sent, c), topic) == Due(b.log, c, topic)
  }

  lemma {:induction false} ReceivedOneMore(outs: seq<Out>, o: Out, topic: string)
    ensures Received(outs + [o], topic) ==
            if o.Message? && o.topic == topic then Received(outs, topic) + [o.text] else Received(outs, topic)
  {
    assert (outs + [o])[..|outs|] == outs;
  }

  lemma {:induction false} OneMoreEvent(log: seq<Event>, e: Event, c: Conn, topic: string)
    ensures SubscribedIn(log + [e], c, topic) ==
            match e
            case Subscribed(d, t) => (d == c && t == topic) || SubscribedIn(log, c, topic)
            case Removed(conns) => c !in conns && SubscribedIn(log, c, topic)
            case Published(_, _) => SubscribedIn(log, c, topic)
    ensures Due(log + [e], c, topic) ==
            if e.Published? && e.topic == topic && SubscribedIn(log, c, topic) then Due(log, c, topic) + [e.text]
            else Due(log, c, topic)
  {
    assert (log + [e])[..|log|] == log;
  }

  lemma {:induction false} DetachedOn(subs: Subscribers, conns: set<Conn>, topic: string)
    ensures On(Detached(subs, conns), topic) == On(subs, topic) - conns
  {
  }

  lemma {:induction false} SentAfter(sent: Sent, to: set<Conn>, o: Out, c: Conn)
    ensures SentTo(Send(sent, to, o), c) == if c in to then SentTo(sent, c) + [o] else SentTo(sent, c)
  {
  }

  lemma {:induction false} CleanupRecorded(b: Broker, d: Conn, c: Conn, topic: string)
    requires AsRecorded(b, c, topic)
    ensures AsRecorded(Cleanup(b, d), c, topic)
  {
    hide Detached, SubscribedIn, Due;
    DetachedOn(b.subscribers, {d}, topic);
    OneMoreEvent(b.log, Removed({d}), c, topic);
  }

  lemma {:induction false} SubRecorded(b: Broker, d: Conn, t: string, c: Conn, topic: string)
    requires AsRecorded(b, c, topic)
    ensures AsRecorded(OnSub(b, d, t), c, topic)
  {
    hide SubscribedIn, Due;
    OneMoreEvent(b.log, Subscribed(d, t), c, topic);
  }

  lemma {:induction false} PubRecorded(b: Broker, t: string, text: string, refuse: set<Conn>, c: Conn, topic: string)
    requires AsRecorded(b, c, topic)
    ensures AsRecorded(OnPub(b, t, text, refuse), c, topic)
  {
    hide SubscribedIn, Due, Detached, Send, SentTo, Received;
    var dead := Dead(b, t, refuse);
    var log1 := b.log + [Removed(dead)];
    DetachedOn(b.subscribers, dead, topic);
    OneMoreEvent(b.log, Removed(dead), c, topic);
    OneMoreEvent(log1, Published(t, text), c, topic);
    assert b.log + [Removed(dead), Published(t, text)] == log1 + [Published(t, text)];
    SentAfter(b.sent, On(b.subscribers, t) - dead, Message(t, text), c);
    ReceivedOneMore(SentTo(b.sent, c), Message(t, text), topic);
  }

  lemma {:induction false} ReplyRecorded(b: Broker, d: Conn, text: string, refuse: set<Conn>, c: Conn, topic: string)
    requires AsRecorded(b, c, topic)
    ensures AsRecorded(Reply(b, d, text, refuse).0, c, topic)
  {
    hide SubscribedIn, Due, Send, SentTo, Received;
    SentAfter(b.sent, {d}, Answer(text), c);
    ReceivedOneMore(SentTo(b.sent, c), Answer(text), topic);
  }

  lemma {:induction false} LineRecorded(b: Broker, d: Conn, line: string, refuse: set<Conn>, c: Conn, topic: string)
    requires AsRecorded(b, c, topic)
    ensures AsRecorded(OnLine(b, d, line, refuse).0, c, topic)
  {
    hide AsRecorded, OnSub, OnPub, Reply, CommandOf;
    match CommandOf(line)
    case Blank =>
    case Sub(t) =>
      SubRecorded(b, d, t, c, topic);
      ReplyRecorded(OnSub(b, d, t), d, "+OK Subscribed", refuse, c, topic);
    case Pub(t, text) =>
      PubRecorded(b, t, text, refuse, c, topic);
      ReplyRecorded(OnPub(b, t, text, refuse), d, "+OK Published", refuse, c, topic);
    case Unknown => ReplyRecorded(b, d, "-ERR Unknown Command", refuse, c, topic);
  }

  lemma {:induction false} LinesRecorded(b: Broker, d: Conn, lines: seq<string>, refuse: nat -> set<Conn>,
                                         i: nat, c: Conn, topic: string)
    requires i <= |lines| && AsRecorded(b, c, topic)
    ensures AsRecorded(OnLines(b, d, lines, refuse, 0, i).0, c, topic)
    decreases |lines| - i
  {
    hide AsRecorded, OnLine;
    if i < |lines| {
      LineRecorded(b, d, lines[i], refuse(i), c, topic);
      LinesRecorded(OnLine(b, d, lines[i], refuse(i)).0, d, lines, refuse, i + 1, c, topic);
    }
  }

  lemma {:induction false} BuffersDoNotMatter(b: Broker, b': Broker, c: Conn, topic: string)
    requires AsRecorded(b, c, topic) && b' == b.(buffers := b'.buffers, closed := b'.closed)
    ensures AsRecorded(b', c, topic)
  {
  }

  lemma {:induction false} DataRecorded(b: Broker, d: Conn, data: string, refuse: nat -> set<Conn>, c: Conn,
                                        topic: string)
    requires AsRecorded(b, c, topic)
    ensures AsRecorded(OnData(b, d, data, refuse, 0), c, topic)
  {
    hide AsRecorded, OnLines, Cleanup, CutLines, Reply;
    if data == "" {
      CleanupRecorded(b, d, c, topic);
    } else if IsHttp(data) {
      ReplyRecorded(b, d, "HTTP/1.1 200 OK", refuse(0), c, topic);
      BuffersDoNotMatter(Reply(b, d, "HTTP/1.1 200 OK", refuse(0)).0, OnHttp(b, d, refuse(0)), c, topic);
    } else {
      var lines, rest := CutLines(BufferOf(b, d) + data).0, CutLines(BufferOf(b, d) + data).1;
      LinesRecorded(b, d, lines, refuse, 0, c, topic);
      var b' := OnLines(b, d, lines, refuse, 0, 0).0;
      CleanupRecorded(b', d, c, topic);
      BuffersDoNotMatter(b', b'.(buffers := b'.buffers[d := rest]), c, topic);
    }
  }

  /** In every run the subscribers and what each was sent are as the history says. */
  lemma {:induction false} AlwaysAsRecorded(steps: seq<Step>, i: nat, c: Conn, topic: string)
    requires i <= |steps|
    ensures AsRecorded(StateAt(steps, i), c, topic)
  {
    hide OnData;
    if i > 0 {
      AlwaysAsRecorded(steps, i - 1, c, topic);
      match steps[i - 1]
      case Accept(_) => BuffersDoNotMatter(StateAt(steps, i - 1), StateAt(steps, i), c, topic);
      case Data(d, data, refuse) => DataRecorded(StateAt(steps, i - 1), d, data, refuse, c, topic);
    }
  }

  /** In every run, what is kept for a connection is an unfinished line. */
  lemma {:induction false} NoLineWaits(steps: seq<Step>, i: nat, d: Conn)
    requires i <= |steps|
    ensures '\n' !in BufferOf(StateAt(steps, i), d)
  {
    hide OnData;
    if i > 0 {
      NoLineWaits(steps, i - 1, d);
      match steps[i - 1]
      case Accept(_) =>
      case Data(c, data, refuse) => F.KeptIsUnfinished(StateAt(steps, i - 1), c, data, refuse, 0, d);
    }
  }

  // ---- The log only grows ----

  lemma {:induction false} LineLogs(b: Broker, d: Conn, line: string, refuse: set<Conn>)
    ensures b.log <= OnLine(b, d, line, refuse).0.log
  {
    hide CommandOf, Detached, Send;
  }

  lemma {:induction false} LinesLog(b: Broker, d: Conn, lines: seq<string>, refuse: nat -> set<Conn>, i: nat)
    requires i <= |lines|
    ensures b.log <= OnLines(b, d, lines, refuse, 0, i).0.log
    decreases |lines| - i
  {
    hide OnLine;
    if i < |lines| {
      LineLogs(b, d, lines[i], refuse(i));
      LinesLog(OnLine(b, d, lines[i], refuse(i)).0, d, lines, refuse, i + 1);
    }
  }

  lemma {:induction false} DataLogs(b: Broker, d: Conn, data: string, refuse: nat -> set<Conn>)
    ensures b.log <= OnData(b, d, data, refuse, 0).log
  {
    hide OnLines, CutLines;
    LinesLog(b, d, CutLines(BufferOf(b, d) + data).0, refuse, 0);
  }

  lemma {:induction false} LogGrows(steps: seq<Step>, i: nat, j: nat)
    requires i <= j <= |steps|
    ensures StateAt(steps, i).log <= StateAt(steps, j).log
    decreases j
  {
    hide OnData;
    if i < j {
      LogGrows(steps, i, j - 1);
      match steps[j - 1]
      case Accept(_) =>
      case Data(d, data, refuse) => DataLogs(StateAt(steps, j - 1), d, data, refuse);
    }
  }

  // ---- Delivery ----

  /** `c` is not taken off its topics from event `from` on. */
  ghost predicate NotRemoved(log: seq<Event>, from: nat, c: Conn) {
    forall k :: from <= k < |log| && log[k].Removed? ==> c !in log[k].conns
  }

  lemma {:induction false} DueBetween(log: seq<Event>, from: nat, c: Conn, topic: string)
    requires from <= |log| && SubscribedIn(log[..from], c, topic) && NotRemoved(log, from, c)
    ensures SubscribedIn(log, c, topic)
    ensures Due(log, c, topic) == Due(log[..from], c, topic) + PublishedOn(log[from..], topic)
    decreases |log|
  {
    if from == |log| {
      assert log[..from] == log;
    } else {
      var before, last := log[..|log| - 1], |log| - 1;
      assert before[..from] == log[..from] && before[from..] == log[from..][..|log[from..]| - 1];
      assert log[from..][|log[from..]| - 1] == log[last];
      DueBetween(before, from, c, topic);
    }
  }

  lemma {:induction false} NothingDue(log: seq<Event>, from: nat, c: Conn, topic: string)
    requires from <= |log| && !SubscribedIn(log[..from], c, topic)
    requires forall k :: from <= k < |log| ==> log[k] != Subscribed(c, topic)
    ensures !SubscribedIn(log, c, topic) && Due(log, c, topic) == Due(log[..from], c, topic)
    decreases |log|
  {
    if from == |log| {
      assert log[..from] == log;
    } else {
      assert log[..|log| - 1][..from] == log[..from];
      NothingDue(log[..|log| - 1], from, c, topic);
    }
  }

  /** What happened between two moments of a run. */
  function Between(steps: seq<Step>, i: nat, j: nat): (news: seq<Event>)
    requires i <= j <= |steps|
  {
    LogGrows(steps, i, j);
    StateAt(steps, j).log[|StateAt(steps, i).log|..]
  }

  function ReceivedAt(steps: seq<Step>, i: nat, c: Conn, topic: string): seq<string>
    requires i <= |steps|
  {
    Received(SentTo(StateAt(steps, i).sent, c), topic)
  }

  /**
   Exact delivery: a client subscribed to a topic, and not removed meanwhile, receives on that topic
   exactly what is published there meanwhile, each message once, in the order of publication; and
   it is still subscribed.
   */
  lemma {:induction false} ExactDelivery(steps: seq<Step>, i: nat, j: nat, c: Conn, topic: string)
    requires i <= j <= |steps| && c in On(StateAt(steps, i).subscribers, topic)
    requires NotRemoved(Between(steps, i, j), 0, c)
    ensures ReceivedAt(steps, j, c, topic) == ReceivedAt(steps, i, c, topic) + PublishedOn(Between(steps, i, j), topic)
    ensures c in On(StateAt(steps, j).subscribers, topic)
  {
    hide StateAt, SubscribedIn, Due, Received, PublishedOn;
    var log, from := StateAt(steps, j).log, |StateAt(steps, i).log|;
    LogGrows(steps, i, j);
    AlwaysAsRecorded(steps, i, c, topic);
    AlwaysAsRecorded(steps, j, c, topic);
    assert log[..from] == StateAt(steps, i).log;
    assert forall k :: from <= k < |log| ==> log[k] == Between(steps, i, j)[k - from];
    DueBetween(log, from, c, topic);
  }

  /** A client that is not subscribed, and does not subscribe meanwhile, receives nothing on the topic. */
  lemma {:induction false} NoDelivery(steps: seq<Step>, i: nat, j: nat, c: Conn, topic: string)
    requires i <= j <= |steps| && c !in On(StateAt(steps, i).subscribers, topic)
    requires Subscribed(c, topic) !in Between(steps, i, j)
    ensures ReceivedAt(steps, j, c, topic) == ReceivedAt(steps, i, c, topic)
    ensures c !in On(StateAt(steps, j).subscribers, topic)
  {
    hide StateAt, SubscribedIn, Due, Received;
    var log, from := StateAt(steps, j).log, |StateAt(steps, i).log|;
    LogGrows(steps, i, j);
    AlwaysAsRecorded(steps, i, c, topic);
    AlwaysAsRecorded(steps, j, c, topic);
    assert log[..from] == StateAt(steps, i).log;
    assert forall k :: from <= k < |log| ==> log[k] == Between(steps, i, j)[k - from];
    NothingDue(log, from, c, topic);
  }

  /** Total order: two clients subscribed over the same time receive the same messages in the same order. */
  lemma {:induction false} SameOrder(steps: seq<Step>, i: nat, j: nat, c: Conn, d: Conn, topic: string)
    requires i <= j <= |steps|
    requires c in On(StateAt(steps, i).subscribers, topic) && NotRemoved(Between(steps, i, j), 0, c)
    requires d in On(StateAt(steps, i).subscribers, topic) && NotRemoved(Between(steps, i, j), 0, d)
    ensures exists news :: ReceivedAt(steps, j, c, topic) == ReceivedAt(steps, i, c, topic) + news
                        && ReceivedAt(steps, j, d, topic) == ReceivedAt(steps, i, d, topic) + news
  {
    ExactDelivery(steps, i, j, c, topic);
    ExactDelivery(steps, i, j, d, topic);
  }
}
