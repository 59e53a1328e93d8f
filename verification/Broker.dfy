/**
 The message broker of event_bus/broker_service.py: lines cut from what each client sends, and the
 commands SUB and PUB on the map of subscribers.
 */
module Broker {
  import opened Text

  type Conn = nat

  const NEWLINE: string := "\n"
  const SPACE: string := " "

  /** What a connection was sent: an answer to a command, or a message published on a topic. */
  datatype Out = Answer(text: string) | Message(topic: string, text: string)

  /** History: a subscription, a publication, connections taken off all topics. */
  datatype Event =
    | Subscribed(conn: Conn, topic: string)
    | Published(topic: string, text: string)
    | Removed(conns: set<Conn>)

  type Subscribers = map<string, set<Conn>>

  type Sent = map<Conn, seq<Out>>

  /** `closed` and `sent` are what became of the sockets; `log` is history. */
  datatype Broker = Broker(subscribers: Subscribers, buffers: map<Conn, string>,
                         closed: set<Conn>, sent: Sent, log: seq<Event>)

  const INIT := Broker(map[], map[], {}, map[], [])

  function On(subs: Subscribers, topic: string): set<Conn> { if topic in subs then subs[topic] else {} }

  function SentTo(sent: Sent, c: Conn): seq<Out> { if c in sent then sent[c] else [] }

  function Send(sent: Sent, to: set<Conn>, o: Out): Sent { sent + map c | c in to :: SentTo(sent, c) + [o] }

  // ---- Lines ----

  /** The complete lines of `s`, without their newlines, and what is left. */
  function CutLines(s: string): (seq<string>, string)
    decreases |s|
  {
    var i := Find(s, NEWLINE);
    if i == -1 then ([], s)
    else
      var (lines, rest) := CutLines(s[i + 1..]);
      ([s[..i]] + lines, rest)
  }

  /** A chunk taken for an HTTP health check. */
  predicate IsHttp(chunk: string) { "GET " <= chunk || "HEAD " <= chunk }

  /** Python's `s.split(" ", 2)`. */
  function SplitTwice(s: string): (parts: seq<string>)
    ensures 1 <= |parts| <= 3
  {
    var i := Find(s, SPACE);
    if i == -1 then [s]
    else
      var rest := s[i + 1..];
      var j := Find(rest, SPACE);
      if j == -1 then [s[..i], rest] else [s[..i], rest[..j], rest[j + 1..]]
  }

  datatype Command = Blank | Sub(topic: string) | Pub(topic: string, text: string) | Unknown

  function CommandOf(line: string): Command {
    var s := Strip(line);
    if s == "" then Blank
    else
      var parts := SplitTwice(s);
      var name := Upper(parts[0]);
      if name == "SUB" && |parts| >= 2 then Sub(parts[1])
      else if name == "PUB" && |parts| >= 3 then Pub(parts[1], parts[2])
      else Unknown
  }

  // ---- The operations ----

  /** Take connections off all topics; topics without subscribers disappear. */
  function Detached(subs: Subscribers, conns: set<Conn>): Subscribers {
    map t | t in subs && subs[t] - conns != {} :: subs[t] - conns
  }

  function Detach(b: Broker, conns: set<Conn>): Broker {
    Broker(Detached(b.subscribers, conns), b.buffers - conns, b.closed + conns, b.sent, b.log)
  }

  function Cleanup(b: Broker, c: Conn): Broker {
    Detach(b, {c}).(log := b.log + [Removed({c})])
  }

  function OnSub(b: Broker, c: Conn, topic: string): Broker {
    b.(subscribers := b.subscribers[topic := On(b.subscribers, topic) + {c}], log := b.log + [Subscribed(c, topic)])
  }

  /** The subscribers that cannot be sent to: closed, or refusing. */
  function Dead(b: Broker, topic: string, refuse: set<Conn>): set<Conn> {
    On(b.subscribers, topic) * (b.closed + refuse)
  }

  /** To each subscriber the message is sent, once; those that fail are removed. */
  function OnPub(b: Broker, topic: string, text: string, refuse: set<Conn>): Broker {
    var dead := Dead(b, topic, refuse);
    Detach(b, dead).(sent := Send(b.sent, On(b.subscribers, topic) - dead, Message(topic, text)),
                     log := b.log + [Removed(dead), Published(topic, text)])
  }

  /** Answering fails, as an exception, when the connection is closed or refuses. */
  function Reply(b: Broker, c: Conn, text: string, refuse: set<Conn>): (Broker, bool) {
    if c in b.closed + refuse then (b, false) else (b.(sent := Send(b.sent, {c}, Answer(text))), true)
  }

  /** One line of `c`, with the connections that refuse to be sent to meanwhile. */
  function OnLine(b: Broker, c: Conn, line: string, refuse: set<Conn>): (Broker, bool) {
    match CommandOf(line)
    case Blank => (b, true)
    case Sub(topic) => Reply(OnSub(b, c, topic), c, "+OK Subscribed", refuse)
    case Pub(topic, text) => Reply(OnPub(b, topic, text, refuse), c, "+OK Published", refuse)
    case Unknown => Reply(b, c, "-ERR Unknown Command", refuse)
  }

  /** Lines in turn, from number `i`, up to the first failure; `refuse` says who refuses, counting lines from `from`. */
  function OnLines(b: Broker, c: Conn, lines: seq<string>, refuse: nat -> set<Conn>, from: nat, i: nat): (Broker, bool)
    requires i <= |lines|
    decreases |lines| - i
  {
    if i == |lines| then (b, true)
    else
      var (b', ok) := OnLine(b, c, lines[i], refuse(from + i));
      if ok then OnLines(b', c, lines, refuse, from, i + 1) else (b', false)
  }

  function BufferOf(b: Broker, c: Conn): string { if c in b.buffers then b.buffers[c] else "" }

  /** A health check is answered and closed; the connection is not taken off its topics. */
  function OnHttp(b: Broker, c: Conn, refuse: set<Conn>): Broker {
    var b' := Reply(b, c, "HTTP/1.1 200 OK", refuse).0;
    b'.(closed := b.closed + {c}, buffers := b.buffers - {c})
  }

  /** A chunk from `c`, with `from` lines before it; an empty one is the end of its stream. */
  function OnData(b: Broker, c: Conn, data: string, refuse: nat -> set<Conn>, from: nat): Broker {
    if data == "" then Cleanup(b, c)
    else if IsHttp(data) then OnHttp(b, c, refuse(from))
    else
      var (lines, rest) := CutLines(BufferOf(b, c) + data);
      var (b', ok) := OnLines(b, c, lines, refuse, from, 0);
      if ok then b'.(buffers := b'.buffers[c := rest]) else Cleanup(b', c)
  }

  /** No topic is kept without a subscriber. */
  ghost predicate NoEmptyTopic(subs: Subscribers) { forall t :: t in subs ==> subs[t] != {} }

  lemma {:induction false} DetachMore(b: Broker, conns: set<Conn>, c: Conn)
    ensures Detach(Detach(b, conns), {c}) == Detach(b, conns + {c})
  {
    var subs := b.subscribers;
    assert forall t :: t in subs ==> (subs[t] - conns) - {c} == subs[t] - (conns + {c});
    assert Detached(Detached(subs, conns), {c}) == Detached(subs, conns + {c});
    assert (b.buffers - conns) - {c} == b.buffers - (conns + {c});
    assert (b.closed + conns) + {c} == b.closed + (conns + {c});
  }

  lemma {:induction false} DetachNobody(b: Broker)
    requires NoEmptyTopic(b.subscribers)
    ensures Detach(b, {}) == b
  {
    assert forall t :: t in b.subscribers ==> b.subscribers[t] - {} == b.subscribers[t];
    assert Detached(b.subscribers, {}) == b.subscribers;
    assert b.buffers - {} == b.buffers && b.closed + {} == b.closed;
  }

  lemma {:induction false} SendNobody(sent: Sent, o: Out)
    ensures Send(sent, {}, o) == sent
  {
  }

  lemma {:induction false} SendMore(sent: Sent, to: set<Conn>, c: Conn, o: Out)
    requires c !in to
    ensures Send(sent, to, o)[c := SentTo(Send(sent, to, o), c) + [o]] == Send(sent, to + {c}, o)
  {
  }

  lemma {:induction false} CutStep(s: string)
    ensures var i := Find(s, NEWLINE);
      if i == -1 then CutLines(s) == ([], s)
      else CutLines(s) == ([s[..i]] + CutLines(s[i + 1..]).0, CutLines(s[i + 1..]).1)
  {
  }

  lemma {:induction false} NextLine(lines: seq<string>, n: nat, line: string, after: seq<string>)
    requires n <= |lines| && lines == lines[..n] + ([line] + after)
    ensures n < |lines| && lines[n] == line && lines == lines[..n + 1] + after
  {
    assert lines[..n + 1] == lines[..n] + [line];
  }

  // ---- The broker object ----

  class PubSubBroker {
    var subscribers: Subscribers
    var buffers: map<Conn, string>
    var closed: set<Conn>
    var sent: Sent
    ghost var log: seq<Event>

    ghost function View(): Broker
      reads this
    {
      Broker(subscribers, buffers, closed, sent, log)
    }

    ghost predicate Valid()
      reads this
    {
      NoEmptyTopic(subscribers)
    }

    constructor ()
      ensures Valid() && View() == INIT
    {
      subscribers, buffers, closed, sent, log := map[], map[], {}, map[], [];
    }

    method AcceptConnection(conn: Conn)
      requires Valid()
      modifies this`buffers
      ensures Valid() && View() == old(View()).(buffers := old(buffers)[conn := ""])
    {
      buffers := buffers[conn := ""];
    }

    /** Close a connection and take it off every topic, deleting the topics left empty. */
    method Disconnect(conn: Conn)
      requires Valid()
      modifies this`subscribers, this`buffers, this`closed
      ensures Valid() && View() == Detach(old(View()), {conn})
    {
      closed, buffers := closed + {conn}, buffers - {conn};
      var topics := subscribers.Keys;
      while topics != {}
        invariant closed == old(closed) + {conn} && buffers == old(buffers) - {conn}
        invariant topics <= old(subscribers).Keys
        invariant subscribers.Keys <= old(subscribers).Keys
        invariant forall t :: t in topics ==> t in subscribers && subscribers[t] == old(subscribers)[t]
        invariant forall t :: t in old(subscribers) && t !in topics ==>
          (t in subscribers <==> old(subscribers)[t] - {conn} != {})
        invariant forall t :: t in subscribers && t !in topics ==> subscribers[t] == old(subscribers)[t] - {conn}
        decreases topics
      {
        var topic :| topic in topics;
        topics := topics - {topic};
        if conn in subscribers[topic] {
          var conns := subscribers[topic] - {conn};
          if conns == {} {
            subscribers := subscribers - {topic};
          } else {
            subscribers := subscribers[topic := conns];
          }
        }
      }
      assert subscribers == Detached(old(subscribers), {conn});
      assert View() == Detach(old(View()), {conn});
    }

    method CleanupClient(conn: Conn)
      requires Valid()
      modifies this
      ensures Valid() && View() == Cleanup(old(View()), conn)
    {
      Disconnect(conn);
      log := log + [Removed({conn})];
    }

    /** The loop that sends a message to the subscribers and collects those that fail. */
    method SendAll(topic: string, text: string, refuse: set<Conn>) returns (dead: set<Conn>)
      requires Valid()
      modifies this`sent
      ensures dead == Dead(old(View()), topic, refuse)
      ensures sent == Send(old(sent), On(subscribers, topic) - dead, Message(topic, text))
    {
      hide Send, SentTo;
      dead := {};
      var receivers := if topic in subscribers then subscribers[topic] else {};
      var todo := receivers;
      ghost var reached: set<Conn> := {};
      SendNobody(sent, Message(topic, text));
      while todo != {}
        invariant todo <= receivers && dead == (receivers - todo) * (closed + refuse)
        invariant reached == (receivers - todo) - (closed + refuse)
        invariant sent == Send(old(sent), reached, Message(topic, text))
        decreases todo
      {
        var c :| c in todo;
        todo := todo - {c};
        if c in closed || c in refuse {
          dead := dead + {c};
        } else {
          SendMore(old(sent), reached, c, Message(topic, text));
          sent := sent[c := SentTo(sent, c) + [Message(topic, text)]];
          reached := reached + {c};
        }
      }
      assert reached == receivers - dead;
    }

    method Publish(topic: string, text: string, refuse: set<Conn>)
      requires Valid()
      modifies this
      ensures Valid() && View() == OnPub(old(View()), topic, text, refuse)
    {
      var dead := SendAll(topic, text, refuse);
      ghost var before := View();
      var todo := dead;
      DetachNobody(before);
      assert dead - todo == {};
      while todo != {}
        invariant Valid() && todo <= dead
        invariant View() == Detach(before, dead - todo)
        decreases todo
      {
        var c :| c in todo;
        DetachMore(before, dead - todo, c);
        Disconnect(c);
        assert dead - (todo - {c}) == (dead - todo) + {c};
        todo := todo - {c};
      }
      assert dead - {} == dead;
      log := log + [Removed(dead), Published(topic, text)];
    }

    method Subscribe(conn: Conn, topic: string)
      requires Valid()
      modifies this`subscribers, this`log
      ensures Valid() && View() == OnSub(old(View()), conn, topic)
    {
      if topic !in subscribers {
        subscribers := subscribers[topic := {}];
      }
      subscribers := subscribers[topic := subscribers[topic] + {conn}];
      log := log + [Subscribed(conn, topic)];
      assert subscribers == old(subscribers)[topic := On(old(subscribers), topic) + {conn}];
    }

    method Respond(conn: Conn, text: string, refuse: set<Conn>) returns (ok: bool)
      requires Valid()
      modifies this`sent
      ensures Valid() && (View(), ok) == Reply(old(View()), conn, text, refuse)
    {
      ok := !(conn in closed || conn in refuse);
      if ok {
        sent := sent[conn := SentTo(sent, conn) + [Answer(text)]];
        assert sent == Send(old(sent), {conn}, Answer(text));
      }
    }

    method HandleLine(conn: Conn, line: string, refuse: set<Conn>) returns (ok: bool)
      requires Valid()
      modifies this
      ensures Valid() && (View(), ok) == OnLine(old(View()), conn, line, refuse)
    {
      match CommandOf(line)
      case Blank => ok := true;
      case Sub(topic) =>
        Subscribe(conn, topic);
        ok := Respond(conn, "+OK Subscribed", refuse);
      case Pub(topic, text) =>
        Publish(topic, text, refuse);
        ok := Respond(conn, "+OK Published", refuse);
      case Unknown =>
        ok := Respond(conn, "-ERR Unknown Command", refuse);
    }

    /** The loop over the complete lines of a buffer; `rest` is what is left when all went well. */
    method HandleLines(conn: Conn, buffer: string, refuse: nat -> set<Conn>, from: nat)
      returns (rest: string, ok: bool)
      requires Valid()
      modifies this
      ensures Valid() && (View(), ok) == OnLines(old(View()), conn, CutLines(buffer).0, refuse, from, 0)
      ensures ok ==> rest == CutLines(buffer).1
    {
      hide CutLines, Find, OnLine;
      rest, ok := buffer, true;
      ghost var lines := CutLines(buffer).0;
      var n := 0;
      var i := Find(rest, NEWLINE);
      CutStep(rest);
      while i != -1
        invariant Valid() && n <= |lines| && i == Find(rest, NEWLINE) && ok
        invariant lines == lines[..n] + CutLines(rest).0 && CutLines(rest).1 == CutLines(buffer).1
        invariant OnLines(old(View()), conn, lines, refuse, from, 0) == OnLines(View(), conn, lines, refuse, from, n)
        decreases |rest|
      {
        CutStep(rest);
        NextLine(lines, n, rest[..i], CutLines(rest[i + 1..]).0);
        ok := HandleLine(conn, rest[..i], refuse(from + n));
        rest := rest[i + 1..];
        if !ok {
          return;
        }
        n := n + 1;
        i := Find(rest, NEWLINE);
      }
      CutStep(rest);
    }

    method HandleClient(conn: Conn, data: string, refuse: nat -> set<Conn>, from: nat)
      requires Valid()
      modifies this
      ensures Valid() && View() == OnData(old(View()), conn, data, refuse, from)
    {
      if data == "" {
        CleanupClient(conn);
        return;
      }
      if IsHttp(data) {
        var answered := Respond(conn, "HTTP/1.1 200 OK", refuse(from));
        closed, buffers := closed + {conn}, buffers - {conn};
        return;
      }
      var buffer := (if conn in buffers then buffers[conn] else "") + data;
      var rest, ok := HandleLines(conn, buffer, refuse, from);
      if ok {
        buffers := buffers[conn := rest];
      } else {
        CleanupClient(conn);
      }
    }
  }
}
