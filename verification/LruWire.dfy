/**
 Clients and the cache server over the wire: what the server does with the commands sent, in
 whatever chunks they arrive, and what a client gets back.
 */
module LruWire {
  import opened Wrappers
  import opened Text
  import opened Resp
  import opened RespFraming
  import opened LruCache
  import L = LruStore

  // ---- The command loop acts on the values it reads ----

  datatype Acted = Acted(server: Server, output: string, open: bool)

  function Act(s: Server, cap: Capacity, values: seq<Value>, output: string): Acted
    decreases |values|
  {
    if values == [] then Acted(s, output, true)
    else
      var c := CommandOf(values[0]);
      if Continues(s, c) then Act(Execute(s, cap, c), cap, values[1..], output + Answer(s, c))
      else Acted(Execute(s, cap, c), output + Answer(s, c), false)
  }

  lemma {:induction false} ServeActs(s: Server, cap: Capacity, buffer: string, output: string)
    ensures var r, a := Serve(s, cap, buffer, output), Act(s, cap, Decode(buffer).0, output);
      && r.server == a.server && r.output == a.output
      && r.open == (a.open && !Parse(Decode(buffer).1).Raised?) && (r.open ==> r.rest == Decode(buffer).1)
    decreases |buffer|
  {
    hide Execute, Answer, Continues, CommandOf;
    match Parse(buffer)
    case Raised =>
    case Parsed(value, rest) =>
      if value != Null {
        var c := CommandOf(value);
        var values := Decode(rest).0;
        assert ([value] + values)[1..] == values;
        if Continues(s, c) {
          ServeActs(Execute(s, cap, c), cap, rest, output + Answer(s, c));
        }
      }
  }

  lemma {:induction false} ActInParts(s: Server, cap: Capacity, a: seq<Value>, b: seq<Value>, output: string)
    ensures var first := Act(s, cap, a, output);
      Act(s, cap, a + b, output) == if first.open then Act(first.server, cap, b, first.output) else first
    decreases |a|
  {
    hide Execute, Answer, Continues, CommandOf;
    if a == [] {
      assert a + b == b;
    } else {
      var c := CommandOf(a[0]);
      assert (a + b)[1..] == a[1..] + b;
      if Continues(s, c) {
        ActInParts(Execute(s, cap, c), cap, a[1..], b, output + Answer(s, c));
      }
    }
  }

  /** The connection: chunks in turn, until it is closed. */
  function ServeChunks(s: Server, cap: Capacity, kept: string, chunks: seq<string>, output: string): Served
    decreases |chunks|
  {
    if chunks == [] then Served(s, kept, output, true)
    else if HealthCheck(chunks[0]) then Served(s, kept, output + HEALTH_REPLY, false)
    else
      var r := Serve(s, cap, kept + chunks[0], output);
      if r.open then ServeChunks(r.server, cap, r.rest, chunks[1..], r.output) else r
  }

  /** As long as the framing goes on, the server does what the values read say. */
  lemma {:induction false} ChunksAct(s: Server, cap: Capacity, kept: string, chunks: seq<string>, output: string)
    requires Feed(kept, chunks).open
    ensures var r, a := ServeChunks(s, cap, kept, chunks, output), Act(s, cap, Feed(kept, chunks).values, output);
      r.server == a.server && r.output == a.output && r.open == a.open && (r.open ==> r.rest == Feed(kept, chunks).kept)
    decreases |chunks|
  {
    hide Serve, Act, Decode, Parse;
    if chunks == [] {
      NothingToAct(s, cap, output);
    } else {
      var buffer := kept + chunks[0];
      var first, rest := Decode(buffer).0, Decode(buffer).1;
      ServeActs(s, cap, buffer, output);
      var r := Serve(s, cap, buffer, output);
      ActInParts(s, cap, first, Feed(rest, chunks[1..]).values, output);
      if r.open {
        ChunksAct(r.server, cap, rest, chunks[1..], r.output);
      }
    }
  }

  lemma {:induction false} NothingToAct(s: Server, cap: Capacity, output: string)
    ensures Act(s, cap, [], output) == Acted(s, output, true)
  {
  }

  /**
   A stream of printed commands does, in chunks whose cuts go unnoticed, what it does in one piece:
   exactly those commands, in order, up to the first that closes the connection, and their answers.
   */
  lemma {:induction false} ServedInChunks(s: Server, cap: Capacity, commands: seq<seq<string>>, chunks: seq<string>)
    requires AsciiCommands(commands) && Join(chunks) == PrintAll(commands) && Unnoticed(commands, 0, chunks)
    ensures var r, whole := ServeChunks(s, cap, "", chunks, ""), Serve(s, cap, PrintAll(commands), "");
      var a := Act(s, cap, Lists(commands), "");
      && Acted(r.server, r.output, r.open) == a && Acted(whole.server, whole.output, whole.open) == a
      && (r.open ==> r.rest == whole.rest == "")
  {
    hide Serve, Act, Unnoticed, Feed, ServeChunks;
    StreamFraming(commands, chunks);
    ChunksAct(s, cap, "", chunks, "");
    ServeActs(s, cap, PrintAll(commands), "");
    StreamRoundTrip(commands, "");
    EmptyText();
    assert PrintAll(commands) + "" == PrintAll(commands);
    assert Lists(commands) + [] == Lists(commands);
  }

  /**
   The command loop on printed commands with anything behind them: exactly those commands are
   executed and answered, in order, before it looks at what follows.
   */
  lemma {:induction false} ServeStream(s: Server, cap: Capacity, commands: seq<seq<string>>, tail: string,
                                       output: string)
    requires AsciiCommands(commands)
    ensures var r, a := Serve(s, cap, PrintAll(commands) + tail, output), Act(s, cap, Lists(commands), output);
      if a.open then r == Serve(a.server, cap, tail, a.output).(rest := r.rest)
      else !r.open && r.server == a.server && r.output == a.output
  {
    hide Serve, Act, Decode, Parse, PrintAll;
    var a, values := Act(s, cap, Lists(commands), output), Decode(tail).0;
    ServeActs(s, cap, PrintAll(commands) + tail, output);
    StreamRoundTrip(commands, tail);
    ActInParts(s, cap, Lists(commands), values, output);
    ServeActs(a.server, cap, tail, a.output);
  }

  // ---- A command cut where it is noticed too late ----

  /** What the cut argument begins, the rest of the text completes. */
  lemma {:induction false} CutRestJoins(args: seq<string>, temp: string) returns (m: nat)
    requires temp <= Bulks(args)
    ensures m <= |args| && CutRest(args, temp) + Bulks(args)[|temp|..] == Bulks(args[m..])
    decreases |args|
  {
    hide Bulk, Bulks;
    if args == [] || |temp| < |Bulk(args[0])| {
      m := 0;
      assert args[0..] == args && temp + Bulks(args)[|temp|..] == Bulks(args);
    } else {
      BulksFront(args);
      var n := |Bulk(args[0])|;
      assert temp[n..] <= Bulks(args[1..]);
      m := CutRestJoins(args[1..], temp[n..]);
      assert Bulks(args)[|temp|..] == Bulks(args[1..])[|temp| - n..];
      assert args[1..][m..] == args[m + 1..];
      m := m + 1;
    }
  }

  lemma {:induction false} DecodeBulks(args: seq<string>)
    requires AllAscii(args)
    ensures Decode(Bulks(args)) == (Texts(args), "")
    decreases |args|
  {
    hide Bulk, Parse;
    if args == [] {
      EmptyText();
    } else {
      BulksFront(args);
      BulkRoundTrip(args[0], Bulks(args[1..]));
      DecodeBulks(args[1..]);
      assert Texts(args) == [Reply(args[0])] + Texts(args[1..]);
    }
  }

  /** A text by itself is no command: the loop passes over it. */
  lemma {:induction false} TextsIgnored(s: Server, cap: Capacity, args: seq<string>, output: string)
    ensures Act(s, cap, Texts(args), output) == Acted(s, output, true)
    decreases |args|
  {
    if args != [] {
      TextsIgnored(s, cap, args[1..], output);
      assert Texts(args)[1..] == Texts(args[1..]) && output + "" == output;
    }
  }

  lemma {:induction false} HeaderFirst(args: seq<string>, n: nat)
    requires 0 < n <= |Print(args)|
    ensures !HealthCheck(Print(args)[..n])
  {
    assert Print(args)[..n][0] == '*';
  }

  /** The command the server takes a cut command for. */
  function CutInto(args: seq<string>, n: nat): Command
    requires n >= |Header(|args|)|
  {
    CommandOf(List(CutItems(args, n - |Header(|args|)|)))
  }

  /**
   A printed command cut in two where the cut is noticed too late: the server executes and answers
   the command with None for every argument not yet complete, and then passes over the rest.
   */
  lemma {:induction false} CutServed(s: Server, cap: Capacity, args: seq<string>, n: nat)
    requires AllAscii(args) && Opening(args) <= n < |Print(args)| && !HealthCheck(Print(args)[n..])
    ensures var r, c := ServeChunks(s, cap, "", [Print(args)[..n], Print(args)[n..]], ""), CutInto(args, n);
      && r.server == Execute(s, cap, c) && r.output == Answer(s, c) && r.open == Continues(s, c)
      && (r.open ==> r.rest == "")
  {
    hide Print, Header, Parse, Execute, Answer, Continues, CommandOf, Bulks, Bulk, Serve, CutItems, CutRest;
    var first, second, h := Print(args)[..n], Print(args)[n..], |Header(|args|)|;
    PrintParts(args);
    OpeningAtHeader(args);
    var rest, value := CutRest(args, Bulks(args)[..n - h]), List(CutItems(args, n - h));
    OpeningFits(args);
    HeaderFirst(args, n);
    CutCommand(args, n);
    assert Decode(first) == ([value], rest) by { DecodeOne(first, value, rest); }
    var m := CutRestJoins(args, Bulks(args)[..n - h]);
    assert second == Bulks(args)[n - h..];
    assert rest + second == Bulks(args[m..]);
    DecodeBulks(args[m..]);
    var chunks := [first, second];
    assert chunks[1..] == [second];
    assert "" + first == first;
    EmptyText();
    FeedTwo(first, second, value, rest, Texts(args[m..]));
    ChunksAct(s, cap, "", chunks, "");
    ActInParts(s, cap, [value], Texts(args[m..]), "");
    ActOne(s, cap, value);
    TextsIgnored(Execute(s, cap, CommandOf(value)), cap, args[m..], Answer(s, CommandOf(value)));
  }

  lemma {:induction false} OpeningAtHeader(args: seq<string>)
    ensures Opening(args) >= |Header(|args|)|
  {
  }

  lemma {:induction false} PrintParts(args: seq<string>)
    ensures Print(args) == Header(|args|) + Bulks(args)
  {
  }

  lemma {:induction false} DecodeOne(text: string, value: Value, rest: string)
    requires Parse(text) == Parsed(value, rest) && value != Null && Parse(rest) == Parsed(Null, rest)
    ensures Decode(text) == ([value], rest)
  {
    hide Parse;
    DecodeNothing(rest);
    assert [value] + [] == [value];
  }

  lemma {:induction false} FeedTwo(first: string, second: string, value: Value, rest: string, values: seq<Value>)
    requires !HealthCheck(first) && !HealthCheck(second) && Parse(rest) == Parsed(Null, rest)
    requires Decode(first) == ([value], rest) && Decode(rest + second) == (values, "")
    ensures Feed("", [first, second]) == Fed([value] + values, "", true)
  {
    hide Decode, HealthCheck;
    EmptyText();
    assert "" + first == first;
    assert [first, second][1..] == [second] && [second][1..] == [];
    assert Feed(rest, [second]) == Fed(values + [], "", true);
    assert values + [] == values;
  }

  lemma {:induction false} ActOne(s: Server, cap: Capacity, value: Value)
    ensures var c := CommandOf(value);
      Act(s, cap, [value], "") == Acted(Execute(s, cap, c), Answer(s, c), Continues(s, c))
  {
    hide Execute, Answer, Continues, CommandOf;
    var c := CommandOf(value);
    var values, output := [value], "" + Answer(s, c);
    assert output == Answer(s, c) && values[1..] == [];
    assert Act(s, cap, values, "") ==
      if Continues(s, c) then Act(Execute(s, cap, c), cap, values[1..], output)
      else Acted(Execute(s, cap, c), output, false);
    NothingToAct(Execute(s, cap, c), cap, Answer(s, c));
  }

  /**
   A SET cut inside its value stores None under its key; cut inside its key, it stores None under
   the key None. Either way it may evict, it is logged, and it is answered with +OK.
   */
  lemma {:induction false} CutSet(s: Server, cap: Capacity, key: string, value: string, n: nat)
    requires Ascii(key) && Ascii(value)
    requires var args := ["SET", key, value];
      Opening(args) <= n < |Print(args)| && !HealthCheck(Print(args)[n..])
    ensures var args := ["SET", key, value];
      var k := if n < Opening(args) + |Bulk(key)| then NoneKey else TextKey(key);
      ServeChunks(s, cap, "", [Print(args)[..n], Print(args)[n..]], "")
      == Served(OnSet(s, cap, k, Null), "", "+OK\r\n", true)
  {
    hide Print, Bulk, Bulks, ServeChunks, CommandOf, CutItems, OnSet;
    var args := ["SET", key, value];
    assert AllAscii(args);
    PrintParts(args);
    CutServed(s, cap, args, n);
    CutThree("SET", key, value, n - |Header(3)|);
    SetCommand(if n < Opening(args) + |Bulk(key)| then Null else Reply(key), Null);
  }

  lemma {:induction false} SetCommand(key: Value, value: Value)
    ensures CommandOf(List([Reply("SET"), key, value])) == Set(key, value)
  {
    assert Upper("SET") == "SET";
  }

  // ---- A printed command and its answer ----

  /** A printed command is taken for the command it is. */
  lemma {:induction false} ServePrinted(s: Server, cap: Capacity, args: seq<string>)
    requires AllAscii(args)
    ensures var r, c := Serve(s, cap, Print(args), ""), CommandOf(List(Texts(args)));
      && r.server == Execute(s, cap, c) && r.output == Answer(s, c) && r.open == Continues(s, c)
      && (r.open ==> r.rest == "")
  {
    hide Serve, Act, Answer, Execute, Continues, CommandOf;
    ServeActs(s, cap, Print(args), "");
    DecodeStep(args, "");
    EmptyText();
    assert Print(args) + "" == Print(args);
    assert [List(Texts(args))] + [] == [List(Texts(args))];
    ActOne(s, cap, List(Texts(args)));
  }

  /** A reply in one line, in any chunks. */
  lemma {:induction false} LineReceived(kind: char, body: string, value: Value, chunks: seq<string>)
    requires '\r' !in body && Join(chunks) == [kind] + body + CRLF
    requires forall i :: 0 <= i < |chunks| ==> chunks[i] != ""
    requires match value
      case Reply(text) => kind == '+' && text == body
      case Failure(message) => kind == '-' && message == body
      case Number(n) => kind == ':' && PyInt(body) == Some(n)
      case Null => kind == '$' && PyInt(body) == Some(-1)
      case List(_) => false
    ensures Receive("", chunks) == Got(value)
  {
    hide Receive, Parse, WholeReply, PyInt;
    LineIsWhole(kind, body, value);
    ReceiveAnyChunking([kind] + body + CRLF, value, "", chunks);
  }

  lemma {:induction false} HitReceived(value: string, chunks: seq<string>)
    requires Ascii(value) && Join(chunks) == "$" + PrintNat(|value|) + CRLF + value + CRLF
    requires forall i :: 0 <= i < |chunks| ==> chunks[i] != ""
    ensures Receive("", chunks) == Got(Reply(value))
  {
    hide Receive, Parse, WholeReply;
    Utf8LengthAscii(value);
    assert Join(chunks) == Bulk(value);
    BulkIsWhole(value);
    BulkNotEmpty(value);
    ReceiveAnyChunking(Bulk(value), Reply(value), "", chunks);
  }

  lemma {:induction false} MinusOne()
    ensures PyInt("-1") == Some(-1)
  {
    hide PyInt;
    NegativeRoundTrip(1);
    assert ['-'] + PrintNat(1) == ['-'] + [DigitChar(1)] == "-1";
  }

  lemma {:induction false} MissReceived(chunks: seq<string>)
    requires Join(chunks) == "$-1\r\n"
    requires forall i :: 0 <= i < |chunks| ==> chunks[i] != ""
    ensures Receive("", chunks) == Got(Null)
  {
    hide Receive, PyInt, Join;
    MinusOne();
    assert ['$'] + "-1" + CRLF == "$-1\r\n";
    LineReceived('$', "-1", Null, chunks);
  }
}
