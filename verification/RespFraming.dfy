/**
 What the parser makes of printed commands cut at any place, and exactly which cuts of a stream of
 commands go unnoticed.
 */
module RespFraming {
  import opened Text
  import opened Resp

  // ---- Arguments cut short ----

  function Nulls(n: nat): seq<Value> { seq(n, _ => Null) }

  /** What is read of printed arguments when only the first `n` characters are there: None from the cut on. */
  function CutItems(args: seq<string>, n: nat): (items: seq<Value>)
    ensures |items| == |args|
  {
    if args == [] || n < |Bulk(args[0])| then Nulls(|args|)
    else [Reply(args[0])] + CutItems(args[1..], n - |Bulk(args[0])|)
  }

  /** The text of the argument that is cut, which stays unread. */
  function CutRest(args: seq<string>, temp: string): string {
    if args == [] || |temp| < |Bulk(args[0])| then temp else CutRest(args[1..], temp[|Bulk(args[0])|..])
  }

  /** Once the text has run out, every element still to come is read as None. */
  lemma {:induction false} NullElements(n: nat, rest: string, temp: string, elements: seq<Value>)
    requires IsSuffix(temp, rest) && temp != rest && Parse(temp) == Parsed(Null, temp)
    ensures ParseElements(n, rest, temp, elements) == Elements(elements + Nulls(n), temp)
  {
    if n == 0 {
      assert elements + Nulls(0) == elements;
    } else {
      NullElements(n - 1, rest, temp, elements + [Null]);
      assert elements + [Null] + Nulls(n - 1) == elements + Nulls(n);
    }
  }

  /** A proper prefix of printed arguments is cut in the first one or has read all of it. */
  lemma {:induction false} BulksPrefix(args: seq<string>, temp: string)
    requires args != [] && temp < Bulks(args)
    ensures var first := Bulk(args[0]);
      if |temp| < |first| then temp == first[..|temp|]
      else temp == first + temp[|first|..] && temp[|first|..] < Bulks(args[1..])
  {
    hide Bulk, Bulks;
    BulksFront(args);
  }

  lemma {:induction false} CutElements(args: seq<string>, rest: string, temp: string, elements: seq<Value>)
    requires AllAscii(args) && args != [] && temp < Bulks(args)
    requires IsSuffix(temp, rest) && temp != rest
    ensures ParseElements(|args|, rest, temp, elements)
            == Elements(elements + CutItems(args, |temp|), CutRest(args, temp))
    ensures Parse(CutRest(args, temp)) == Parsed(Null, CutRest(args, temp))
    decreases |args|
  {
    hide Bulk, Bulks, Parse, ParseElements;
    var first := Bulk(args[0]);
    BulksPrefix(args, temp);
    ArgsFront(args, []);
    if |temp| < |first| {
      TruncatedBulk(args[0], |temp|);
      NullElements(|args|, rest, temp, elements);
    } else {
      var temp', more := temp[|first|..], args[1..];
      BulkRoundTrip(args[0], temp');
      ElementsStep(|args|, rest, temp, elements, Reply(args[0]), temp');
      BulksOfNone(more, temp');
      CutElements(more, rest, temp', elements + [Reply(args[0])]);
      CutBehindFirst(args, temp);
      Regroup(elements, Reply(args[0]), CutItems(more, |temp'|));
    }
  }

  lemma {:induction false} CutBehindFirst(args: seq<string>, temp: string)
    requires args != [] && |temp| >= |Bulk(args[0])|
    ensures var n := |Bulk(args[0])|;
      && CutItems(args, |temp|) == [Reply(args[0])] + CutItems(args[1..], |temp[n..]|)
      && CutRest(args, temp) == CutRest(args[1..], temp[n..])
  {
  }

  lemma {:induction false} BulksOfNone(args: seq<string>, temp: string)
    requires temp < Bulks(args)
    ensures args != []
  {
  }

  lemma {:induction false} Regroup(a: seq<Value>, v: Value, b: seq<Value>)
    ensures a + [v] + b == a + ([v] + b)
  {
  }

  /** How much of a command must be there before the parser takes it for one: its header and its first argument. */
  function Opening(args: seq<string>): nat { |Header(|args|)| + if args == [] then 0 else |Bulk(args[0])| }

  /** The parser on a printed command of which only the first `n` characters are there. */
  lemma {:induction false} CutCommand(args: seq<string>, n: nat)
    requires AllAscii(args) && n < |Print(args)|
    ensures var temp, h := Print(args)[..n], |Header(|args|)|;
      if n < Opening(args) then Parse(temp) == Parsed(Null, temp)
      else
        && args != [] && h <= n < h + |Bulks(args)|
        && var rest := CutRest(args, Bulks(args)[..n - h]);
        && Parse(temp) == Parsed(List(CutItems(args, n - h)), rest)
        && Parse(rest) == Parsed(Null, rest)
  {
    hide PrintNat, PyInt, Find, Bulks, Bulk, Parse, ParseElements, CutItems, CutRest;
    var line := ['*'] + PrintNat(|args|);
    IntRoundTrip(|args|);
    assert Print(args) == line + CRLF + Bulks(args);
    if n < |line| + 2 {
      TruncatedLine(line, Bulks(args), n);
    } else {
      var rest := Bulks(args)[..n - |line| - 2];
      CutBehind(line + CRLF, Bulks(args), n);
      ParsePrintedArray(line + CRLF + rest, |args|, rest);
      CutArray(args, rest);
    }
  }

  lemma {:induction false} CutArray(args: seq<string>, rest: string)
    requires AllAscii(args) && rest < Bulks(args)
    ensures args != []
    ensures var r := ParseElements(|args|, rest, rest, []);
      if |rest| < |Bulk(args[0])| then r == Incomplete
      else
        && r == Elements(CutItems(args, |rest|), CutRest(args, rest))
        && Parse(CutRest(args, rest)) == Parsed(Null, CutRest(args, rest))
  {
    hide Bulk, Bulks, Parse;
    BulksOfNone(args, rest);
    var first := Bulk(args[0]);
    BulksPrefix(args, rest);
    ArgsFront(args, []);
    if |rest| < |first| {
      TruncatedBulk(args[0], |rest|);
    } else {
      var temp := rest[|first|..];
      BulkNotEmpty(args[0]);
      BulkRoundTrip(args[0], temp);
      ElementsStep(|args|, rest, rest, [], Reply(args[0]), temp);
      BulksOfNone(args[1..], temp);
      CutElements(args[1..], rest, temp, [] + [Reply(args[0])]);
      Regroup([], Reply(args[0]), CutItems(args[1..], |temp|));
      assert [] + ([Reply(args[0])] + CutItems(args[1..], |temp|)) == CutItems(args, |rest|);
    }
  }

  lemma {:induction false} BulkNotEmpty(arg: string)
    ensures Bulk(arg) != ""
  {
  }

  /** A cut that is noticed too late leaves None for the last argument. */
  lemma {:induction false} CutItemsEnd(args: seq<string>, n: nat)
    requires args != [] && n < |Bulks(args)|
    ensures CutItems(args, n)[|args| - 1] == Null
    decreases |args|
  {
    hide Bulk;
    BulksFront(args);
    if n >= |Bulk(args[0])| {
      BulksOfNone(args[1..], Bulks(args[1..])[..n - |Bulk(args[0])|]);
      CutItemsEnd(args[1..], n - |Bulk(args[0])|);
    }
  }

  lemma {:induction false} CutTwo(a: string, b: string, n: nat)
    requires |Bulk(a)| <= n < |Bulks([a, b])|
    ensures CutItems([a, b], n) == [Reply(a), Null]
  {
    hide Bulk;
    assert [a, b][1..] == [b] && [b][1..] == [];
    BulksFront([a, b]);
    BulksFront([b]);
    assert CutItems([b], n - |Bulk(a)|) == [Null];
  }

  lemma {:induction false} CutThree(a: string, b: string, c: string, n: nat)
    requires |Bulk(a)| <= n < |Bulks([a, b, c])|
    ensures CutItems([a, b, c], n) == [Reply(a), if n < |Bulk(a)| + |Bulk(b)| then Null else Reply(b), Null]
  {
    hide Bulk;
    assert [a, b, c][1..] == [b, c];
    BulksFront([a, b, c]);
    var m := n - |Bulk(a)|;
    if m >= |Bulk(b)| {
      CutTwo(b, c, m);
    } else {
      assert CutItems([b, c], m) == [Null, Null];
    }
  }

  /**
   A printed command cut short waits for more text iff the cut is in its header or its first
   argument. Cut any later, it is taken as a complete command whose last argument is None.
   */
  lemma {:induction false} TruncatedCommand(args: seq<string>, n: nat)
    requires AllAscii(args) && n < |Print(args)|
    ensures Parse(Print(args)[..n]) == Parsed(Null, Print(args)[..n]) <==> n < Opening(args)
    ensures n >= Opening(args) ==>
      var r := Parse(Print(args)[..n]);
      && args != [] && r.Parsed? && r.value.List? && |r.value.items| == |args|
      && r.value.items[|args| - 1] == Null
  {
    hide Parse, CutItems, Bulks;
    CutCommand(args, n);
    if n >= Opening(args) {
      CutItemsEnd(args, n - |Header(|args|)|);
    }
  }

  // ---- Streams of commands in chunks ----

  predicate AsciiCommands(commands: seq<seq<string>>) { forall i :: 0 <= i < |commands| ==> AllAscii(commands[i]) }

  /**
   The cut after `n` characters of the printed commands does not fall at or behind the end of a
   command's first argument and before the command's end.
   */
  predicate GoodCut(commands: seq<seq<string>>, n: nat)
    decreases |commands|
  {
    commands == [] ||
    if n < |Print(commands[0])| then n < Opening(commands[0]) else GoodCut(commands[1..], n - |Print(commands[0])|)
  }

  /** How many commands are complete within the first `n` characters. */
  function Done(commands: seq<seq<string>>, n: nat): (k: nat)
    ensures k <= |commands|
    decreases |commands|
  {
    if commands == [] || n < |Print(commands[0])| then 0 else 1 + Done(commands[1..], n - |Print(commands[0])|)
  }

  lemma {:induction false} PrintAllFront(commands: seq<seq<string>>)
    requires commands != []
    ensures PrintAll(commands) == Print(commands[0]) + PrintAll(commands[1..])
    decreases |commands|
  {
    hide Print;
    var last := |commands| - 1;
    if last > 0 {
      PrintAllFront(commands[..last]);
      assert commands[..last][1..] == commands[1..][..last - 1];
    } else {
      assert commands[..0] == [] && commands[1..] == [];
    }
  }

  /** What is kept of the printed commands: nothing, or the beginning of the first, too short to be taken for it. */
  predicate Pending(commands: seq<seq<string>>, kept: string) {
    kept == "" || (commands != [] && |kept| < Opening(commands[0]) && kept <= PrintAll(commands))
  }

  lemma {:induction false} OpeningFits(args: seq<string>)
    ensures 0 < Opening(args) <= |Print(args)|
  {
    if args != [] {
      BulksFront(args);
    }
  }

  lemma {:induction false} DecodeNothing(text: string)
    requires Parse(text) == Parsed(Null, text)
    ensures Decode(text) == ([], text)
  {
  }

  lemma {:induction false} ListsFront(commands: seq<seq<string>>, k: nat)
    requires 0 < k <= |commands|
    ensures Lists(commands[..k]) == [List(Texts(commands[0]))] + Lists(commands[1..][..k - 1])
  {
    assert commands[..k][0] == commands[0];
    assert forall i :: 0 < i < k ==> commands[..k][i] == commands[1..][..k - 1][i - 1];
  }

  /** The first `n` characters hold `k` complete commands, and `kept` of the next. */
  ghost predicate CutAt(commands: seq<seq<string>>, n: nat, k: nat, kept: string)
    requires k <= |commands| && n <= |PrintAll(commands)|
  {
    Pending(commands[k..], kept) && kept + PrintAll(commands)[n..] == PrintAll(commands[k..])
  }

  lemma {:induction false} DecodeGoodCut(commands: seq<seq<string>>, n: nat)
    requires AsciiCommands(commands) && n <= |PrintAll(commands)| && GoodCut(commands, n)
    ensures var (values, kept) := Decode(PrintAll(commands)[..n]); var k := Done(commands, n);
      && values == Lists(commands[..k]) && Parse(kept) == Parsed(Null, kept) && CutAt(commands, n, k, kept)
    decreases |commands|
  {
    hide Print, Parse, Decode, Lists, Opening;
    var text := PrintAll(commands)[..n];
    if commands == [] {
      assert text == "" && commands[0..] == [];
      EmptyText();
    } else {
      var first, tail := Print(commands[0]), PrintAll(commands[1..]);
      PrintAllFront(commands);
      if n < |first| {
        assert text == first[..n] && commands[0..] == commands;
        CutCommand(commands[0], n);
        DecodeNothing(text);
        assert commands[..0] == [] && Lists([]) == [] by { NoLists(); }
        assert text + PrintAll(commands)[n..] == PrintAll(commands);
      } else {
        var m := n - |first|;
        assert text == first + tail[..m];
        DecodeStep(commands[0], tail[..m]);
        DecodeGoodCut(commands[1..], m);
        ListsFront(commands, Done(commands, n));
        assert commands[1..][Done(commands[1..], m)..] == commands[Done(commands, n)..];
        assert PrintAll(commands)[n..] == tail[m..];
      }
    }
  }

  lemma {:induction false} EmptyText()
    ensures Parse("") == Parsed(Null, "") && Decode("") == ([], "") && Lists([]) == [] && PrintAll([]) == ""
  {
  }

  lemma {:induction false} NoLists()
    ensures Lists([]) == []
  {
  }

  /** After a bad cut the command that was cut is read as another one. */
  lemma {:induction false} DecodeBadCut(commands: seq<seq<string>>, n: nat)
    requires AsciiCommands(commands) && n <= |PrintAll(commands)| && !GoodCut(commands, n)
    ensures var values, k := Decode(PrintAll(commands)[..n]).0, Done(commands, n);
      k < |commands| && k < |values| && values[k] != List(Texts(commands[k]))
    decreases |commands|
  {
    hide Print, Parse, Decode, Opening, CutItems, CutRest, Bulks, Bulk;
    var text, first, tail := PrintAll(commands)[..n], Print(commands[0]), PrintAll(commands[1..]);
    PrintAllFront(commands);
    if n < |first| {
      assert text == first[..n];
      CutCommand(commands[0], n);
      CutItemsEnd(commands[0], n - |Header(|commands[0]|)|);
      DecodeFirst(text);
    } else {
      var m := n - |first|;
      assert text == first + tail[..m];
      DecodeStep(commands[0], tail[..m]);
      DecodeBadCut(commands[1..], m);
    }
  }

  lemma {:induction false} DecodeFirst(text: string)
    requires Parse(text).Parsed? && Parse(text).value != Null
    ensures Decode(text).0 != [] && Decode(text).0[0] == Parse(text).value
  {
  }

  // ---- The chunks of a stream ----

  /** What a reading loop makes of chunks: the values it reads, the text it keeps, and whether it still reads. */
  datatype Fed = Fed(values: seq<Value>, kept: string, open: bool)

  /** A chunk taken for an HTTP health check. */
  predicate HealthCheck(chunk: string) { "GET " <= chunk || "HEAD " <= chunk }

  function Feed(kept: string, chunks: seq<string>): Fed
    decreases |chunks|
  {
    if chunks == [] then Fed([], kept, true)
    else if HealthCheck(chunks[0]) then Fed([], kept, false)
    else
      var (values, rest) := Decode(kept + chunks[0]);
      if Parse(rest).Raised? then Fed(values, rest, false)
      else
        var more := Feed(rest, chunks[1..]);
        Fed(values + more.values, more.kept, more.open)
  }

  /** No chunk looks like a health check, and every cut, counted from the beginning of the commands, is good. */
  predicate Unnoticed(commands: seq<seq<string>>, from: nat, chunks: seq<string>)
    decreases |chunks|
  {
    chunks == [] ||
    (!HealthCheck(chunks[0]) && GoodCut(commands, from + |chunks[0]|)
     && Unnoticed(commands, from + |chunks[0]|, chunks[1..]))
  }

  /** A later cut is good iff it is good for the commands not complete before. */
  lemma {:induction false} LaterCuts(commands: seq<seq<string>>, k: nat, n: nat)
    requires k <= Done(commands, n)
    ensures n >= |PrintAll(commands[..k])|
    ensures GoodCut(commands, n) == GoodCut(commands[k..], n - |PrintAll(commands[..k])|)
    decreases k
  {
    hide Print, Opening;
    if k == 0 {
      assert commands[0..] == commands && commands[..0] == [];
    } else {
      LaterCuts(commands[1..], k - 1, n - |Print(commands[0])|);
      PrintAllFront(commands[..k]);
      assert commands[..k][0] == commands[0] && commands[..k][1..] == commands[1..][..k - 1];
      assert commands[1..][k - 1..] == commands[k..];
    }
  }

  lemma {:induction false} DoneGrows(commands: seq<seq<string>>, n: nat, m: nat)
    requires n <= m
    ensures Done(commands, n) <= Done(commands, m)
    decreases |commands|
  {
    hide Print;
    if commands != [] && n >= |Print(commands[0])| {
      DoneGrows(commands[1..], n - |Print(commands[0])|, m - |Print(commands[0])|);
    }
  }

  lemma {:induction false} LaterUnnoticed(commands: seq<seq<string>>, k: nat, from: nat, chunks: seq<string>)
    requires k <= Done(commands, from) && from >= |PrintAll(commands[..k])|
    ensures Unnoticed(commands, from, chunks) == Unnoticed(commands[k..], from - |PrintAll(commands[..k])|, chunks)
    decreases |chunks|
  {
    hide GoodCut, Done, HealthCheck;
    if chunks != [] {
      var n := from + |chunks[0]|;
      DoneGrows(commands, from, n);
      LaterCuts(commands, k, n);
      LaterUnnoticed(commands, k, n, chunks[1..]);
    }
  }

  lemma {:induction false} PrintAllParts(commands: seq<seq<string>>, k: nat)
    requires k <= |commands|
    ensures PrintAll(commands) == PrintAll(commands[..k]) + PrintAll(commands[k..])
    decreases |commands| - k
  {
    hide Print;
    if k == |commands| {
      assert commands[..k] == commands && commands[k..] == [];
    } else {
      PrintAllParts(commands, k + 1);
      PrintAllFront(commands[k..]);
      assert commands[k..][1..] == commands[k + 1..] && commands[..k + 1][..k] == commands[..k];
      assert commands[..k + 1][k] == commands[k] == commands[k..][0];
    }
  }

  lemma {:induction false} ListsParts(commands: seq<seq<string>>, k: nat)
    requires k <= |commands|
    ensures Lists(commands) == Lists(commands[..k]) + Lists(commands[k..])
  {
  }

  lemma {:induction false} SamePrefix(a: seq<Value>, b: seq<Value>, c: seq<Value>)
    ensures a + b == a + c <==> b == c
  {
    assert b == (a + b)[|a|..] && c == (a + c)[|a|..];
  }

  lemma {:induction false} JoinFirst(kept: string, chunks: seq<string>)
    requires chunks != []
    ensures kept + Join(chunks) == kept + chunks[0] + Join(chunks[1..])
  {
    var head, tail := chunks[0], Join(chunks[1..]);
    assert Join(chunks) == head + tail;
    assert kept + (head + tail) == kept + head + tail;
  }

  lemma {:induction false} NothingPending(commands: seq<seq<string>>, kept: string)
    requires Pending(commands, kept) && kept == PrintAll(commands)
    ensures commands == [] && kept == ""
  {
    if commands != [] {
      PrintAllFront(commands);
      OpeningFits(commands[0]);
    }
  }

  /** The stream from `kept` on, in chunks: read as the commands sent iff no cut is noticed. */
  lemma {:induction false} FramingFrom(commands: seq<seq<string>>, kept: string, chunks: seq<string>)
    requires AsciiCommands(commands) && kept + Join(chunks) == PrintAll(commands) && Pending(commands, kept)
    ensures Feed(kept, chunks) == Fed(Lists(commands), "", true) <==> Unnoticed(commands, |kept|, chunks)
    decreases |chunks|
  {
    hide Print, PrintAll, Parse, Decode, Lists, Opening, GoodCut, Done, HealthCheck, Join;
    if chunks == [] {
      assert kept == PrintAll(commands) by { JoinNothing(kept); }
      NothingPending(commands, kept);
      NoLists();
    } else if !HealthCheck(chunks[0]) {
      var n := |kept + chunks[0]|;
      JoinFirst(kept, chunks);
      assert kept + chunks[0] == PrintAll(commands)[..n];
      if GoodCut(commands, n) {
        FramingGood(commands, kept, chunks);
        var k, rest := Done(commands, n), Decode(kept + chunks[0]).1;
        FramingFrom(commands[k..], rest, chunks[1..]);
        ListsParts(commands, k);
        SamePrefix(Lists(commands[..k]), Feed(rest, chunks[1..]).values, Lists(commands[k..]));
      } else {
        DecodeBadCut(commands, n);
        WrongValue(commands, Done(commands, n), kept, chunks);
      }
    }
  }

  lemma {:induction false} JoinNothing(kept: string)
    ensures kept + Join([]) == kept
  {
  }

  lemma {:induction false} WrongValue(commands: seq<seq<string>>, k: nat, kept: string, chunks: seq<string>)
    requires chunks != [] && !HealthCheck(chunks[0]) && k < |commands|
    requires k < |Decode(kept + chunks[0]).0| && Decode(kept + chunks[0]).0[k] != List(Texts(commands[k]))
    ensures Feed(kept, chunks).values != Lists(commands)
  {
    assert Feed(kept, chunks).values[k] == Decode(kept + chunks[0]).0[k];
  }

  /** What a good first cut leaves. */
  lemma {:induction false} FramingGood(commands: seq<seq<string>>, kept: string, chunks: seq<string>)
    requires AsciiCommands(commands) && kept + Join(chunks) == PrintAll(commands) && chunks != []
    requires |kept + chunks[0]| <= |PrintAll(commands)| && kept + chunks[0] == PrintAll(commands)[..|kept + chunks[0]|]
    requires GoodCut(commands, |kept + chunks[0]|)
    ensures var k, rest := Done(commands, |kept + chunks[0]|), Decode(kept + chunks[0]).1;
      && Decode(kept + chunks[0]).0 == Lists(commands[..k]) && Parse(rest) == Parsed(Null, rest)
      && Pending(commands[k..], rest) && rest + Join(chunks[1..]) == PrintAll(commands[k..])
      && AsciiCommands(commands[k..])
      && Unnoticed(commands, |kept| + |chunks[0]|, chunks[1..]) == Unnoticed(commands[k..], |rest|, chunks[1..])
  {
    hide Print, PrintAll, Parse, Decode, Lists, Opening, GoodCut, Done, HealthCheck, Join, Unnoticed, Pending;
    var n := |kept + chunks[0]|;
    var k, rest := Done(commands, n), Decode(kept + chunks[0]).1;
    DecodeGoodCut(commands, n);
    JoinFirst(kept, chunks);
    assert PrintAll(commands)[n..] == Join(chunks[1..]);
    PrintAllParts(commands, k);
    LaterCuts(commands, k, n);
    LaterUnnoticed(commands, k, n, chunks[1..]);
  }

  /**
   Framing of a command stream, exactly: in whatever chunks printed ASCII commands arrive, the loop
   reads exactly the commands sent, and keeps nothing, iff no chunk looks like a health check and no
   cut falls at or behind the end of a command's first argument and before the command's end.
   */
  lemma {:induction false} StreamFraming(commands: seq<seq<string>>, chunks: seq<string>)
    requires AsciiCommands(commands) && Join(chunks) == PrintAll(commands)
    ensures Feed("", chunks) == Fed(Lists(commands), "", true) <==> Unnoticed(commands, 0, chunks)
  {
    assert "" + Join(chunks) == PrintAll(commands);
    FramingFrom(commands, "", chunks);
  }
}
