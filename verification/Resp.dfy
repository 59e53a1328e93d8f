/**
 The cache wire format (RESP2 bulk strings, arrays, simple strings, errors and integers):
 the printer of cache/lru_cache.py and the parser of cache/cache_manager.py.
 */
module Resp {
  import opened Wrappers
  import opened Text

  /** What the parser can put in its result: None, str, Exception, int or list. */
  datatype Value =
    | Null
    | Reply(text: string)
    | Failure(message: string)
    | Number(number: int)
    | List(items: seq<Value>)

  /** A value with the unread remainder, or an uncaught Python exception. */
  datatype ParseResult = Parsed(value: Value, rest: string) | Raised

  datatype ElementsResult = Elements(items: seq<Value>, rest: string) | Incomplete | Broken

  // ---- Parser ----

  function Parse(buffer: string): (r: ParseResult)
    ensures r.Parsed? ==> IsSuffix(r.rest, buffer)
    ensures r.Parsed? && r.value != Null ==> |r.rest| < |buffer|
    decreases |buffer|, 1
  {
    if buffer == "" then Parsed(Null, buffer)
    else if buffer[0] == '*' then ParseArray(buffer)
    else if buffer[0] == '+' || buffer[0] == '-' || buffer[0] == ':' || buffer[0] == '$' then ParseLine(buffer)
    else ParseInline(buffer)
  }

  /** Simple strings, errors, integers and bulk strings. */
  function ParseLine(buffer: string): (r: ParseResult)
    requires buffer != ""
    ensures r.Parsed? ==> IsSuffix(r.rest, buffer)
    ensures r.Parsed? && r.value != Null ==> |r.rest| < |buffer|
  {
    var i := Find(buffer, CRLF);
    if i == -1 then Parsed(Null, buffer)
    else
      var body, rest := PyDrop(buffer[..i], 1), buffer[i + 2..];
      if buffer[0] == '+' then Parsed(Reply(body), rest)
      else if buffer[0] == '-' then Parsed(Failure(body), rest)
      else if buffer[0] == ':' then (match PyInt(body) case Some(n) => Parsed(Number(n), rest) case None => Raised)
      else ParseBulk(buffer, body, rest)
  }

  function ParseArray(buffer: string): (r: ParseResult)
    requires buffer != ""
    ensures r.Parsed? ==> IsSuffix(r.rest, buffer)
    ensures r.Parsed? && r.value != Null ==> |r.rest| < |buffer|
    decreases |buffer|, 0
  {
    var i := Find(buffer, CRLF);
    if i == -1 then Parsed(Null, buffer)
    else
      var rest := buffer[i + 2..];
      match PyInt(PyDrop(buffer[..i], 1))
      case None => Parsed(Null, buffer)
      case Some(n) =>
        if n == -1 then Parsed(Null, rest)
        else
          match ParseElements(n, rest, rest, [])
          case Elements(items, tail) => SuffixTransitive(tail, rest, buffer); Parsed(List(items), tail)
          case Incomplete => Parsed(Null, buffer)
          case Broken => Raised
  }

  function ParseInline(buffer: string): (r: ParseResult)
    ensures r.Parsed? && IsSuffix(r.rest, buffer)
    ensures r.value != Null ==> |r.rest| < |buffer|
  {
    var i := Find(buffer, CRLF);
    var j := Find(buffer, "\n");
    if i != -1 then Parsed(InlineWords(buffer[..i]), buffer[i + 2..])
    else if j != -1 then Parsed(InlineWords(buffer[..j]), buffer[j + 1..])
    else Parsed(Null, buffer)
  }

  function ParseBulk(buffer: string, body: string, rest: string): (r: ParseResult)
    requires IsSuffix(rest, buffer) && |rest| < |buffer|
    ensures r.Parsed? && IsSuffix(r.rest, buffer)
    ensures r.value != Null ==> |r.rest| < |buffer|
  {
    match PyInt(body)
    case None => Parsed(Null, buffer)
    case Some(n) =>
      if n == -1 then Parsed(Null, rest)
      else if |rest| < n + 2 then Parsed(Null, buffer)
      else
        SuffixTransitive(PyDrop(rest, n + 2), rest, buffer);
        Parsed(Reply(PyTake(rest, n)), PyDrop(rest, n + 2))
  }

  /** The element loop: `n` elements still to read from `temp`; `rest` is the text after the header. */
  function ParseElements(n: int, rest: string, temp: string, elements: seq<Value>): (r: ElementsResult)
    requires IsSuffix(temp, rest)
    ensures r.Elements? ==> IsSuffix(r.rest, rest)
    ensures r.Elements? ==> elements <= r.items && |r.items| == |elements| + (if n > 0 then n else 0)
    decreases |rest|, 2, n
  {
    if n <= 0 then Elements(elements, temp)
    else
      match Parse(temp)
      case Raised => Broken
      case Parsed(value, temp') =>
        SuffixTransitive(temp', temp, rest);
        if value == Null && temp' == rest then Incomplete
        else ParseElements(n - 1, rest, temp', elements + [value])
  }

  function InlineWords(line: string): Value {
    var words := Words(line);
    List(seq(|words|, i requires 0 <= i < |words| => Reply(StripQuotes(words[i]))))
  }

  /** The parser as the source runs it: one branch for each first character. */
  method ParseResp(buffer: string) returns (r: ParseResult)
    ensures r == Parse(buffer)
    decreases |buffer|, 1
  {
    if buffer == "" {
      return Parsed(Null, buffer);
    }
    var first := buffer[0];
    var i := Find(buffer, CRLF);
    if first != '+' && first != '-' && first != ':' && first != '$' && first != '*' {
      if i != -1 {
        return Parsed(InlineWords(buffer[..i]), buffer[i + 2..]);
      }
      var j := Find(buffer, "\n");
      if j != -1 {
        return Parsed(InlineWords(buffer[..j]), buffer[j + 1..]);
      }
      return Parsed(Null, buffer);
    }
    if i == -1 {
      return Parsed(Null, buffer);
    }
    var body, rest := PyDrop(buffer[..i], 1), buffer[i + 2..];
    match first
    case '+' => r := Parsed(Reply(body), rest);
    case '-' => r := Parsed(Failure(body), rest);
    case ':' =>
      var n := PyInt(body);
      r := if n.Some? then Parsed(Number(n.value), rest) else Raised;
    case '$' => r := ReadBulk(buffer, body, rest);
    case _ => r := ReadArray(buffer, body, rest);
  }

  method ReadBulk(buffer: string, body: string, rest: string) returns (r: ParseResult)
    requires IsSuffix(rest, buffer) && |rest| < |buffer|
    ensures r == ParseBulk(buffer, body, rest)
  {
    var length := PyInt(body);
    if length == None {
      return Parsed(Null, buffer);
    }
    if length.value == -1 {
      return Parsed(Null, rest);
    }
    if |rest| < length.value + 2 {
      return Parsed(Null, buffer);
    }
    r := Parsed(Reply(PyTake(rest, length.value)), PyDrop(rest, length.value + 2));
  }

  method ReadArray(buffer: string, body: string, rest: string) returns (r: ParseResult)
    requires |rest| < |buffer|
    ensures r ==
      match PyInt(body)
      case None => Parsed(Null, buffer)
      case Some(n) =>
        if n == -1 then Parsed(Null, rest)
        else
          match ParseElements(n, rest, rest, [])
          case Elements(items, tail) => Parsed(List(items), tail)
          case Incomplete => Parsed(Null, buffer)
          case Broken => Raised
    decreases |buffer|, 0
  {
    var count := PyInt(body);
    if count == None {
      return Parsed(Null, buffer);
    }
    if count.value == -1 {
      return Parsed(Null, rest);
    }
    var read := ReadElements(count.value, rest);
    match read
    case Elements(items, tail) => r := Parsed(List(items), tail);
    case Incomplete => r := Parsed(Null, buffer);
    case Broken => r := Raised;
  }

  /** The loop over the array elements. */
  method ReadElements(n: int, rest: string) returns (r: ElementsResult)
    ensures r == ParseElements(n, rest, rest, [])
    decreases |rest|, 2
  {
    var elements: seq<Value>, temp := [], rest;
    var k := 0;
    while k < n
      invariant 0 <= k
      invariant IsSuffix(temp, rest)
      invariant ParseElements(n, rest, rest, []) == ParseElements(n - k, rest, temp, elements)
    {
      var element := ParseResp(temp);
      if element.Raised? {
        return Broken;
      }
      SuffixTransitive(element.rest, temp, rest);
      if element.value == Null && element.rest == rest {
        return Incomplete;
      }
      temp := element.rest;
      elements := elements + [element.value];
      k := k + 1;
    }
    r := Elements(elements, temp);
  }

  // ---- Printer ----

  function Utf8Width(c: char): nat {
    if c as int < 0x80 then 1 else if c as int < 0x800 then 2 else if c as int < 0x10000 then 3 else 4
  }

  /** `len(s.encode('utf-8'))`, which is what the printer announces. */
  function Utf8Length(s: string): nat {
    if s == [] then 0 else Utf8Length(s[..|s| - 1]) + Utf8Width(s[|s| - 1])
  }

  predicate Ascii(s: string) { forall i :: 0 <= i < |s| ==> s[i] as int < 0x80 }

  predicate AllAscii(args: seq<string>) { forall i :: 0 <= i < |args| ==> Ascii(args[i]) }

  function Bulk(arg: string): string { "$" + PrintNat(Utf8Length(arg)) + CRLF + arg + CRLF }

  function Bulks(args: seq<string>): string {
    if args == [] then "" else Bulks(args[..|args| - 1]) + Bulk(args[|args| - 1])
  }

  function Header(n: nat): string { "*" + PrintNat(n) + CRLF }

  /** The printed form of one command. */
  function Print(args: seq<string>): string { Header(|args|) + Bulks(args) }

  function PrintAll(commands: seq<seq<string>>): string {
    if commands == [] then "" else PrintAll(commands[..|commands| - 1]) + Print(commands[|commands| - 1])
  }

  /** The printing loop shared by the log writer and the client. */
  method PrintCommand(args: seq<string>) returns (req: string)
    ensures req == Print(args)
  {
    req := "*" + PrintNat(|args|) + CRLF;
    for i := 0 to |args|
      invariant req == Header(|args|) + Bulks(args[..i])
    {
      assert args[..i + 1][..i] == args[..i];
      req := req + ("$" + PrintNat(Utf8Length(args[i])) + CRLF + args[i] + CRLF);
    }
    assert args[..|args|] == args;
  }

  function Texts(args: seq<string>): (vs: seq<Value>)
    ensures |vs| == |args| && forall i :: 0 <= i < |args| ==> vs[i] == Reply(args[i])
  {
    seq(|args|, i requires 0 <= i < |args| => Reply(args[i]))
  }

  // ---- Round trip ----

  lemma {:induction false} Utf8LengthAscii(s: string)
    ensures Utf8Length(s) >= |s|
    ensures Utf8Length(s) == |s| <==> Ascii(s)
  {
    if s != [] {
      var t := s[..|s| - 1];
      Utf8LengthAscii(t);
      assert Ascii(s) <==> Ascii(t) && s[|s| - 1] as int < 0x80;
    }
  }

  /** A printed length line is found, cut off and read back. */
  lemma {:induction false} LengthLine(c: char, n: nat, rest: string)
    requires c != '\r'
    ensures var buffer := [c] + PrintNat(n) + CRLF + rest;
      var i := Find(buffer, CRLF);
      i == 1 + |PrintNat(n)| && PyInt(PyDrop(buffer[..i], 1)) == Some(n) && buffer[i + 2..] == rest
  {
    var line := [c] + PrintNat(n);
    IntRoundTrip(n);
    FindLineEnd(line, rest);
    assert PyDrop(line, 1) == PrintNat(n);
  }

  /** How the parser reads a bulk string of announced length `n` followed by any text. */
  lemma {:induction false} ParsePrintedBulk(buffer: string, n: nat, rest: string)
    requires buffer == ['$'] + PrintNat(n) + CRLF + rest
    ensures Parse(buffer) == if |rest| < n + 2 then Parsed(Null, buffer) else Parsed(Reply(rest[..n]), rest[n + 2..])
  {
    hide PrintNat, PyInt, Find;
    LengthLine('$', n, rest);
    var body := PyDrop(buffer[..Find(buffer, CRLF)], 1);
    assert ParseLine(buffer) == ParseBulk(buffer, body, rest);
  }

  /** One bulk string reads back as itself, leaving exactly the tail, iff it is ASCII. */
  lemma {:induction false} BulkRoundTrip(arg: string, tail: string)
    ensures Parse(Bulk(arg) + tail) == Parsed(Reply(arg), tail) <==> Ascii(arg)
    ensures !Ascii(arg) && Parse(Bulk(arg) + tail).Parsed? ==> Parse(Bulk(arg) + tail).value != Reply(arg)
  {
    var n := Utf8Length(arg);
    Utf8LengthAscii(arg);
    var rest := arg + CRLF + tail;
    assert Bulk(arg) + tail == ['$'] + PrintNat(n) + CRLF + rest;
    ParsePrintedBulk(Bulk(arg) + tail, n, rest);
    if Ascii(arg) {
      assert rest[..n] == arg && rest[n + 2..] == tail;
    }
  }

  lemma {:induction false} BulksFront(args: seq<string>)
    requires args != []
    ensures Bulks(args) == Bulk(args[0]) + Bulks(args[1..])
  {
    hide Bulk;
    if |args| > 1 {
      BulksFront(args[..|args| - 1]);
      assert args[..|args| - 1][1..] == args[1..][..|args| - 2];
    } else {
      assert args[..0] == [] && args[1..] == [];
    }
  }

  lemma {:induction false} ArgsFront(args: seq<string>, elements: seq<Value>)
    requires args != []
    ensures AllAscii(args) <==> Ascii(args[0]) && AllAscii(args[1..])
    ensures (elements + [Reply(args[0])]) + Texts(args[1..]) == elements + Texts(args)
  {
    assert args == [args[0]] + args[1..];
  }

  /** One turn of the element loop on a value that is there. */
  lemma {:induction false} ElementsStep(n: int, rest: string, temp: string, elements: seq<Value>, value: Value,
                                        temp': string)
    requires n > 0 && IsSuffix(temp, rest)
    requires Parse(temp) == Parsed(value, temp') && value != Null
    ensures IsSuffix(temp', rest)
    ensures ParseElements(n, rest, temp, elements) == ParseElements(n - 1, rest, temp', elements + [value])
  {
    SuffixTransitive(temp', temp, rest);
  }

  /** An element read wrongly stays wrong in the finished list. */
  lemma {:induction false} WrongElement(n: int, rest: string, temp: string, elements: seq<Value>,
                     arg: string, tail: string, expected: seq<Value>)
    requires n > 0 && IsSuffix(temp, rest)
    requires temp == Bulk(arg) + tail && !Ascii(arg)
    requires |expected| > |elements| && expected[|elements|] == Reply(arg)
    ensures ParseElements(n, rest, temp, elements).Elements? ==>
            ParseElements(n, rest, temp, elements).items != expected
  {
    BulkRoundTrip(arg, tail);
    match Parse(temp)
    case Raised =>
    case Parsed(value, temp') =>
      SuffixTransitive(temp', temp, rest);
      if value == Null && temp' == rest {
      } else {
        var r := ParseElements(n - 1, rest, temp', elements + [value]);
        if r.Elements? {
          assert (elements + [value])[|elements|] == value;
          assert r.items[|elements|] == value;
        }
      }
  }

  /** The element loop recovers the printed arguments iff every one of them is ASCII. */
  lemma {:induction false} ElementsRoundTrip(args: seq<string>, rest: string, temp: string,
                                             tail: string, elements: seq<Value>)
    requires temp == Bulks(args) + tail && IsSuffix(temp, rest)
    ensures ParseElements(|args|, rest, temp, elements) == Elements(elements + Texts(args), tail)
            <==> AllAscii(args)
    decreases |args|
  {
    if args == [] {
      assert temp == tail && elements + Texts(args) == elements;
    } else {
      var args' := args[1..];
      var tail' := Bulks(args') + tail;
      BulksFront(args);
      ArgsFront(args, elements);
      assert temp == Bulk(args[0]) + tail';
      if Ascii(args[0]) {
        BulkRoundTrip(args[0], tail');
        ElementsStep(|args|, rest, temp, elements, Reply(args[0]), tail');
        var elements' := elements + [Reply(args[0])];
        ElementsRoundTrip(args', rest, tail', tail, elements');
      } else {
        WrongElement(|args|, rest, temp, elements, args[0], tail', elements + Texts(args));
      }
    }
  }

  /** How the parser reads an array of announced length `n` followed by any text. */
  lemma {:induction false} ParsePrintedArray(buffer: string, n: nat, rest: string)
    requires buffer == ['*'] + PrintNat(n) + CRLF + rest
    ensures Parse(buffer) ==
      match ParseElements(n, rest, rest, [])
      case Elements(items, tail) => Parsed(List(items), tail)
      case Incomplete => Parsed(Null, buffer)
      case Broken => Raised
  {
    LengthLine('*', n, rest);
    assert Parse(buffer) == ParseArray(buffer);
  }

  /**
   The round trip: printing a command and parsing it, with anything behind it, returns the
   arguments and exactly what was behind, iff every argument is ASCII.
   */
  lemma {:induction false} CommandRoundTrip(args: seq<string>, tail: string)
    ensures Parse(Print(args) + tail) == Parsed(List(Texts(args)), tail) <==> AllAscii(args)
  {
    var rest := Bulks(args) + tail;
    assert Print(args) + tail == ['*'] + PrintNat(|args|) + CRLF + rest;
    ParsePrintedArray(Print(args) + tail, |args|, rest);
    ElementsRoundTrip(args, rest, rest, tail, []);
    assert [] + Texts(args) == Texts(args);
  }

  // ---- Streams of commands ----

  /** Every value a reading loop takes from a buffer before it stops, and what it leaves. */
  function Decode(buffer: string): (r: (seq<Value>, string))
    ensures IsSuffix(r.1, buffer)
    decreases |buffer|
  {
    match Parse(buffer)
    case Raised => ([], buffer)
    case Parsed(value, rest) =>
      if value == Null then ([], buffer)
      else
        var (values, left) := Decode(rest);
        SuffixTransitive(left, rest, buffer);
        ([value] + values, left)
  }

  function Lists(commands: seq<seq<string>>): seq<Value> {
    seq(|commands|, i requires 0 <= i < |commands| => List(Texts(commands[i])))
  }

  lemma {:induction false} DecodeStep(args: seq<string>, tail: string)
    requires AllAscii(args)
    ensures Decode(Print(args) + tail) == ([List(Texts(args))] + Decode(tail).0, Decode(tail).1)
  {
    CommandRoundTrip(args, tail);
  }

  lemma {:induction false} ListsBack(commands: seq<seq<string>>, values: seq<Value>)
    requires commands != []
    ensures var last := |commands| - 1;
      Lists(commands[..last]) + ([List(Texts(commands[last]))] + values) == Lists(commands) + values
  {
  }

  /** A concatenation of printed commands decodes to the same commands, then to whatever follows. */
  lemma {:induction false} StreamRoundTrip(commands: seq<seq<string>>, tail: string)
    requires forall i :: 0 <= i < |commands| ==> AllAscii(commands[i])
    ensures Decode(PrintAll(commands) + tail) == (Lists(commands) + Decode(tail).0, Decode(tail).1)
    decreases |commands|
  {
    if commands == [] {
      assert PrintAll(commands) + tail == tail;
      assert Lists(commands) + Decode(tail).0 == Decode(tail).0;
    } else {
      var init, last := commands[..|commands| - 1], commands[|commands| - 1];
      assert PrintAll(commands) + tail == PrintAll(init) + (Print(last) + tail);
      StreamRoundTrip(init, Print(last) + tail);
      DecodeStep(last, tail);
      ListsBack(commands, Decode(tail).0);
    }
  }

  // ---- Commands cut short ----

  lemma {:induction false} CutBehind(a: string, b: string, n: nat)
    requires |a| <= n <= |a| + |b|
    ensures (a + b)[..n] == a + b[..n - |a|]
  {
  }

  lemma {:induction false} TruncatedBulk(arg: string, n: nat)
    requires Ascii(arg) && n < |Bulk(arg)|
    ensures Parse(Bulk(arg)[..n]) == Parsed(Null, Bulk(arg)[..n])
  {
    hide PrintNat, PyInt, Find, Utf8Length;
    var line, text := ['$'] + PrintNat(Utf8Length(arg)), arg + CRLF;
    Utf8LengthAscii(arg);
    IntRoundTrip(Utf8Length(arg));
    assert Bulk(arg) == line + CRLF + text;
    if n < |line| + 2 {
      TruncatedLine(line, text, n);
    } else {
      var rest := text[..n - |line| - 2];
      CutBehind(line + CRLF, text, n);
      ParsePrintedBulk(line + CRLF + rest, Utf8Length(arg), rest);
    }
  }

  /** A bulk string's or an array's first line cut short reads as nothing. */
  lemma {:induction false} TruncatedLine(line: string, text: string, n: nat)
    requires line != "" && line[0] in {'$', '*'} && '\r' !in line && n < |line| + 2
    ensures Parse((line + CRLF + text)[..n]) == Parsed(Null, (line + CRLF + text)[..n])
  {
    hide Find;
    var buffer := (line + CRLF + text)[..n];
    NoLineEnd(line, text, n);
    if n > 0 {
      assert buffer[0] == line[0];
    }
  }

  // ---- The client's reply loop ----

  datatype Received = Got(value: Value) | Closed | ParserRaised

  /** What the client makes of the chunks it receives; no further chunk, or an empty one, is a closed connection. */
  function Receive(buffer: string, chunks: seq<string>): Received
    decreases |chunks|
  {
    if chunks == [] || chunks[0] == "" then Closed
    else
      var buffer' := buffer + chunks[0];
      match Parse(buffer')
      case Raised => ParserRaised
      case Parsed(value, rest) => if value != Null || rest != buffer' then Got(value) else Receive(buffer', chunks[1..])
  }

  method ReceiveReply(chunks: seq<string>) returns (r: Received)
    ensures r == Receive("", chunks)
  {
    var buffer, i := "", 0;
    while i < |chunks| && chunks[i] != ""
      invariant i <= |chunks|
      invariant Receive("", chunks) == Receive(buffer, chunks[i..])
    {
      buffer := buffer + chunks[i];
      var parsed := ParseResp(buffer);
      if parsed.Raised? {
        return ParserRaised;
      }
      if parsed.value != Null || parsed.rest != buffer {
        return Got(parsed.value);
      }
      i := i + 1;
    }
    r := Closed;
  }

  /** `text` is one whole reply: it reads as `value`, and no proper prefix of it reads as anything. */
  ghost predicate WholeReply(text: string, value: Value) {
    && text != "" && Parse(text) == Parsed(value, "")
    && forall n :: 0 <= n < |text| ==> Parse(text[..n]) == Parsed(Null, text[..n])
  }

  /** However a whole reply is cut into chunks, the client returns the same value. */
  lemma {:induction false} ReceiveAnyChunking(text: string, value: Value, buffer: string, chunks: seq<string>)
    requires WholeReply(text, value)
    requires buffer + Join(chunks) == text && |buffer| < |text|
    requires forall i :: 0 <= i < |chunks| ==> chunks[i] != ""
    ensures Receive(buffer, chunks) == Got(value)
    decreases |chunks|
  {
    assert chunks != [];
    var buffer' := buffer + chunks[0];
    assert buffer' + Join(chunks[1..]) == text;
    if |buffer'| == |text| {
      assert buffer' == text;
    } else {
      assert text[..|buffer'|] == buffer';
      ReceiveAnyChunking(text, value, buffer', chunks[1..]);
    }
  }

  /** Bulk replies of ASCII text are whole replies. */
  lemma {:induction false} BulkIsWhole(text: string)
    requires Ascii(text)
    ensures WholeReply(Bulk(text), Reply(text))
  {
    BulkRoundTrip(text, "");
    assert Bulk(text) + "" == Bulk(text);
    forall n | 0 <= n < |Bulk(text)| ensures Parse(Bulk(text)[..n]) == Parsed(Null, Bulk(text)[..n]) {
      TruncatedBulk(text, n);
    }
  }

  /** So are simple strings, errors and integers, and the null bulk string. */
  lemma {:induction false} LineIsWhole(kind: char, body: string, value: Value)
    requires '\r' !in body
    requires match value
      case Reply(text) => kind == '+' && text == body
      case Failure(message) => kind == '-' && message == body
      case Number(n) => kind == ':' && PyInt(body) == Some(n)
      case Null => kind == '$' && PyInt(body) == Some(-1)
      case List(_) => false
    ensures WholeReply([kind] + body + CRLF, value)
  {
    var line := [kind] + body;
    var text := line + CRLF;
    assert text == line + CRLF + "";
    FindLineEnd(line, "");
    assert PyDrop(line, 1) == body;
    assert Parse(text) == ParseLine(text);
    forall n | 0 <= n < |text| ensures Parse(text[..n]) == Parsed(Null, text[..n]) {
      NoLineEnd(line, "", n);
      if n > 0 {
        assert text[..n][0] == kind;
        assert Parse(text[..n]) == ParseLine(text[..n]);
      }
    }
  }
}
