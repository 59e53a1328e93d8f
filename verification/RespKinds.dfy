/**
 What the parser makes of any text, kind by kind: well-formed or not, with lengths of any sign, nested
 arrays, and commands typed in one line.
 */
module RespKinds {
  import opened Wrappers
  import opened Text
  import opened TextFacts
  import opened Resp

  predicate IsKind(c: char) { c in "+-:$*" }

  /** A line of some kind with its line end, and what is behind it. */
  function Line(kind: char, body: string, rest: string): string { [kind] + body + CRLF + rest }

  /** The line end is where the line ends. */
  lemma {:induction false} LineEnd(kind: char, body: string, rest: string)
    requires IsKind(kind) && Separated(body, CRLF)
    ensures var text := Line(kind, body, rest);
      && text[0] == kind && Find(text, CRLF) == 1 + |body| && PyDrop(text[..1 + |body|], 1) == body
      && text[1 + |body| + 2..] == rest
  {
    var line := [kind] + body;
    forall j | At(line + CRLF, CRLF, j) ensures j >= |line| {
      assert (line + CRLF)[j..j + 2][0] == '\r';
      if j > 0 {
        assert (body + CRLF)[j - 1..j + 1] == (line + CRLF)[j..j + 2];
        assert At(body + CRLF, CRLF, j - 1);
      }
    }
    FindSeparator(line, CRLF, rest);
    var text := Line(kind, body, rest);
    assert text[..1 + |body|] == line && line[1..] == body;
  }

  /** Simple strings, errors and integers; a number that is none raises. */
  lemma {:induction false} LineRead(kind: char, body: string, rest: string)
    requires kind in "+-:" && Separated(body, CRLF)
    ensures Parse(Line(kind, body, rest)) ==
      match kind
      case '+' => Parsed(Reply(body), rest)
      case '-' => Parsed(Resp.Failure(body), rest)
      case _ => match PyInt(body) case Some(n) => Parsed(Number(n), rest) case None => Raised
  {
    hide Find, PyDrop, PyInt, Separated;
    LineEnd(kind, body, rest);
  }

  /**
   Bulk strings: without a length nothing is read, and nothing before all of it is there; -1 is None;
   a length below that counts from the end of what is there.
   */
  predicate BulkIs(text: string, body: string, rest: string, r: ParseResult) {
    match PyInt(body)
    case None => r == Parsed(Null, text)
    case Some(n) =>
      && (n == -1 ==> r == Parsed(Null, rest))
      && (n > |rest| - 2 && n >= 0 ==> r == Parsed(Null, text))
      && (0 <= n <= |rest| - 2 ==> r == Parsed(Reply(rest[..n]), rest[n + 2..]))
      && (n == -2 ==> r == Parsed(Reply(if |rest| >= 2 then rest[..|rest| - 2] else ""), rest))
      && (-|rest| <= n < -2 ==> r == Parsed(Reply(rest[..|rest| + n]), rest[|rest| + n + 2..]))
      && (n < -|rest| && n < -2 ==>
            r == Parsed(Reply(""), if |rest| + n + 2 <= 0 then rest else rest[|rest| + n + 2..]))
  }

  lemma {:induction false} BulkRead(body: string, rest: string)
    requires Separated(body, CRLF)
    ensures BulkIs(Line('$', body, rest), body, rest, Parse(Line('$', body, rest)))
  {
    hide Find, PyInt, Separated, PyTake, PyDrop, BulkIs, ParseBulk;
    LineEnd('$', body, rest);
    var text := Line('$', body, rest);
    LineSuffix('$', body, rest);
    assert Parse(text) == ParseBulk(text, body, rest);
    BulkSlices(text, body, rest);
  }

  lemma {:induction false} LineSuffix(kind: char, body: string, rest: string)
    ensures IsSuffix(rest, Line(kind, body, rest)) && |rest| < |Line(kind, body, rest)|
  {
  }

  lemma {:induction false} BulkSlices(text: string, body: string, rest: string)
    requires IsSuffix(rest, text) && |rest| < |text|
    ensures BulkIs(text, body, rest, ParseBulk(text, body, rest))
  {
    hide PyInt, PyTake, PyDrop;
    if PyInt(body).Some? {
      var n := PyInt(body).value;
      SlicesAre(rest, n);
      SlicesAre(rest, n + 2);
    }
  }

  // ---- Arrays ----

  /** Element `k` is read from `texts[k]`, and leaves `texts[k + 1]`. */
  ghost predicate ReadsOn(values: seq<Value>, texts: seq<string>) {
    |texts| == |values| + 1
    && forall k :: 0 <= k < |values| ==> Parse(texts[k]) == Parsed(values[k], texts[k + 1])
  }

  lemma {:induction false} ElementsRead(values: seq<Value>, texts: seq<string>, rest: string, before: seq<Value>)
    requires ReadsOn(values, texts) && IsSuffix(texts[0], rest)
    requires forall k :: 0 <= k < |values| ==> !(values[k] == Null && texts[k + 1] == rest)
    ensures ParseElements(|values|, rest, texts[0], before) == Elements(before + values, texts[|values|])
    decreases |values|
  {
    hide Parse;
    if values == [] {
      assert before + [] == before;
    } else {
      var more, left := values[1..], texts[1..];
      assert Parse(texts[0]) == Parsed(values[0], left[0]);
      assert forall k :: 0 <= k < |more| ==> values[k + 1] == more[k] && texts[k + 2] == left[k + 1];
      ParsedSuffix(texts[0], rest);
      ElementsRead(more, left, rest, before + [values[0]]);
      assert before + [values[0]] + more == before + values;
    }
  }

  lemma {:induction false} ParsedSuffix(text: string, rest: string)
    requires IsSuffix(text, rest) && Parse(text).Parsed?
    ensures IsSuffix(Parse(text).rest, rest)
  {
    SuffixTransitive(Parse(text).rest, text, rest);
  }

  /** An array of whatever can be read one after the other; one of no elements, or fewer, is empty. */
  lemma {:induction false} ArrayRead(body: string, n: int, values: seq<Value>, texts: seq<string>)
    requires Separated(body, CRLF) && PyInt(body) == Some(n) && n != -1 && |values| == (if n > 0 then n else 0)
    requires ReadsOn(values, texts)
    requires forall k :: 0 <= k < |values| ==> !(values[k] == Null && texts[k + 1] == texts[0])
    ensures Parse(Line('*', body, texts[0])) == Parsed(List(values), texts[|values|])
  {
    hide Find, PyInt, Separated, ParseElements;
    LineEnd('*', body, texts[0]);
    ElementsRead(values, texts, texts[0], []);
    assert [] + values == values;
    if n < 0 {
      NoElements(n, texts[0]);
    }
  }

  lemma {:induction false} NoElements(n: int, rest: string)
    requires n < 0
    ensures ParseElements(n, rest, rest, []) == ParseElements(0, rest, rest, [])
  {
  }

  /** Without a count nothing is read; -1 is None; and when the first element is not there yet, nothing is. */
  lemma {:induction false} ArrayWaits(body: string, rest: string)
    requires Separated(body, CRLF)
    ensures var text := Line('*', body, rest);
      && (PyInt(body) == None ==> Parse(text) == Parsed(Null, text))
      && (PyInt(body) == Some(-1) ==> Parse(text) == Parsed(Null, rest))
      && (PyInt(body).Some? && PyInt(body).value > 0 && Parse(rest) == Parsed(Null, rest) ==>
            Parse(text) == Parsed(Null, text))
      && (PyInt(body).Some? && PyInt(body).value > 0 && Parse(rest) == Raised ==> Parse(text) == Raised)
  {
    hide Find, PyInt, Separated, ParseElements;
    LineEnd('*', body, rest);
    if PyInt(body).Some? && PyInt(body).value > 0 {
      FirstElement(PyInt(body).value, rest);
    }
  }

  lemma {:induction false} FirstElement(n: int, rest: string)
    requires n > 0
    ensures Parse(rest) == Parsed(Null, rest) ==> ParseElements(n, rest, rest, []) == Incomplete
    ensures Parse(rest) == Raised ==> ParseElements(n, rest, rest, []) == Broken
  {
    hide Find, PyInt;
  }

  /** A line of some kind that has no end yet waits; so does nothing at all. */
  lemma {:induction false} NoLineWaits(text: string)
    requires text != "" && IsKind(text[0]) ==> Find(text, CRLF) == -1
    requires text != "" && !IsKind(text[0]) ==> '\n' !in text
    ensures Parse(text) == Parsed(Null, text)
  {
    if text != "" && !IsKind(text[0]) {
      NoNewline(text);
    }
  }

  lemma {:induction false} NoNewline(text: string)
    requires '\n' !in text
    ensures Find(text, CRLF) == -1 && Find(text, "\n") == -1
  {
    CharSeparates(text, '\n');
    assert forall j :: At(text, CRLF, j) ==> text[j + 1] == text[j..j + 2][1];
  }

  // ---- Commands in one line ----

  /** A word as it is typed, with quotes around it or not. */
  ghost predicate Typed(word: string, text: string) {
    && (text == "" || (text[0] != '"' && text[|text| - 1] != '"'))
    && exists a, b :: Quotes(a) && Quotes(b) && word == a + text + b
  }

  lemma {:induction false} WordsTyped(line: string, gaps: seq<string>, words: seq<string>, texts: seq<string>)
    requires |gaps| == |words| + 1 && AreGaps(gaps) && line == Spread(gaps, words) && |texts| == |words|
    requires forall i :: 0 <= i < |words| ==> IsWord(words[i]) && Typed(words[i], texts[i])
    ensures InlineWords(line) == List(Texts(texts))
  {
    hide Words, Spread, AreGaps, IsWord;
    WordsIs(gaps, words);
    forall i | 0 <= i < |words| ensures StripQuotes(words[i]) == texts[i] {
      assert Typed(words[i], texts[i]);
      var a, b :| Quotes(a) && Quotes(b) && words[i] == a + texts[i] + b;
      QuotesIs(a, texts[i], b);
    }
  }

  /** A line of words that begins with none of the kinds is the list of its words, whatever the gaps between them. */
  lemma {:induction false} InlineRead(gaps: seq<string>, words: seq<string>, texts: seq<string>, rest: string)
    requires |gaps| == |words| + 1 && AreGaps(gaps) && |texts| == |words|
    requires forall i :: 0 <= i < |words| ==> IsWord(words[i]) && Typed(words[i], texts[i])
    requires var line := Spread(gaps, words); (line != "" ==> !IsKind(line[0]))
    requires Separated(Spread(gaps, words), CRLF)
    ensures Parse(Spread(gaps, words) + CRLF + rest) == Parsed(List(Texts(texts)), rest)
  {
    hide InlineWords, Spread, AreGaps, IsWord, Typed;
    var line := Spread(gaps, words);
    var text := line + CRLF + rest;
    WordsTyped(line, gaps, words, texts);
    FindSeparator(line, CRLF, rest);
    assert text[..|line|] == line && text[|line| + 2..] == rest;
    assert text[0] == if line == "" then '\r' else line[0];
    EndIsNoKind();
    InlineIs(text);
  }

  lemma {:induction false} EndIsNoKind()
    ensures !IsKind('\r') && !IsKind('\n')
  {
  }

  lemma {:induction false} InlineIs(text: string)
    requires text != "" && !IsKind(text[0])
    ensures Parse(text) == ParseInline(text)
  {
    hide ParseInline;
  }

  /** A bare newline ends it as well, when no CRLF is there at all. */
  lemma {:induction false} InlineNewline(gaps: seq<string>, words: seq<string>, texts: seq<string>, rest: string)
    requires |gaps| == |words| + 1 && AreGaps(gaps) && |texts| == |words|
    requires forall i :: 0 <= i < |words| ==> IsWord(words[i]) && Typed(words[i], texts[i])
    requires var line := Spread(gaps, words); (line != "" ==> !IsKind(line[0])) && '\n' !in line
    requires Find(Spread(gaps, words) + "\n" + rest, CRLF) == -1
    ensures Parse(Spread(gaps, words) + "\n" + rest) == Parsed(List(Texts(texts)), rest)
  {
    hide InlineWords, Spread, AreGaps, IsWord, Typed;
    var line := Spread(gaps, words);
    var text := line + "\n" + rest;
    WordsTyped(line, gaps, words, texts);
    CharSeparates(line, '\n');
    FindSeparator(line, "\n", rest);
    assert text[..|line|] == line && text[|line| + 1..] == rest;
    assert text[0] == if line == "" then '\n' else line[0];
    EndIsNoKind();
    InlineIs(text);
  }

  // ---- Lengths in bytes ----

  /** The bytes of a character in UTF-8 (RFC 3629, section 3). */
  function Utf8(c: char): seq<int> {
    var n := c as int;
    if n < 0x80 then [n]
    else if n < 0x800 then [0xC0 + n / 0x40, 0x80 + n % 0x40]
    else if n < 0x10000 then [0xE0 + n / 0x40 / 0x40, 0x80 + n / 0x40 % 0x40, 0x80 + n % 0x40]
    else [0xF0 + n / 0x40 / 0x40 / 0x40, 0x80 + n / 0x40 / 0x40 % 0x40, 0x80 + n / 0x40 % 0x40, 0x80 + n % 0x40]
  }

  /** The code point that bytes stand for: the bits of the first below its length mark, six of each other. */
  function CodePoint(bytes: seq<int>): int {
    if |bytes| == 1 then bytes[0]
    else if |bytes| == 2 then (bytes[0] - 0xC0) * 0x40 + (bytes[1] - 0x80)
    else if |bytes| == 3 then ((bytes[0] - 0xE0) * 0x40 + (bytes[1] - 0x80)) * 0x40 + (bytes[2] - 0x80)
    else if |bytes| == 4 then
      (((bytes[0] - 0xF0) * 0x40 + (bytes[1] - 0x80)) * 0x40 + (bytes[2] - 0x80)) * 0x40 + (bytes[3] - 0x80)
    else -1
  }

  lemma {:induction false} Utf8Reads(c: char)
    ensures CodePoint(Utf8(c)) == c as int && |Utf8(c)| == Utf8Width(c)
  {
  }

  lemma {:induction false} Utf8Bytes(c: char)
    ensures forall i :: 0 <= i < |Utf8(c)| ==> 0 <= Utf8(c)[i] < 0xF8 && (i > 0 <==> 0x80 <= Utf8(c)[i] < 0xC0)
  {
  }

  function Utf8All(s: string): seq<int> { if s == "" then [] else Utf8All(s[..|s| - 1]) + Utf8(s[|s| - 1]) }

  /** The announced length is the number of bytes sent. */
  lemma {:induction false} LengthInBytes(s: string)
    ensures Utf8Length(s) == |Utf8All(s)|
  {
    hide Utf8, Utf8Width;
    if s != "" {
      LengthInBytes(s[..|s| - 1]);
      Utf8Reads(s[|s| - 1]);
    }
  }
}
