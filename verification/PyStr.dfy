/** Python's `str()` and `repr()` of what the parser returns, over ASCII text. */
module PyStr {
  import opened Wrappers
  import opened Text
  import opened TextFacts
  import opened Resp

  function HexDigit(d: nat): char
    requires d < 16
  {
    if d < 10 then DigitChar(d) else (d - 10 + 'a' as int) as char
  }

  function Escaped(c: char, quote: char): string {
    if c == '\\' || c == quote then ['\\', c]
    else if c == '\n' then "\\n"
    else if c == '\r' then "\\r"
    else if c == '\t' then "\\t"
    else if c as int < 0x20 || c as int == 0x7f then ['\\', 'x', HexDigit(c as int / 16), HexDigit(c as int % 16)]
    else [c]
  }

  function EscapedAll(s: string, quote: char): string {
    if s == "" then "" else Escaped(s[0], quote) + EscapedAll(s[1..], quote)
  }

  /** Single quotes, unless the text has some and no double quotes. */
  function ReprText(s: string): string {
    var quote := if '\'' in s && '"' !in s then '"' else '\'';
    [quote] + EscapedAll(s, quote) + [quote]
  }

  function Repr(v: Value): string
    decreases v
  {
    match v
    case Null => "None"
    case Reply(text) => ReprText(text)
    case Failure(message) => "Exception(" + ReprText(message) + ")"
    case Number(n) => PrintInt(n)
    case List(items) => "[" + ReprItems(items) + "]"
  }

  function ReprItems(items: seq<Value>): string
    decreases items
  {
    if items == [] then ""
    else if |items| == 1 then Repr(items[0])
    else Repr(items[0]) + ", " + ReprItems(items[1..])
  }

  function Str(v: Value): string {
    match v
    case Reply(text) => text
    case Failure(message) => message
    case _ => Repr(v)
  }

  // ---- ASCII stays ASCII ----

  predicate AsciiValue(v: Value)
    decreases v
  {
    match v
    case Reply(text) => Ascii(text)
    case Failure(message) => Ascii(message)
    case List(items) => forall i :: 0 <= i < |items| ==> AsciiValue(items[i])
    case _ => true
  }

  lemma {:induction false} EscapedAscii(s: string, quote: char)
    requires Ascii(s) && quote as int < 0x80
    ensures Ascii(EscapedAll(s, quote))
  {
    if s != "" {
      EscapedAscii(s[1..], quote);
      assert Ascii(Escaped(s[0], quote));
    }
  }

  lemma {:induction false} ReprTextAscii(s: string)
    requires Ascii(s)
    ensures Ascii(ReprText(s))
  {
    EscapedAscii(s, '\'');
    EscapedAscii(s, '"');
  }

  lemma {:induction false} DigitsAscii(n: int)
    ensures Ascii(PrintInt(n))
  {
    var s := PrintInt(n);
    assert forall i :: 0 < i < |s| ==> s[i] == s[1..][i - 1];
  }

  lemma {:induction false} ReprAscii(v: Value)
    requires AsciiValue(v)
    ensures Ascii(Repr(v))
    decreases v
  {
    match v
    case Null =>
    case Reply(text) => ReprTextAscii(text);
    case Failure(message) => ReprTextAscii(message);
    case Number(n) => DigitsAscii(n);
    case List(items) => ReprItemsAscii(items);
  }

  lemma {:induction false} ReprItemsAscii(items: seq<Value>)
    requires forall i :: 0 <= i < |items| ==> AsciiValue(items[i])
    ensures Ascii(ReprItems(items))
    decreases items
  {
    if items != [] {
      ReprAscii(items[0]);
      if |items| > 1 {
        ReprItemsAscii(items[1..]);
      }
    }
  }

  /** What is printed for ASCII values is ASCII, so it reads back as it was printed. */
  lemma {:induction false} StrAscii(v: Value)
    requires AsciiValue(v)
    ensures Ascii(Str(v))
  {
    if !v.Reply? && !v.Failure? {
      ReprAscii(v);
    }
  }

  // ---- What the literals mean ----

  /** The value of a hexadecimal digit. */
  function HexValue(c: char): Option<nat> {
    if '0' <= c <= '9' then Some(c as int - '0' as int)
    else if 'a' <= c <= 'f' then Some(c as int - 'a' as int + 10)
    else None
  }

  /** The character that an escape sequence at the beginning of `s` stands for, and its length. */
  function EscapeAt(s: string): Option<(char, nat)> {
    if |s| < 2 || s[0] != '\\' then None
    else if s[1] == 'x' then
      if |s| >= 4 && HexValue(s[2]).Some? && HexValue(s[3]).Some? then
        Some(((16 * HexValue(s[2]).value + HexValue(s[3]).value) as char, 4))
      else None
    else if s[1] == 'n' then Some(('\n', 2))
    else if s[1] == 'r' then Some(('\r', 2))
    else if s[1] == 't' then Some(('\t', 2))
    else if s[1] in "\\'\"" then Some((s[1], 2))
    else None
  }

  /** The text a string literal means, from what stands between its quotes; None where it would end. */
  function Meaning(body: string, quote: char): Option<string> {
    if body == "" then Some("")
    else if body[0] == quote || body[0] == '\n' then None
    else
      match if body[0] == '\\' then EscapeAt(body) else Some((body[0], 1))
      case None => None
      case Some((c, n)) =>
        match Meaning(body[n..], quote)
        case None => None
        case Some(more) => Some([c] + more)
  }

  /** An escape sequence stands for the character, and only those that need one have one. */
  lemma {:induction false} EscapedIs(c: char, quote: char, more: string)
    requires quote in "'\"" && c as int < 0x80
    ensures var e := Escaped(c, quote);
      && (|e| == 1 <==> 0x20 <= c as int < 0x7f && c != '\\' && c != quote) && (|e| == 1 ==> e == [c])
      && (|e| > 1 ==> e[0] == '\\' && EscapeAt(e + more) == Some((c, |e|)))
      && (|e| == 2 <==> c in "\\\n\r\t" || c == quote) && |e| in {1, 2, 4}
  {
    var e := Escaped(c, quote);
    if |e| == 4 {
      HexRead(c as int / 16);
      HexRead(c as int % 16);
      assert (e + more)[..4] == e;
    } else {
      assert |e| == 2 ==> (e + more)[1] == e[1];
    }
  }

  lemma {:induction false} HexRead(d: nat)
    requires d < 16
    ensures HexValue(HexDigit(d)) == Some(d)
  {
  }

  lemma {:induction false} EscapedMeans(s: string, quote: char)
    requires quote in "'\"" && Ascii(s)
    ensures Meaning(EscapedAll(s, quote), quote) == Some(s)
  {
    hide Escaped, EscapeAt;
    if s != "" {
      var e, more := Escaped(s[0], quote), EscapedAll(s[1..], quote);
      EscapedMeans(s[1..], quote);
      EscapedIs(s[0], quote, more);
      assert (e + more)[|e|..] == more && (e + more)[0] == e[0];
      assert [s[0]] + s[1..] == s;
    }
  }

  /** What is printed of a text in a list is a string literal that means the text. */
  lemma {:induction false} ReprMeans(s: string)
    requires Ascii(s)
    ensures var r := ReprText(s);
      && |r| >= 2 && r[0] == r[|r| - 1] && (r[0] == '"' <==> '\'' in s && '"' !in s) && r[0] in "'\""
      && Meaning(r[1..|r| - 1], r[0]) == Some(s)
  {
    hide Meaning;
    var quote := if '\'' in s && '"' !in s then '"' else '\'';
    EscapedMeans(s, quote);
    assert ReprText(s)[1..|ReprText(s)| - 1] == EscapedAll(s, quote);
  }

  function Reprs(items: seq<Value>): (reprs: seq<string>)
    ensures |reprs| == |items| && forall i :: 0 <= i < |items| ==> reprs[i] == Repr(items[i])
  {
    seq(|items|, i requires 0 <= i < |items| => Repr(items[i]))
  }

  /** Elements with commas between them. */
  lemma {:induction false} ReprItemsJoin(items: seq<Value>)
    requires items != []
    ensures ReprItems(items) == JoinWith(Reprs(items), ", ")
    decreases |items|
  {
    if |items| > 1 {
      ReprItemsJoin(items[1..]);
      assert Reprs(items)[1..] == Reprs(items[1..]);
    }
  }

  /** `str()` of each kind of value. */
  lemma {:induction false} StrIs(v: Value)
    ensures match v
      case Null => Str(v) == "None"
      case Reply(text) => Str(v) == text
      case Failure(message) => Str(v) == message && Repr(v) == "Exception(" + ReprText(message) + ")"
      case Number(n) => PyInt(Str(v)) == Some(n)
      case List(items) =>
        Str(v) == "[" + (if items == [] then "" else JoinWith(Reprs(items), ", ")) + "]"
  {
    match v
    case Number(n) => PrintedInt(n);
    case List(items) =>
      assert Str(v) == "[" + ReprItems(items) + "]";
      if items != [] {
        ReprItemsJoin(items);
      }
    case _ =>
  }

  lemma {:induction false} PrintedInt(n: int)
    ensures PyInt(PrintInt(n)) == Some(n)
  {
    hide PyInt, PrintNat;
    if n >= 0 {
      IntRoundTrip(n);
    } else {
      NegativeRoundTrip(-n);
      assert PrintInt(n) == ['-'] + PrintNat(-n);
    }
  }
}
