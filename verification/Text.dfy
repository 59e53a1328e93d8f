/**
 The few Python string operations the system relies on, over ASCII text: searching and
 splitting, slicing with possibly negative bounds, `int()`, and decimal printing.
 */
module Text {
  import opened Wrappers

  const CRLF := "\r\n"

  /** Does `p` occur in `s` at index `j`? */
  predicate At(s: string, p: string, j: int) {
    0 <= j && j + |p| <= |s| && s[j..j + |p|] == p
  }

  /** The index of the first occurrence of `p` in `s`, or -1: Python's `s.find(p)`. */
  function Find(s: string, p: string): (i: int)
    ensures i == -1 || At(s, p, i)
    ensures forall j :: At(s, p, j) ==> 0 <= i <= j
  {
    FindFrom(s, p, 0)
  }

  function FindFrom(s: string, p: string, k: nat): (i: int)
    requires forall j :: At(s, p, j) ==> k <= j
    ensures i == -1 || At(s, p, i)
    ensures forall j :: At(s, p, j) ==> 0 <= i <= j
    decreases |s| - k
  {
    if At(s, p, k) then k
    else if k >= |s| then -1
    else FindFrom(s, p, k + 1)
  }

  /** Python's `s[:n]`. */
  function PyTake(s: string, n: int): (t: string)
    ensures t <= s
  {
    if n < 0 then (if |s| + n <= 0 then [] else s[..|s| + n])
    else if n <= |s| then s[..n] else s
  }

  /** Python's `s[n:]`. */
  function PyDrop(s: string, n: int): (t: string)
    ensures IsSuffix(t, s)
  {
    if n < 0 then (if |s| + n <= 0 then s else s[|s| + n..])
    else if n <= |s| then s[n..] else []
  }

  predicate IsSuffix(t: string, s: string) {
    |t| <= |s| && s[|s| - |t|..] == t
  }

  lemma {:induction false} SuffixTransitive(a: string, b: string, c: string)
    requires IsSuffix(a, b) && IsSuffix(b, c)
    ensures IsSuffix(a, c)
  {
    assert c[|c| - |a|..] == c[|c| - |b|..][|b| - |a|..];
  }

  // ---- Finding a line end ----

  lemma {:induction false} CrlfStartsWithCr(s: string)
    ensures forall j :: At(s, CRLF, j) ==> s[j] == '\r'
  {
    forall j | At(s, CRLF, j) ensures s[j] == '\r' {
      assert s[j..j + 2][0] == '\r';
    }
  }

  /** A line without CR, then CRLF: the first CRLF is the one after the line. */
  lemma {:induction false} FindLineEnd(line: string, tail: string)
    requires '\r' !in line
    ensures Find(line + CRLF + tail, CRLF) == |line|
    ensures (line + CRLF + tail)[..|line|] == line
    ensures (line + CRLF + tail)[|line| + 2..] == tail
  {
    var s := line + CRLF + tail;
    assert s[|line|..|line| + 2] == CRLF;
    assert At(s, CRLF, |line|);
    CrlfStartsWithCr(s);
  }

  /** Cut before its CRLF is complete, the line shows no CRLF at all. */
  lemma {:induction false} NoLineEnd(line: string, tail: string, n: nat)
    requires '\r' !in line && n < |line| + 2 <= |line + CRLF + tail|
    ensures Find((line + CRLF + tail)[..n], CRLF) == -1
  {
    CrlfStartsWithCr((line + CRLF + tail)[..n]);
  }

  /** Text without CR has no CRLF. */
  lemma {:induction false} NoCarriageReturn(s: string)
    requires '\r' !in s
    ensures Find(s, CRLF) == -1
  {
    CrlfStartsWithCr(s);
  }

  // ---- Decimal numbers ----

  predicate IsDigit(c: char) { '0' <= c <= '9' }

  function DigitChar(d: nat): (c: char)
    requires d < 10
    ensures IsDigit(c) && DigitValue(c) == d
  {
    ('0' as int + d) as char
  }

  function DigitValue(c: char): (d: nat)
    requires IsDigit(c)
    ensures d < 10
  {
    c as int - '0' as int
  }

  predicate AllDigits(s: string) { forall i :: 0 <= i < |s| ==> IsDigit(s[i]) }

  /** Decimal form of a natural number, as `str(n)` prints it. */
  function PrintNat(n: nat): (s: string)
    ensures |s| > 0 && AllDigits(s)
  {
    if n < 10 then [DigitChar(n)] else PrintNat(n / 10) + [DigitChar(n % 10)]
  }

  function PrintInt(n: int): (s: string)
    ensures |s| > 0 && AllDigits(s[1..]) && (s[0] == '-' || IsDigit(s[0]))
  {
    if n < 0 then "-" + PrintNat(-n) else PrintNat(n)
  }

  predicate IsSpace(c: char) {
    c == ' ' || '\t' <= c <= '\r' || 28 as char <= c <= 31 as char
  }

  function StripLeft(s: string): (t: string)
    ensures IsSuffix(t, s)
    ensures t != [] ==> !IsSpace(t[0])
  {
    if s != [] && IsSpace(s[0]) then
      var t := StripLeft(s[1..]);
      SuffixTransitive(t, s[1..], s);
      t
    else s
  }

  function StripRight(s: string): (t: string)
    ensures t <= s
    ensures t != [] ==> !IsSpace(t[|t| - 1])
  {
    if s != [] && IsSpace(s[|s| - 1]) then StripRight(s[..|s| - 1]) else s
  }

  function Strip(s: string): string { StripRight(StripLeft(s)) }

  /** Digits, with single underscores allowed between two digits. */
  predicate IsNumeral(s: string) {
    && |s| > 0
    && IsDigit(s[0]) && IsDigit(s[|s| - 1])
    && (forall i :: 0 <= i < |s| ==> IsDigit(s[i]) || s[i] == '_')
    && (forall i :: 0 < i < |s| ==> IsDigit(s[i - 1]) || IsDigit(s[i]))
  }

  function NumeralValue(s: string): (v: int)
    requires forall i :: 0 <= i < |s| ==> IsDigit(s[i]) || s[i] == '_'
    ensures v >= 0
  {
    if s == [] then 0
    else if s[|s| - 1] == '_' then NumeralValue(s[..|s| - 1])
    else 10 * NumeralValue(s[..|s| - 1]) + DigitValue(s[|s| - 1])
  }

  /** Python's `int(s)` on ASCII text; None where it raises ValueError. */
  function PyInt(s: string): Option<int> {
    var t := Strip(s);
    if t == [] then None
    else if t[0] == '-' then (if IsNumeral(t[1..]) then Some(-NumeralValue(t[1..])) else None)
    else if t[0] == '+' then (if IsNumeral(t[1..]) then Some(NumeralValue(t[1..])) else None)
    else if IsNumeral(t) then Some(NumeralValue(t)) else None
  }

  lemma {:induction false} NumeralOfPrinted(n: nat)
    ensures NumeralValue(PrintNat(n)) == n
  {
    if n >= 10 {
      NumeralOfPrinted(n / 10);
      var s := PrintNat(n);
      assert s[..|s| - 1] == PrintNat(n / 10);
    }
  }

  /** Reading back a printed length gives the length. */
  lemma {:induction false} IntRoundTrip(n: nat)
    ensures PyInt(PrintNat(n)) == Some(n)
    ensures PyInt(" " + PrintNat(n)) == Some(n)
    ensures '\r' !in PrintNat(n)
  {
    var s := PrintNat(n);
    var spaced := " " + s;
    assert spaced[1..] == s;
    assert StripLeft(spaced) == StripLeft(s) == s;
    NumeralOfPrinted(n);
  }

  /** Text that neither begins nor ends with a space is left as it is. */
  lemma {:induction false} StripBare(s: string)
    requires s != [] && !IsSpace(s[0]) && !IsSpace(s[|s| - 1])
    ensures Strip(s) == s
  {
  }

  lemma {:induction false} NegativeRoundTrip(n: nat)
    ensures PyInt(['-'] + PrintNat(n)) == Some(0 - n)
    ensures '\r' !in ['-'] + PrintNat(n)
  {
    hide Strip, PrintNat, NumeralValue;
    var digits := PrintNat(n);
    var s := ['-'] + digits;
    assert s[1..] == digits && s[|s| - 1] == digits[|digits| - 1];
    StripBare(s);
    NumeralOfPrinted(n);
    IntRoundTrip(n);
  }

  // ---- Case and splitting ----

  function UpperChar(c: char): char {
    if 'a' <= c <= 'z' then (c as int - 32) as char else c
  }

  function Upper(s: string): (t: string)
    ensures |t| == |s| && forall i :: 0 <= i < |s| ==> t[i] == UpperChar(s[i])
  {
    if s == [] then [] else [UpperChar(s[0])] + Upper(s[1..])
  }

  function LowerChar(c: char): char {
    if 'A' <= c <= 'Z' then (c as int + 32) as char else c
  }

  function Lower(s: string): (t: string)
    ensures |t| == |s| && forall i :: 0 <= i < |s| ==> t[i] == LowerChar(s[i])
  {
    if s == [] then [] else [LowerChar(s[0])] + Lower(s[1..])
  }

  /** Python's `s.split(sep)` for a non-empty separator. */
  function Split(s: string, sep: string): (parts: seq<string>)
    requires |sep| > 0
    ensures |parts| > 0
    decreases |s|
  {
    var i := Find(s, sep);
    if i == -1 then [s] else [s[..i]] + Split(s[i + |sep|..], sep)
  }

  /** Python's `s.split()`: maximal runs of non-space characters. */
  function Words(s: string): seq<string>
    decreases |s|
  {
    var t := StripLeft(s);
    if t == [] then []
    else
      var n := WordLength(t);
      [t[..n]] + Words(t[n..])
  }

  function WordLength(s: string): (n: nat)
    ensures n <= |s|
    ensures s != [] && !IsSpace(s[0]) ==> n > 0
  {
    if s == [] || IsSpace(s[0]) then 0 else 1 + WordLength(s[1..])
  }

  /** Python's `s.strip('"')`. */
  function StripQuotes(s: string): string
    decreases |s|
  {
    if s == [] then []
    else if s[0] == '"' then StripQuotes(s[1..])
    else if s[|s| - 1] == '"' then StripQuotes(s[..|s| - 1])
    else s
  }

  /** The chunks of a stream put together. */
  function Join(chunks: seq<string>): string {
    if chunks == [] then "" else chunks[0] + Join(chunks[1..])
  }
}
