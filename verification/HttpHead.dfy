/** What the header of a request says, from its text: verb, path, and the announced length, in any spelling. */
module HttpHead {
  import opened Wrappers
  import opened Text
  import opened TextFacts
  import opened HttpFraming
  import opened HttpChunking

  const LENGTH_KEY: string := "content-length:"

  // ---- The announced length ----

  /** "Content-Length:", in any letter case. */
  predicate Announces(line: string) { |line| >= 15 && SameLetters(line[..15], LENGTH_KEY) }

  lemma {:induction false} LengthLineIs(line: string)
    ensures IsLength(line) <==> Announces(line)
  {
    LowerBegins(line, LENGTH_KEY);
  }

  /** The colon of the name is the first. */
  lemma {:induction false} ColonAt(line: string)
    requires Announces(line)
    ensures Find(line, ":") == 14
  {
    var name := line[..14];
    assert forall i :: 0 <= i < 14 ==> SameLetter(line[..15][i], LENGTH_KEY[i]);
    assert ':' !in name;
    assert line[..15][14] == ':';
    CharSeparates(name, ':');
    FindSeparator(name, ":", line[15..]);
    assert line == name + ":" + line[15..];
  }

  lemma {:induction false} LengthInIs(line: string)
    requires Announces(line)
    ensures LengthIn(line) == match PyInt(Strip(line[15..])) case Some(n) => n case None => 0
  {
    hide Find, PyInt, Strip;
    ColonAt(line);
  }

  /** A signed numeral behind the name, with white space around it, is the length. */
  lemma {:induction false} LengthRead(line: string, a: string, sign: string, numeral: string, b: string,
                                      zeros: string, n: nat)
    requires Announces(line) && line[15..] == a + (sign + numeral) + b && AllWhite(a) && AllWhite(b)
    requires sign in {"", "+", "-"} && IsNumeral(numeral) && Zeros(zeros) && DigitsOf(numeral) == zeros + PrintNat(n)
    ensures LengthIn(line) == if sign == "-" then 0 - n else n
  {
    hide PyInt, Strip, IsNumeral, DigitsOf, PrintNat, Announces, AllWhite, LengthIn;
    LengthInIs(line);
    SignedIs(sign + numeral, sign, numeral);
    StripIs(a, sign + numeral, b);
    IntIs("", sign, numeral, "", zeros, n) by { NothingWhite(); }
    assert "" + (sign + numeral) + "" == sign + numeral;
  }

  lemma {:induction false} NothingWhite()
    ensures AllWhite("")
  {
  }

  /** Anything else there counts as 0. */
  lemma {:induction false} LengthRefused(line: string, a: string, t: string, b: string)
    requires Announces(line) && line[15..] == a + t + b && AllWhite(a) && Bare(t) && AllWhite(b)
    requires !IsNumeral(t) && (t != "" && t[0] in "+-" ==> !IsNumeral(t[1..]))
    ensures LengthIn(line) == 0
  {
    hide PyInt, Strip, IsNumeral, Announces, AllWhite, LengthIn;
    LengthInIs(line);
    StripIs(a, t, b);
    IntRefuses("", t, "") by { NothingWhite(); }
    assert "" + t + "" == t;
  }

  /** The first line that announces a length decides; without one it is 0. */
  lemma {:induction false} FirstDecides(headers: seq<string>, k: nat)
    requires k <= |headers| && forall i :: 0 <= i < k ==> !Announces(headers[i])
    requires k < |headers| ==> Announces(headers[k])
    ensures ContentLength(headers) == if k == |headers| then 0 else LengthIn(headers[k])
  {
    hide Announces, LengthIn, IsLength;
    if headers != [] {
      LengthLineIs(headers[0]);
      if k > 0 {
        FirstDecides(headers[1..], k - 1);
      }
    }
  }

  // ---- The request line ----

  lemma {:induction false} SomeParts(s: string)
    ensures |Split(s, " ")| >= 1
  {
  }

  lemma {:induction false} WordsOfLine(lines: seq<string>, verb: string, path: string, rest: string)
    requires lines != [] && lines[0] == verb + (" " + (path + (" " + rest))) && ' ' !in verb && ' ' !in path
    ensures |Split(lines[0], " ")| >= 3 && Split(lines[0], " ")[0] == verb && Split(lines[0], " ")[1] == path
  {
    hide Split;
    CharSeparates(verb, ' ');
    CharSeparates(path, ' ');
    SplitStep(verb, " ", path + (" " + rest));
    SplitStep(path, " ", rest);
    assert lines[0] == verb + " " + (path + (" " + rest));
    assert path + (" " + rest) == path + " " + rest;
    SomeParts(rest);
  }

  /** The words of the request line. */
  lemma {:induction false} RequestLineIs(lines: seq<string>, verb: string, path: string, rest: string)
    requires lines != [] && lines[0] == verb + (" " + (path + (" " + rest))) && ' ' !in verb && ' ' !in path
    ensures HeadOfLines(lines) == Head(verb, path, lines[1..], ContentLength(lines[1..]))
  {
    hide Split, ContentLength;
    WordsOfLine(lines, verb, path, rest);
  }

  /** An empty request line, or one with fewer than two spaces, is refused. */
  lemma {:induction false} BadRequestLineIs(lines: seq<string>, verb: string, path: string)
    requires lines != [] && ' ' !in verb && ' ' !in path
    requires lines[0] == verb || lines[0] == verb + (" " + path)
    ensures HeadOfLines(lines) == Bad(if lines[0] == "" then EmptyStatusLine else BadRequestLine)
  {
    hide Split, ContentLength;
    CharSeparates(verb, ' ');
    CharSeparates(path, ' ');
    if lines[0] == verb {
      SplitLast(verb, " ");
    } else {
      assert verb + (" " + path) == verb + " " + path;
      SplitStep(verb, " ", path);
      SplitLast(path, " ");
    }
  }

  // ---- Whole requests ----

  /**
   Any printed request is read back from any cuts: verb, path, header lines and body, where the first
   line that announces a length, in whatever spelling, announces that of the body.
   */
  lemma {:induction false} RequestRead(verb: string, path: string, rest: string, headers: seq<string>, k: nat,
                    a: string, zeros: string, b: string, body: string, cuts: Cuts)
    requires ' ' !in verb && ' ' !in path && |body| <= 1048576
    requires var lines := [verb + (" " + (path + (" " + rest)))] + headers;
      AreLines(lines) && |JoinLines(lines)| + 4 <= 8192
    requires k < |headers| && Announces(headers[k]) && forall i :: 0 <= i < k ==> !Announces(headers[i])
    requires headers[k][15..] == a + (zeros + PrintNat(|body|)) + b && AllWhite(a) && Zeros(zeros) && AllWhite(b)
    ensures Parse(RequestText([verb + (" " + (path + (" " + rest)))] + headers, body), cuts)
         == Request(verb, path, headers, body)
  {
    hide Split, ContentLength, LengthIn, AreLines, JoinLines, Announces, IsNumeral, DigitsOf, PrintNat, AllWhite;
    var lines := [verb + (" " + (path + (" " + rest)))] + headers;
    assert lines[1..] == headers;
    FirstDecides(headers, k);
    PlainDigits(zeros, |body|);
    assert "" + (zeros + PrintNat(|body|)) == zeros + PrintNat(|body|);
    LengthRead(headers[k], a, "", zeros + PrintNat(|body|), b, zeros, |body|);
    WordsOfLine(lines, verb, path, rest);
    RequestRoundTrip(lines, body, cuts);
  }

  lemma {:induction false} DigitsThemselves(s: string)
    requires AllDigits(s)
    ensures DigitsOf(s) == s
  {
    if s != "" {
      DigitsThemselves(s[..|s| - 1]);
    }
  }

  lemma {:induction false} PlainDigits(zeros: string, n: nat)
    requires Zeros(zeros)
    ensures IsNumeral(zeros + PrintNat(n)) && DigitsOf(zeros + PrintNat(n)) == zeros + PrintNat(n)
  {
    PaddedValue(zeros, n);
    DigitsThemselves(zeros + PrintNat(n));
  }
}
