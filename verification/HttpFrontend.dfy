/** The request that frontend/app.py prints is the one the gateway reads, however it is cut. */
module HttpFrontend {
  import opened Text
  import opened TextFacts
  import opened HttpFraming
  import opened HttpChunking
  import opened HttpHead

  /** What is printed. */
  function SubmissionText(host: string, port: int, token: string, body: string): string {
    "POST /submit HTTP/1.1" + CRLF
    + ("Host: " + (host + (":" + PrintInt(port))) + CRLF
       + ("Authorization: Bearer " + token + CRLF
          + ("Content-Type: application/json" + CRLF
             + ("Content-Length: " + PrintNat(|body|) + CRLF
                + "Connection: close"))))
    + END + body
  }

  /** The header lines the gateway is to find. */
  function SubmissionHeaders(host: string, port: int, token: string, length: nat): seq<string> {
    ["Host: " + (host + (":" + PrintInt(port))), "Authorization: Bearer " + token, "Content-Type: application/json",
     "Content-Length: " + PrintNat(length), "Connection: close"]
  }

  const REQUEST_LINE: string := "POST /submit HTTP/1.1"

  lemma {:induction false} JoinStep(line: string, rest: seq<string>)
    requires rest != []
    ensures JoinLines([line] + rest) == line + CRLF + JoinLines(rest)
  {
    assert ([line] + rest)[1..] == rest;
  }

  lemma {:induction false} JoinSix(a: string, b: string, c: string, d: string, e: string, f: string)
    ensures JoinLines([a] + [b, c, d, e, f]) == a + CRLF + (b + CRLF + (c + CRLF + (d + CRLF + (e + CRLF + f))))
  {
    hide JoinLines;
    JoinStep(a, [b, c, d, e, f]);
    JoinStep(b, [c, d, e, f]);
    JoinStep(c, [d, e, f]);
    JoinStep(d, [e, f]);
    JoinStep(e, [f]);
    assert [b] + [c, d, e, f] == [b, c, d, e, f] && [c] + [d, e, f] == [c, d, e, f];
    assert [d] + [e, f] == [d, e, f] && [e] + [f] == [e, f];
    JoinOne(f);
  }

  lemma {:induction false} JoinOne(line: string)
    ensures JoinLines([line]) == line
  {
  }

  lemma {:induction false} PrintedPort(port: int)
    ensures '\r' !in PrintInt(port)
  {
    if port >= 0 {
      IntRoundTrip(port);
    } else {
      NegativeRoundTrip(-port);
      assert PrintInt(port) == ['-'] + PrintNat(-port);
    }
  }

  lemma {:induction false} Lined(name: string, value: string)
    requires name != "" && '\r' !in name && '\r' !in value
    ensures IsLine(name + value)
  {
  }

  lemma {:induction false} FixedLines()
    ensures IsLine(REQUEST_LINE) && IsLine("Content-Type: application/json") && IsLine("Connection: close")
  {
  }

  lemma {:induction false} LinesAreLines(host: string, port: int, token: string, length: nat)
    requires '\r' !in host && '\r' !in token
    ensures AreLines([REQUEST_LINE] + SubmissionHeaders(host, port, token, length))
  {
    hide IsLine, AreLines, PrintNat, PrintInt;
    FixedLines();
    PrintedPort(port);
    IntRoundTrip(length);
    NamesAreLines();
    Lined("Host: ", host + (":" + PrintInt(port)));
    Lined("Authorization: Bearer ", token);
    Lined("Content-Length: ", PrintNat(length));
    SixLines(REQUEST_LINE, "Host: " + (host + (":" + PrintInt(port))), "Authorization: Bearer " + token,
      "Content-Type: application/json", "Content-Length: " + PrintNat(length), "Connection: close");
  }

  lemma {:induction false} NamesAreLines()
    ensures '\r' !in "Host: " && '\r' !in "Authorization: Bearer " && '\r' !in "Content-Length: " && '\r' !in ":"
  {
  }

  lemma {:induction false} SixLines(a: string, b: string, c: string, d: string, e: string, f: string)
    requires IsLine(a) && IsLine(b) && IsLine(c) && IsLine(d) && IsLine(e) && IsLine(f)
    ensures AreLines([a] + [b, c, d, e, f])
  {
    hide IsLine;
  }

  /** A line that differs from the name at some place. */
  lemma {:induction false} NotLength(line: string, i: nat)
    requires i < 15 && i < |line| && !SameLetter(line[i], LENGTH_KEY[i])
    ensures !Announces(line)
  {
    assert |line| >= 15 ==> line[..15][i] == line[i];
  }

  /** Only the fourth line announces a length. */
  lemma {:induction false} LengthFourth(host: string, port: int, token: string, length: nat)
    ensures var headers := SubmissionHeaders(host, port, token, length);
      && !Announces(headers[0]) && !Announces(headers[1]) && !Announces(headers[2]) && Announces(headers[3])
      && headers[3][15..] == " " + PrintNat(length)
  {
    hide Announces, PrintNat, PrintInt;
    var headers := SubmissionHeaders(host, port, token, length);
    NotLength(headers[0], 0);
    NotLength(headers[1], 0);
    NotLength(headers[2], 8);
    LengthLine(PrintNat(length));
  }

  lemma {:induction false} LengthLine(digits: string)
    ensures var line := "Content-Length: " + digits; Announces(line) && line[15..] == " " + digits
  {
    var line := "Content-Length: " + digits;
    assert line[..15] == "Content-Length:";
    assert line[15..] == " " + digits;
  }

  lemma {:induction false} TextIs(host: string, port: int, token: string, body: string)
    ensures SubmissionText(host, port, token, body)
         == RequestText([REQUEST_LINE] + SubmissionHeaders(host, port, token, |body|), body)
  {
    hide JoinLines;
    JoinSix(REQUEST_LINE, "Host: " + (host + (":" + PrintInt(port))), "Authorization: Bearer " + token,
      "Content-Type: application/json", "Content-Length: " + PrintNat(|body|), "Connection: close");
  }

  lemma {:induction false} RequestLineParts()
    ensures REQUEST_LINE == "POST" + (" " + ("/submit" + (" " + "HTTP/1.1")))
  {
  }

  /**
   The round trip of a submission: from any cuts of the printed request the gateway reads the verb,
   the path, the header lines and the body that were sent, provided neither the host nor the token
   contains a carriage return and header and body are within the limits.
   */
  lemma {:induction false} SubmissionRoundTrip(host: string, port: int, token: string, body: string, cuts: Cuts)
    requires '\r' !in host && '\r' !in token && |body| <= 1048576
    requires |JoinLines([REQUEST_LINE] + SubmissionHeaders(host, port, token, |body|))| + 4 <= 8192
    ensures Parse(SubmissionText(host, port, token, body), cuts)
         == Request("POST", "/submit",
              ["Host: " + (host + (":" + PrintInt(port))), "Authorization: Bearer " + token,
               "Content-Type: application/json", "Content-Length: " + PrintNat(|body|), "Connection: close"], body)
  {
    hide JoinLines, AreLines, Announces, SubmissionText, Parse, PrintNat, PrintInt;
    var headers := SubmissionHeaders(host, port, token, |body|);
    LinesAreLines(host, port, token, |body|);
    LengthFourth(host, port, token, |body|);
    TextIs(host, port, token, body);
    RequestLineParts();
    assert " " + ("" + PrintNat(|body|)) + "" == " " + PrintNat(|body|);
    RequestRead("POST", "/submit", "HTTP/1.1", headers, 3, " ", "", "", body, cuts);
  }
}
