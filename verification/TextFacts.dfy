/** What the string operations mean, said apart from how they compute. */
module TextFacts {
  import opened Wrappers
  import opened Text

  // ---- Letter case ----

  /** The same letters, in whatever case; other characters are the same. */
  predicate SameLetters(s: string, t: string) {
    |s| == |t| && forall i :: 0 <= i < |s| ==> SameLetter(s[i], t[i])
  }

  predicate SameLetter(a: char, b: char) {
    || a == b
    || ('A' <= a <= 'Z' && b as int == a as int + 32)
    || ('A' <= b <= 'Z' && a as int == b as int + 32)
  }

  lemma {:induction false} UpperIs(s: string, t: string)
    requires forall i :: 0 <= i < |t| ==> !('a' <= t[i] <= 'z')
    ensures Upper(s) == t <==> SameLetters(s, t)
  {
    if Upper(s) == t {
      assert forall i :: 0 <= i < |s| ==> t[i] == UpperChar(s[i]);
    }
  }

  lemma {:induction false} LowerIs(s: string, t: string)
    requires forall i :: 0 <= i < |t| ==> !('A' <= t[i] <= 'Z')
    ensures Lower(s) == t <==> SameLetters(s, t)
  {
    if Lower(s) == t {
      assert forall i :: 0 <= i < |s| ==> t[i] == LowerChar(s[i]);
    }
  }

  /** A prefix in any case. */
  lemma {:induction false} LowerBegins(s: string, t: string)
    requires forall i :: 0 <= i < |t| ==> !('A' <= t[i] <= 'Z')
    ensures t <= Lower(s) <==> |t| <= |s| && SameLetters(s[..|t|], t)
  {
    if |t| <= |s| {
      assert Lower(s)[..|t|] == Lower(s[..|t|]);
      LowerIs(s[..|t|], t);
    }
  }

  // ---- White space ----

  predicate White(c: char) { c in " \t\n\r" || c as int in {11, 12, 28, 29, 30, 31} }

  predicate AllWhite(s: string) { forall i :: 0 <= i < |s| ==> White(s[i]) }

  /** Empty, or white neither at its beginning nor at its end. */
  predicate Bare(s: string) { s == "" || (!White(s[0]) && !White(s[|s| - 1])) }

  lemma {:induction false} WhiteIsSpace(c: char)
    ensures White(c) <==> IsSpace(c)
  {
  }

  lemma {:induction false} StripLeftStep(c: char, s: string)
    requires White(c)
    ensures StripLeft([c] + s) == StripLeft(s)
  {
    WhiteIsSpace(c);
    assert ([c] + s)[1..] == s;
  }

  lemma {:induction false} StripLeftBlank(a: string, s: string)
    requires AllWhite(a)
    ensures StripLeft(a + s) == StripLeft(s)
  {
    hide StripLeft, White;
    if a == "" {
      assert a + s == s;
    } else {
      StripLeftBlank(a[1..], s);
      StripLeftStep(a[0], a[1..] + s);
      assert a + s == [a[0]] + (a[1..] + s);
    }
  }

  lemma {:induction false} StripRightStep(s: string, c: char)
    requires White(c)
    ensures StripRight(s + [c]) == StripRight(s)
  {
    WhiteIsSpace(c);
    assert (s + [c])[..|s|] == s;
  }

  lemma {:induction false} StripRightBlank(s: string, b: string)
    requires AllWhite(b)
    ensures StripRight(s + b) == StripRight(s)
    decreases |b|
  {
    hide StripRight, White;
    if b == "" {
      assert s + b == s;
    } else {
      var init, last := b[..|b| - 1], b[|b| - 1];
      StripRightBlank(s, init);
      StripRightStep(s + init, last);
      assert s + b == s + init + [last];
    }
  }

  /** Stripping takes off exactly the white space around a text. */
  lemma {:induction false} StripIs(a: string, t: string, b: string)
    requires AllWhite(a) && Bare(t) && AllWhite(b)
    ensures Strip(a + t + b) == t
  {
    assert a + t + b == a + (t + b);
    StripLeftBlank(a, t + b);
    if t == "" {
      assert t + b == b;
      StripLeftBlank(b, "");
      assert b + "" == b;
    } else {
      WhiteIsSpace(t[0]);
      WhiteIsSpace(t[|t| - 1]);
      StripRightBlank(t, b);
    }
  }

  lemma {:induction false} StripLeftParts(s: string)
    ensures AllWhite(s[..|s| - |StripLeft(s)|])
  {
    if s != "" && IsSpace(s[0]) {
      WhiteIsSpace(s[0]);
      StripLeftParts(s[1..]);
      var n := |s| - |StripLeft(s)|;
      assert s[..n] == [s[0]] + s[1..][..n - 1];
    }
  }

  lemma {:induction false} StripRightParts(s: string)
    ensures AllWhite(s[|StripRight(s)|..])
    decreases |s|
  {
    if s != "" && IsSpace(s[|s| - 1]) {
      WhiteIsSpace(s[|s| - 1]);
      StripRightParts(s[..|s| - 1]);
      var n := |StripRight(s)|;
      assert s[n..] == s[..|s| - 1][n..] + [s[|s| - 1]];
    }
  }

  /** Every text is such a text with white space around it. */
  lemma {:induction false} StripParts(s: string) returns (a: string, b: string)
    ensures AllWhite(a) && Bare(Strip(s)) && AllWhite(b) && s == a + Strip(s) + b
  {
    hide StripLeft, StripRight, White;
    var t := StripLeft(s);
    a, b := s[..|s| - |t|], t[|StripRight(t)|..];
    StripLeftParts(s);
    StripRightParts(t);
    StrippedIsBare(t);
    assert s == a + t;
    PutTogether(a, t, StripRight(t), b);
  }

  lemma {:induction false} PutTogether(a: string, t: string, u: string, b: string)
    requires u <= t && b == t[|u|..]
    ensures a + t == a + u + b
  {
    assert t == u + b;
  }

  lemma {:induction false} StrippedIsBare(t: string)
    requires t != "" ==> !IsSpace(t[0])
    ensures Bare(StripRight(t))
  {
    var u := StripRight(t);
    if u != "" {
      WhiteIsSpace(u[0]);
      WhiteIsSpace(u[|u| - 1]);
    }
  }

  // ---- Splitting ----

  /** Parts with a separator between any two. */
  function JoinWith(parts: seq<string>, sep: string): string
    requires parts != []
  {
    if |parts| == 1 then parts[0] else parts[0] + sep + JoinWith(parts[1..], sep)
  }

  /** The separator begins nowhere before its place behind `part`. */
  ghost predicate Separated(part: string, sep: string) { forall j :: At(part + sep, sep, j) ==> j >= |part| }

  lemma {:induction false} FindSeparator(part: string, sep: string, rest: string)
    requires Separated(part, sep)
    ensures Find(part + sep + rest, sep) == |part|
  {
    var s := part + sep + rest;
    assert At(s, sep, |part|) by { assert s[|part|..|part| + |sep|] == sep; }
    forall j | At(s, sep, j) ensures j >= |part| {
      if j < |part| {
        assert (part + sep)[j..j + |sep|] == s[j..j + |sep|];
        assert At(part + sep, sep, j);
      }
    }
  }

  lemma {:induction false} SplitStep(part: string, sep: string, rest: string)
    requires sep != "" && Separated(part, sep)
    ensures Split(part + sep + rest, sep) == [part] + Split(rest, sep)
  {
    var s := part + sep + rest;
    FindSeparator(part, sep, rest);
    assert s[|part| + |sep|..] == rest && s[..|part|] == part;
  }

  /** Splitting undoes joining. */
  lemma {:induction false} SplitIs(parts: seq<string>, sep: string)
    requires parts != [] && sep != "" && forall i :: 0 <= i < |parts| - 1 ==> Separated(parts[i], sep)
    requires Find(parts[|parts| - 1], sep) == -1
    ensures Split(JoinWith(parts, sep), sep) == parts
  {
    hide Split, Separated, Find;
    if |parts| == 1 {
      SplitLast(parts[0], sep);
    } else {
      SplitStep(parts[0], sep, JoinWith(parts[1..], sep));
      SplitIs(parts[1..], sep);
    }
  }

  lemma {:induction false} SplitLast(part: string, sep: string)
    requires sep != "" && Find(part, sep) == -1
    ensures Split(part, sep) == [part]
  {
  }

  /** A character that is not in a part separates it. */
  lemma {:induction false} CharSeparates(part: string, c: char)
    requires c !in part
    ensures Separated(part, [c]) && Find(part, [c]) == -1
  {
    assert forall j :: At(part, [c], j) ==> part[j] == part[j..j + 1][0];
    forall j | At(part + [c], [c], j) ensures j >= |part| {
      assert (part + [c])[j..j + 1][0] == c;
    }
  }

  // ---- Words ----

  /** Words with gaps around them. */
  function Spread(gaps: seq<string>, words: seq<string>): string
    requires |gaps| == |words| + 1
  {
    if words == [] then gaps[0] else gaps[0] + (words[0] + Spread(gaps[1..], words[1..]))
  }

  predicate IsWord(w: string) { w != "" && forall i :: 0 <= i < |w| ==> !White(w[i]) }

  predicate AreGaps(gaps: seq<string>) {
    && (forall i :: 0 <= i < |gaps| ==> AllWhite(gaps[i]))
    && (forall i :: 0 < i < |gaps| - 1 ==> gaps[i] != "")
  }

  lemma {:induction false} WordLengthIs(w: string, rest: string)
    requires (forall i :: 0 <= i < |w| ==> !White(w[i])) && (rest == "" || White(rest[0]))
    ensures WordLength(w + rest) == |w|
  {
    if w == "" {
      assert w + rest == rest;
      if rest != "" {
        WhiteIsSpace(rest[0]);
      }
    } else {
      WhiteIsSpace(w[0]);
      WordLengthIs(w[1..], rest);
      assert (w + rest)[1..] == w[1..] + rest;
    }
  }

  lemma {:induction false} StripLeftWord(w: string, rest: string)
    requires IsWord(w)
    ensures StripLeft(w + rest) == w + rest
  {
    WhiteIsSpace(w[0]);
  }

  lemma {:induction false} WordsStep(gap: string, w: string, rest: string)
    requires AllWhite(gap) && IsWord(w) && (rest == "" || White(rest[0]))
    ensures Words(gap + (w + rest)) == [w] + Words(rest)
  {
    hide StripLeft, WordLength;
    StripLeftBlank(gap, w + rest);
    StripLeftWord(w, rest);
    WordLengthIs(w, rest);
    assert (w + rest)[..|w|] == w && (w + rest)[|w|..] == rest;
  }

  lemma {:induction false} NoWords(gap: string)
    requires AllWhite(gap)
    ensures Words(gap) == []
  {
    StripLeftBlank(gap, "");
    assert gap + "" == gap;
  }

  /** The words are found whatever the gaps. */
  lemma {:induction false} WordsIs(gaps: seq<string>, words: seq<string>)
    requires |gaps| == |words| + 1 && AreGaps(gaps) && forall i :: 0 <= i < |words| ==> IsWord(words[i])
    ensures Words(Spread(gaps, words)) == words
    decreases |words|
  {
    hide Words, IsWord, AllWhite, White;
    if words == [] {
      NoWords(gaps[0]);
    } else {
      GapFirst(gaps[1..], words[1..]);
      WordsStep(gaps[0], words[0], Spread(gaps[1..], words[1..]));
      WordsIs(gaps[1..], words[1..]);
    }
  }

  lemma {:induction false} GapFirst(gaps: seq<string>, words: seq<string>)
    requires |gaps| == |words| + 1 && forall i :: 0 <= i < |gaps| ==> AllWhite(gaps[i])
    requires words != [] ==> gaps[0] != ""
    ensures var s := Spread(gaps, words); s == "" || White(s[0])
  {
    assert AllWhite(gaps[0]);
  }

  // ---- Quotes ----

  predicate Quotes(s: string) { forall i :: 0 <= i < |s| ==> s[i] == '"' }

  lemma {:induction false} QuoteFirst(s: string)
    ensures StripQuotes(['"'] + s) == StripQuotes(s)
  {
    assert (['"'] + s)[1..] == s;
  }

  lemma {:induction false} QuoteLast(s: string)
    requires s != "" && s[0] != '"'
    ensures StripQuotes(s + ['"']) == StripQuotes(s)
  {
    assert (s + ['"'])[..|s|] == s;
  }

  lemma {:induction false} NoQuotes(s: string)
    requires s == "" || (s[0] != '"' && s[|s| - 1] != '"')
    ensures StripQuotes(s) == s
  {
  }

  /** Taking off the quotes around a text. */
  lemma {:induction false} QuotesIs(a: string, t: string, b: string)
    requires Quotes(a) && Quotes(b) && (t == "" || (t[0] != '"' && t[|t| - 1] != '"'))
    ensures StripQuotes(a + t + b) == t
    decreases |a| + |b|, |b|
  {
    hide StripQuotes;
    if a != "" {
      QuotesIs(a[1..], t, b);
      QuoteFirst(a[1..] + t + b);
      assert a + t + b == ['"'] + (a[1..] + t + b);
    } else if t == "" && b != "" {
      QuotesIs(b, "", "");
      assert b + "" + "" == b && a + t + b == b;
    } else if b != "" {
      var init := b[..|b| - 1];
      QuotesIs("", t, init);
      QuoteLast(t + init);
      assert "" + t + init == t + init && a + t + b == t + init + ['"'];
    } else {
      NoQuotes(t);
      assert a + t + b == t;
    }
  }

  // ---- Slices ----

  /** `s[:n]` and `s[n:]`, for a bound of any sign. */
  lemma {:induction false} SlicesAre(s: string, n: int)
    ensures 0 <= n <= |s| ==> PyTake(s, n) == s[..n] && PyDrop(s, n) == s[n..]
    ensures n > |s| ==> PyTake(s, n) == s && PyDrop(s, n) == ""
    ensures -|s| <= n < 0 ==> PyTake(s, n) == s[..|s| + n] && PyDrop(s, n) == s[|s| + n..]
    ensures n < -|s| ==> PyTake(s, n) == "" && PyDrop(s, n) == s
  {
  }

  // ---- Numbers ----

  /** Printed numbers have no superfluous zeros; with `Text.IntRoundTrip` that determines them. */
  lemma {:induction false} NoLeadingZero(n: nat)
    ensures n > 0 ==> PrintNat(n)[0] != '0'
  {
    if n >= 10 {
      NoLeadingZero(n / 10);
      assert PrintNat(n)[0] == PrintNat(n / 10)[0];
    }
  }

  predicate Zeros(s: string) { forall i :: 0 <= i < |s| ==> s[i] == '0' }

  /** Groups of digits with underscores between them. */
  predicate AreGroups(groups: seq<string>) {
    groups != [] && forall i :: 0 <= i < |groups| ==> groups[i] != "" && AllDigits(groups[i])
  }

  /** A numeral is such groups, no more and no less. */
  /** The digits of a numeral. */
  function DigitsOf(s: string): string {
    if s == "" then ""
    else
      var init, last := s[..|s| - 1], s[|s| - 1];
      if last == '_' then DigitsOf(init) else DigitsOf(init) + [last]
  }

  lemma {:induction false} ValueOfDigits(s: string)
    requires forall i :: 0 <= i < |s| ==> IsDigit(s[i]) || s[i] == '_'
    ensures AllDigits(DigitsOf(s)) && NumeralValue(DigitsOf(s)) == NumeralValue(s)
  {
    if s != "" {
      var init := s[..|s| - 1];
      ValueOfDigits(init);
      assert s[|s| - 1] != '_' ==> DigitsOf(s)[..|DigitsOf(s)| - 1] == DigitsOf(init);
    }
  }

  lemma {:induction false} ZerosValue(zeros: string)
    requires Zeros(zeros)
    ensures NumeralValue(zeros) == 0
  {
    if zeros != "" {
      ZerosValue(zeros[..|zeros| - 1]);
    }
  }

  lemma {:induction false} PaddedValue(zeros: string, n: nat)
    requires Zeros(zeros)
    ensures AllDigits(zeros + PrintNat(n)) && NumeralValue(zeros + PrintNat(n)) == n
  {
    var s := zeros + PrintNat(n);
    assert AllDigits(s);
    if n >= 10 {
      PaddedValue(zeros, n / 10);
      assert s[..|s| - 1] == zeros + PrintNat(n / 10) && s[|s| - 1] == DigitChar(n % 10);
    } else {
      ZerosValue(zeros);
      assert s[..|s| - 1] == zeros && s[|s| - 1] == DigitChar(n);
    }
  }

  lemma {:induction false} SignedIs(t: string, sign: string, numeral: string)
    requires sign in {"", "+", "-"} && IsNumeral(numeral) && t == sign + numeral
    ensures Bare(t) && t != ""
    ensures if sign == "" then t == numeral else t[0] == sign[0] && t[1..] == numeral
  {
    WhiteIsSpace(t[0]);
    WhiteIsSpace(t[|t| - 1]);
  }

  lemma {:induction false} IntOfBare(a: string, t: string, b: string, sign: string, numeral: string)
    requires AllWhite(a) && AllWhite(b) && sign in {"", "+", "-"} && IsNumeral(numeral) && t == sign + numeral
    ensures PyInt(a + t + b) == Some(if sign == "-" then 0 - NumeralValue(numeral) else NumeralValue(numeral))
  {
    hide Strip, NumeralValue, AllWhite;
    SignedIs(t, sign, numeral);
    StripIs(a, t, b);
  }

  /** `int()` reads a signed numeral with white space around it as the number its digits print. */
  lemma {:induction false} IntIs(a: string, sign: string, numeral: string, b: string, zeros: string, n: nat)
    requires AllWhite(a) && AllWhite(b) && sign in {"", "+", "-"} && IsNumeral(numeral)
    requires Zeros(zeros) && DigitsOf(numeral) == zeros + PrintNat(n)
    ensures PyInt(a + (sign + numeral) + b) == Some(if sign == "-" then 0 - n else n)
  {
    hide PyInt;
    IntOfBare(a, sign + numeral, b, sign, numeral);
    ValueOfDigits(numeral);
    PaddedValue(zeros, n);
  }

  /** And refuses everything else. */
  lemma {:induction false} IntRefuses(a: string, t: string, b: string)
    requires AllWhite(a) && Bare(t) && AllWhite(b)
    requires !IsNumeral(t) && (t != "" && t[0] in "+-" ==> !IsNumeral(t[1..]))
    ensures PyInt(a + t + b) == None
  {
    StripIs(a, t, b);
  }
}
