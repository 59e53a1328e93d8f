/**
 What each command does, from its words: the contents of the store, the records of the log, the
 answer, and what a client gets; the action in any letter case.
 */
module LruProtocol {
  import opened Wrappers
  import opened Text
  import opened TextFacts
  import opened Resp
  import opened PyStr
  import opened LruCache
  import opened LruRecovery
  import opened LruWire
  import L = LruStore

  // ---- Keys and what is printed of them ----

  /** `k` is what the value stands for as a key: an error for nothing that is there. */
  predicate KeyFor(s: Store, v: Value, k: Key) {
    match v
    case Reply(text) => k == TextKey(text)
    case Null => k == NoneKey
    case Number(n) => k == IntKey(n)
    case Failure(message) => k.ErrorKey? && k.message == message && L.Lookup(s, k) == None
    case List(_) => false
  }

  predicate PrintedKey(k: Key, text: string) {
    match k
    case TextKey(t) => text == t
    case NoneKey => text == "None"
    case IntKey(n) => PyInt(text) == Some(n)
    case ErrorKey(_, message) => text == message
  }

  predicate PrintedValue(v: Value, text: string) {
    match v
    case Reply(t) => text == t
    case Null => text == "None"
    case Number(n) => PyInt(text) == Some(n)
    case Failure(message) => text == message
    case List(_) => text == Str(v)
  }

  lemma {:induction false} KeyPrinted(k: Key)
    ensures PrintedKey(k, KeyStr(k))
  {
    if k.IntKey? {
      PrintedInt(k.n);
    }
  }

  lemma {:induction false} ValuePrinted(v: Value)
    ensures PrintedValue(v, Str(v))
  {
    if v.Number? {
      PrintedInt(v.number);
    }
  }

  lemma {:induction false} KeyFound(s: Store, v: Value)
    requires !v.List?
    ensures KeyOf(s, v).Some? && KeyFor(s, v, KeyOf(s, v).value)
  {
    if v.Failure? {
      NewErrorKey(s, v.message);
    }
  }

  // ---- What the commands do ----

  /** Does storing a new key push out the oldest entry? */
  predicate Full(s: Store, cap: Capacity, k: Key) { L.Lookup(s, k) == None && |s| >= cap }

  /** The keys whose eviction is logged. */
  predicate Logged(k: Key) { k != TextKey("") && k != NoneKey && k != IntKey(0) }

  /** `k` holds `v`, as the most recent entry; at most the oldest is gone for it. */
  ghost predicate Replaced(s: Store, cap: Capacity, k: Key, v: Value, s': Store) {
    && s' != [] && s'[|s'| - 1] == L.Entry(k, v)
    && forall j :: L.Lookup(s', j) ==
         if j == k then Some(v) else if Full(s, cap, k) && j == s[0].key then None else L.Lookup(s, j)
  }

  lemma {:induction false} SetReplaces(s: Store, cap: Capacity, k: Key, v: Value)
    requires L.Distinct(s)
    ensures Replaced(s, cap, k, v, L.Set(s, cap, k, v))
  {
    forall j ensures L.Lookup(L.Set(s, cap, k, v), j) ==
        if j == k then Some(v) else if Full(s, cap, k) && j == s[0].key then None else L.Lookup(s, j) {
      LookupSet(s, cap, k, v, j);
    }
  }

  /** `k` holds `v`; what is gone for it, and the SET, are logged, in this order. */
  ghost predicate Stored(s: Server, cap: Capacity, k: Key, v: Value, s': Server) {
    && Replaced(s.store, cap, k, v, s'.store)
    && exists key, value :: PrintedKey(k, key) && PrintedValue(v, value)
         && if Full(s.store, cap, k) && Logged(s.store[0].key) then
              exists gone :: PrintedKey(s.store[0].key, gone)
                && s'.records == s.records + [["DEL", gone], ["SET", key, value]]
            else s'.records == s.records + [["SET", key, value]]
  }

  lemma {:induction false} SetStores(s: Server, cap: Capacity, k: Key, v: Value)
    requires L.Distinct(s.store)
    ensures Stored(s, cap, k, v, OnSet(s, cap, k, v))
  {
    hide KeyStr, Str;
    var s' := OnSet(s, cap, k, v);
    KeyPrinted(k);
    ValuePrinted(v);
    SetReplaces(s.store, cap, k, v);
    if Full(s.store, cap, k) && Logged(s.store[0].key) {
      var gone := s.store[0].key;
      KeyPrinted(gone);
      var deleted, added := ["DEL", KeyStr(gone)], ["SET", KeyStr(k), Str(v)];
      assert [deleted] + [added] == [deleted, added];
    } else {
      assert s.records + [] == s.records;
    }
  }

  /** The action of a command, in any letter case. */
  predicate Action(items: seq<Value>, word: string) {
    items != [] && items[0].Reply? && SameLetters(items[0].text, word)
  }

  predicate Deletes(items: seq<Value>) { Action(items, "DEL") || Action(items, "DELETE") }

  lemma {:induction false} ActionIs(items: seq<Value>)
    requires items != [] && items[0].Reply?
    ensures var action := Upper(items[0].text);
      && (action == "SET" <==> Action(items, "SET")) && (action == "GET" <==> Action(items, "GET"))
      && (action == "DEL" <==> Action(items, "DEL")) && (action == "DELETE" <==> Action(items, "DELETE"))
      && (action == "QUIT" <==> Action(items, "QUIT"))
  {
    var text := items[0].text;
    UpperIs(text, "SET");
    UpperIs(text, "GET");
    UpperIs(text, "DEL");
    UpperIs(text, "DELETE");
    UpperIs(text, "QUIT");
  }

  /** The command is refused without a word, and the connection closed. */
  predicate Refused(s: Server, cap: Capacity, c: Command) {
    Execute(s, cap, c) == s && Answer(s, c) == "" && !Continues(s, c)
  }

  /** SET: stored and logged, answered with +OK; a list is no key. */
  lemma {:induction false} SetDoes(s: Server, cap: Capacity, items: seq<Value>)
    requires Action(items, "SET") && |items| >= 3 && L.Distinct(s.store)
    ensures var c := CommandOf(List(items));
      if items[1].List? then Refused(s, cap, c)
      else
        && Answer(s, c) == "+OK\r\n" && Continues(s, c)
        && exists k :: KeyFor(s.store, items[1], k) && Stored(s, cap, k, items[2], Execute(s, cap, c))
  {
    hide Upper, Stored, OnSet, KeyOf;
    ActionIs(items);
    if items[1].List? {
      NoListKey(s.store, items[1]);
    } else {
      KeyFound(s.store, items[1]);
      SetStores(s, cap, KeyOf(s.store, items[1]).value, items[2]);
    }
  }

  lemma {:induction false} NoListKey(s: Store, v: Value)
    requires v.List?
    ensures KeyOf(s, v) == None
  {
  }

  /** The key was read: its entry is the most recent, and nothing else changed. */
  ghost predicate Touched(s: Server, k: Key, s': Server) {
    && s'.records == s.records && (forall j :: L.Lookup(s'.store, j) == L.Lookup(s.store, j))
    && match L.Lookup(s.store, k)
       case None => s' == s
       case Some(v) => s'.store != [] && s'.store[|s'.store| - 1] == L.Entry(k, v)
  }

  /** The answer to a GET that finds `found`; None where there is none, and the connection is closed. */
  function GetAnswer(found: Option<Value>): Option<string> {
    match found
    case Some(Reply(text)) => Some("$" + PrintNat(|text|) + CRLF + text + CRLF)
    case Some(List(items)) => Some("$" + PrintNat(|items|) + CRLF + Str(List(items)) + CRLF)
    case Some(Number(_)) => None
    case Some(Failure(_)) => None
    case _ => Some("$-1\r\n")
  }

  lemma {:induction false} GetTouches(s: Server, k: Key)
    ensures Touched(s, k, s.(store := L.Get(s.store, k)))
  {
    forall j ensures L.Lookup(L.Get(s.store, k), j) == L.Lookup(s.store, j) {
      LookupGet(s.store, k, j);
    }
  }

  /** GET: answered by what is stored; the entry is now the most recent. */
  lemma {:induction false} GetDoes(s: Server, cap: Capacity, items: seq<Value>)
    requires Action(items, "GET") && |items| >= 2
    ensures var c := CommandOf(List(items));
      if items[1].List? then Refused(s, cap, c)
      else exists k ::
        && KeyFor(s.store, items[1], k) && Touched(s, k, Execute(s, cap, c))
        && match GetAnswer(L.Lookup(s.store, k))
           case Some(answer) => Answer(s, c) == answer && Continues(s, c)
           case None => Answer(s, c) == "" && !Continues(s, c)
  {
    hide Upper, Touched, KeyOf, Str, PrintNat, L.Get;
    ActionIs(items);
    if items[1].List? {
      NoListKey(s.store, items[1]);
    } else {
      KeyFound(s.store, items[1]);
      var k := KeyOf(s.store, items[1]).value;
      GetTouches(s, k);
      assert LookupValue(s.store, items[1]) == L.Lookup(s.store, k);
    }
  }

  ghost predicate Deleted(s: Server, k: Key, s': Server) {
    && (forall j :: L.Lookup(s'.store, j) == if j == k then None else L.Lookup(s.store, j))
    && if L.Lookup(s.store, k) == None then s' == s
       else exists key :: PrintedKey(k, key) && s'.records == s.records + [["DEL", key]]
  }

  lemma {:induction false} DelDeletes(s: Server, k: Key)
    ensures Deleted(s, k, OnDel(s, k))
  {
    hide KeyStr;
    KeyPrinted(k);
    forall j ensures L.Lookup(L.Without(s.store, k), j) == if j == k then None else L.Lookup(s.store, j) {
      LookupWithout(s.store, k, j);
    }
  }

  /** DEL or DELETE: the key is gone, which is logged and answered with 1 iff it was there. */
  lemma {:induction false} DelDoes(s: Server, cap: Capacity, items: seq<Value>)
    requires Deletes(items) && |items| >= 2
    ensures var c := CommandOf(List(items));
      if items[1].List? then Refused(s, cap, c)
      else exists k ::
        && KeyFor(s.store, items[1], k) && Deleted(s, k, Execute(s, cap, c)) && Continues(s, c)
        && Answer(s, c) == if L.Lookup(s.store, k).Some? then ":1\r\n" else ":0\r\n"
  {
    hide Upper, Deleted, KeyOf, OnDel;
    ActionIs(items);
    if items[1].List? {
      NoListKey(s.store, items[1]);
    } else {
      KeyFound(s.store, items[1]);
      var k := KeyOf(s.store, items[1]).value;
      DelDeletes(s, k);
      assert LookupValue(s.store, items[1]) == L.Lookup(s.store, k);
    }
  }

  /** QUIT, and everything that is no command: nothing changes; what is answered, and when the connection ends. */
  lemma {:induction false} OtherDoes(s: Server, cap: Capacity, v: Value)
    ensures var c := CommandOf(v);
      && (!v.List? || v.items == [] ==> Execute(s, cap, c) == s && Answer(s, c) == "" && Continues(s, c))
      && (v.List? && v.items != [] && !v.items[0].Reply? ==> Refused(s, cap, c))
      && (v.List? && v.items != [] && v.items[0].Reply? ==> Others(s, cap, v.items, c))
  {
    hide CommandOf, KeyOf, OnSet, OnDel, LookupValue, Action, Deletes, Complains;
    Complaints(s, cap);
    if !v.List? || v.items == [] || !v.items[0].Reply? {
      assert CommandOf(v) == if !v.List? || v.items == [] then Ignored else Malformed by { NoCommand(v); }
    } else {
      OtherCommand(v.items);
    }
  }

  lemma {:induction false} Complaints(s: Server, cap: Capacity)
    ensures Complains(s, cap, Missing("missing arguments"), "ERR missing arguments")
    ensures Complains(s, cap, Missing("missing key parameter"), "ERR missing key parameter")
    ensures Complains(s, cap, Unknown, "ERR unknown command syntax")
  {
    hide Complains;
    MissingComplains(s, cap, "missing arguments");
    MissingComplains(s, cap, "missing key parameter");
    ErrorTexts();
    UnknownComplains(s, cap);
  }

  lemma {:induction false} ErrorTexts()
    ensures "ERR " + "missing arguments" == "ERR missing arguments"
    ensures "ERR " + "missing key parameter" == "ERR missing key parameter"
  {
  }

  lemma {:induction false} UnknownComplains(s: Server, cap: Capacity)
    ensures Complains(s, cap, Unknown, "ERR unknown command syntax")
  {
    assert "-" + "ERR unknown command syntax" + CRLF == "-ERR unknown command syntax\r\n";
  }

  lemma {:induction false} MissingComplains(s: Server, cap: Capacity, m: string)
    ensures Complains(s, cap, Missing(m), "ERR " + m)
  {
    assert "-ERR " + m + CRLF == "-" + ("ERR " + m) + CRLF;
  }

  lemma {:induction false} NoCommand(v: Value)
    requires !v.List? || v.items == [] || !v.items[0].Reply?
    ensures CommandOf(v) == if !v.List? || v.items == [] then Ignored else Malformed
  {
  }

  lemma {:induction false} OtherCommand(items: seq<Value>)
    requires items != [] && items[0].Reply?
    ensures var c := CommandOf(List(items));
      if Action(items, "QUIT") then c == Quit
      else if Action(items, "SET") then |items| < 3 ==> c == Missing("missing arguments")
      else if Action(items, "GET") || Deletes(items) then |items| < 2 ==> c == Missing("missing key parameter")
      else c == Unknown
  {
    hide Upper;
    ActionIs(items);
    assert "QUIT"[0] == 'Q';
  }

  predicate Others(s: Server, cap: Capacity, items: seq<Value>, c: Command) {
    if Action(items, "QUIT") then Execute(s, cap, c) == s && Answer(s, c) == "+OK\r\n" && !Continues(s, c)
    else if Action(items, "SET") then |items| < 3 ==> Complains(s, cap, c, "ERR missing arguments")
    else if Action(items, "GET") || Deletes(items) then
      |items| < 2 ==> Complains(s, cap, c, "ERR missing key parameter")
    else Complains(s, cap, c, "ERR unknown command syntax")
  }

  predicate Complains(s: Server, cap: Capacity, c: Command, message: string) {
    Execute(s, cap, c) == s && Answer(s, c) == "-" + message + CRLF && Continues(s, c)
  }

  // ---- Replay ----

  /** What one record does when it is replayed, whatever it holds; the log is left alone. */
  lemma {:induction false} ReplayDoes(store: Store, cap: Capacity, v: Value)
    requires L.Distinct(store)
    ensures var r := ReplayValue(store, cap, v);
      if !v.List? || |v.items| < 2 then r == Some(store)
      else if !v.items[0].Reply? then r == None
      else if Action(v.items, "SET") && |v.items| >= 3 then
        if v.items[1].List? then r == None
        else exists k :: KeyFor(store, v.items[1], k) && r.Some? && Replaced(store, cap, k, v.items[2], r.value)
      else if Deletes(v.items) then
        if v.items[1].List? then r == None
        else exists k ::
          && KeyFor(store, v.items[1], k) && r.Some?
          && forall j :: L.Lookup(r.value, j) == if j == k then None else L.Lookup(store, j)
      else r == Some(store)
  {
    hide Upper, KeyOf, L.Set, L.Without;
    if v.List? && |v.items| >= 2 && v.items[0].Reply? {
      ActionIs(v.items);
      if v.items[1].List? {
        NoListKey(store, v.items[1]);
      } else {
        KeyFound(store, v.items[1]);
        var k := KeyOf(store, v.items[1]).value;
        forall j ensures L.Lookup(L.Without(store, k), j) == if j == k then None else L.Lookup(store, j) {
          LookupWithout(store, k, j);
        }
        if |v.items| >= 3 {
          SetReplaces(store, cap, k, v.items[2]);
        }
      }
    }
  }

  // ---- Over the wire ----

  ghost predicate AreChunks(chunks: seq<string>, text: string) {
    Join(chunks) == text && forall i :: 0 <= i < |chunks| ==> chunks[i] != ""
  }

  /** A printed SET, answered in any chunks: text under a text key is stored, and the client gets OK. */
  lemma {:induction false} SetOverTheWire(s: Server, cap: Capacity, args: seq<string>, chunks: seq<string>)
    requires AllAscii(args) && |args| >= 3 && SameLetters(args[0], "SET") && L.Distinct(s.store)
    requires AreChunks(chunks, Serve(s, cap, Print(args), "").output)
    ensures var r := Serve(s, cap, Print(args), "");
      && Stored(s, cap, TextKey(args[1]), Reply(args[2]), r.server) && r.open && r.rest == ""
      && Receive("", chunks) == Got(Reply("OK"))
  {
    hide Serve, Receive, Stored, CommandOf, Execute, Answer, Continues;
    ServePrinted(s, cap, args);
    SetDoes(s, cap, Texts(args));
    OkReceived(chunks);
  }

  /** A printed GET: the client gets the text stored, or None where nothing or None is. */
  lemma {:induction false} GetOverTheWire(s: Server, cap: Capacity, args: seq<string>, chunks: seq<string>)
    requires AllAscii(args) && |args| >= 2 && SameLetters(args[0], "GET")
    requires AreChunks(chunks, Serve(s, cap, Print(args), "").output)
    ensures var r, stored := Serve(s, cap, Print(args), ""), L.Lookup(s.store, TextKey(args[1]));
      && Touched(s, TextKey(args[1]), r.server)
      && (stored == None || stored == Some(Null) ==> Receive("", chunks) == Got(Null))
      && (stored.Some? && stored.value.Reply? && Ascii(stored.value.text) ==> Receive("", chunks) == Got(stored.value))
  {
    hide Serve, Receive, Touched, CommandOf, Execute, Answer, Continues;
    ServePrinted(s, cap, args);
    GetDoes(s, cap, Texts(args));
    var stored := L.Lookup(s.store, TextKey(args[1]));
    if stored == None || stored == Some(Null) {
      MissReceived(chunks);
    } else if stored.value.Reply? && Ascii(stored.value.text) {
      HitReceived(stored.value.text, chunks);
    }
  }

  /** A printed DEL or DELETE: the key is gone, and the client gets 1 iff it was there, else 0. */
  lemma {:induction false} DelOverTheWire(s: Server, cap: Capacity, args: seq<string>, chunks: seq<string>)
    requires AllAscii(args) && |args| >= 2 && (SameLetters(args[0], "DEL") || SameLetters(args[0], "DELETE"))
    requires AreChunks(chunks, Serve(s, cap, Print(args), "").output)
    ensures var r, k := Serve(s, cap, Print(args), ""), TextKey(args[1]);
      && Deleted(s, k, r.server) && r.open && r.rest == ""
      && Receive("", chunks) == Got(Number(if L.Lookup(s.store, k).Some? then 1 else 0))
  {
    hide Serve, Receive, Deleted, CommandOf, Execute, Answer, Continues;
    ServePrinted(s, cap, args);
    DelDoes(s, cap, Texts(args));
    CountReceived(if L.Lookup(s.store, TextKey(args[1])).Some? then 1 else 0, chunks);
  }

  lemma {:induction false} CountReceived(n: nat, chunks: seq<string>)
    requires n <= 1 && AreChunks(chunks, if n == 1 then ":1\r\n" else ":0\r\n")
    ensures Receive("", chunks) == Got(Number(n))
  {
    hide Receive;
    IntRoundTrip(n);
    assert PrintNat(n) == [DigitChar(n)];
    assert [':'] + [DigitChar(n)] + CRLF == if n == 1 then ":1\r\n" else ":0\r\n";
    LineReceived(':', PrintNat(n), Number(n), chunks);
  }

  lemma {:induction false} OkReceived(chunks: seq<string>)
    requires AreChunks(chunks, "+OK\r\n")
    ensures Receive("", chunks) == Got(Reply("OK"))
  {
    hide Receive;
    assert "+OK\r\n" == ['+'] + "OK" + CRLF;
    LineReceived('+', "OK", Reply("OK"), chunks);
  }

  /** The action of a printed command is its first word. */
  lemma {:induction false} ActionPrinted(args: seq<string>, word: string)
    requires args != []
    ensures Action(Texts(args), word) <==> SameLetters(args[0], word)
  {
    hide SameLetters;
  }

  lemma {:induction false} ActionsPrinted(args: seq<string>)
    requires args != []
    ensures Action(Texts(args), "SET") <==> SameLetters(args[0], "SET")
    ensures Action(Texts(args), "GET") <==> SameLetters(args[0], "GET")
    ensures Action(Texts(args), "QUIT") <==> SameLetters(args[0], "QUIT")
    ensures Deletes(Texts(args)) <==> SameLetters(args[0], "DEL") || SameLetters(args[0], "DELETE")
  {
    hide SameLetters, Action;
    ActionPrinted(args, "SET");
    ActionPrinted(args, "GET");
    ActionPrinted(args, "QUIT");
    ActionPrinted(args, "DEL");
    ActionPrinted(args, "DELETE");
  }

  lemma {:induction false} OtherPrinted(s: Server, cap: Capacity, args: seq<string>)
    requires args != []
    ensures Others(s, cap, Texts(args), CommandOf(List(Texts(args))))
  {
    hide Others, CommandOf, Execute, Answer, Continues;
    OtherDoes(s, cap, List(Texts(args)));
  }

  /** A printed QUIT ends the connection, with OK. */
  lemma {:induction false} QuitOverTheWire(s: Server, cap: Capacity, args: seq<string>, chunks: seq<string>)
    requires AllAscii(args) && args != [] && SameLetters(args[0], "QUIT")
    requires AreChunks(chunks, Serve(s, cap, Print(args), "").output)
    ensures var r := Serve(s, cap, Print(args), "");
      r.server == s && !r.open && Receive("", chunks) == Got(Reply("OK"))
  {
    hide Serve, Receive, CommandOf, Execute, Answer, Continues, SameLetters, Action, Deletes;
    ServePrinted(s, cap, args);
    ActionsPrinted(args);
    OtherPrinted(s, cap, args);
    OkReceived(chunks);
  }

  lemma {:induction false} ErrorReceived(message: string, chunks: seq<string>)
    requires '\r' !in message && AreChunks(chunks, "-" + message + CRLF)
    ensures Receive("", chunks) == Got(Failure(message))
  {
    hide Receive;
    assert "-" + message + CRLF == ['-'] + message + CRLF;
    LineReceived('-', message, Failure(message), chunks);
  }

  lemma {:induction false} ComplaintReceived(s: Server, cap: Capacity, args: seq<string>, message: string,
                                             chunks: seq<string>)
    requires AllAscii(args) && '\r' !in message && AreChunks(chunks, Serve(s, cap, Print(args), "").output)
    requires Complains(s, cap, CommandOf(List(Texts(args))), message)
    ensures var r := Serve(s, cap, Print(args), "");
      r.server == s && r.open && r.rest == "" && Receive("", chunks) == Got(Failure(message))
  {
    hide Serve, Receive, CommandOf, Execute, Answer, Continues;
    ServePrinted(s, cap, args);
    ErrorReceived(message, chunks);
  }

  lemma {:induction false} PlainMessages()
    ensures '\r' !in "ERR missing arguments" && '\r' !in "ERR missing key parameter"
    ensures '\r' !in "ERR unknown command syntax"
  {
  }

  /** A printed command that lacks an argument earns an error, and no more. */
  lemma {:induction false} ShortOverTheWire(s: Server, cap: Capacity, args: seq<string>, chunks: seq<string>)
    requires AllAscii(args) && args != []
    requires var key := SameLetters(args[0], "GET") || SameLetters(args[0], "DEL") || SameLetters(args[0], "DELETE");
      (SameLetters(args[0], "SET") && |args| < 3) || (key && |args| < 2)
    requires AreChunks(chunks, Serve(s, cap, Print(args), "").output)
    ensures var r := Serve(s, cap, Print(args), "");
      && r.server == s && r.open && r.rest == ""
      && Receive("", chunks) == Got(Failure(
           if SameLetters(args[0], "SET") then "ERR missing arguments" else "ERR missing key parameter"))
  {
    hide Serve, Receive, CommandOf, SameLetters, Action, Deletes, Complains;
    if SameLetters(args[0], "QUIT") {
      QuitIsOther(args[0]);
    }
    PlainMessages();
    ActionsPrinted(args);
    OtherPrinted(s, cap, args);
    var message := if SameLetters(args[0], "SET") then "ERR missing arguments" else "ERR missing key parameter";
    ComplaintReceived(s, cap, args, message, chunks);
  }

  lemma {:induction false} QuitIsOther(text: string)
    requires SameLetters(text, "QUIT")
    ensures !SameLetters(text, "SET") && !SameLetters(text, "GET") && !SameLetters(text, "DEL")
    ensures !SameLetters(text, "DELETE")
  {
  }

  /** So does a printed command of any other name. */
  lemma {:induction false} UnknownOverTheWire(s: Server, cap: Capacity, args: seq<string>, chunks: seq<string>)
    requires AllAscii(args) && args != []
    requires !SameLetters(args[0], "SET") && !SameLetters(args[0], "GET") && !SameLetters(args[0], "QUIT")
    requires !SameLetters(args[0], "DEL") && !SameLetters(args[0], "DELETE")
    requires AreChunks(chunks, Serve(s, cap, Print(args), "").output)
    ensures var r := Serve(s, cap, Print(args), "");
      && r.server == s && r.open && r.rest == ""
      && Receive("", chunks) == Got(Failure("ERR unknown command syntax"))
  {
    hide Serve, Receive, CommandOf, SameLetters, Action, Deletes, Complains;
    PlainMessages();
    ActionsPrinted(args);
    OtherPrinted(s, cap, args);
    ComplaintReceived(s, cap, args, "ERR unknown command syntax", chunks);
  }

  // ---- In every run ----

  lemma {:induction false} ReplayDistinct(store: Store, cap: Capacity, buffer: string)
    requires L.Distinct(store) && |store| <= cap
    ensures Replay(store, cap, buffer).Some? ==>
      L.Distinct(Replay(store, cap, buffer).value) && |Replay(store, cap, buffer).value| <= cap
    decreases |buffer|
  {
    hide Parse, Upper, KeyOf;
    match Parse(buffer)
    case Raised =>
    case Parsed(value, rest) =>
      if value != Null {
        ReplayedDistinct(store, cap, value);
        if ReplayValue(store, cap, value).Some? {
          ReplayDistinct(ReplayValue(store, cap, value).value, cap, rest);
        }
      }
  }

  lemma {:induction false} ReplayedDistinct(store: Store, cap: Capacity, value: Value)
    requires L.Distinct(store) && |store| <= cap
    ensures var r := ReplayValue(store, cap, value); r.Some? ==> L.Distinct(r.value) && |r.value| <= cap
  {
    hide Upper, KeyOf, L.Set, L.Without;
    if value.List? && |value.items| >= 2 && KeyOf(store, value.items[1]).Some? {
      var k := KeyOf(store, value.items[1]).value;
      L.WithoutDistinct(store, k);
      if |value.items| >= 3 {
        L.SetSpec(store, cap, k, value.items[2]);
      }
    }
  }

  /** In every run of any commands and restarts the keys are distinct, and no more than the capacity. */
  lemma {:induction false} AlwaysDistinct(cap: Capacity, events: seq<Event>)
    ensures L.Distinct(Run(cap, events).store) && |Run(cap, events).store| <= cap
    decreases |events|
  {
    hide Replay, KeyOf, L.Set, L.Get, L.Without, L.Lookup;
    if events != [] {
      var s := Run(cap, events[..|events| - 1]);
      AlwaysDistinct(cap, events[..|events| - 1]);
      match events[|events| - 1]
      case Restart => ReplayDistinct([], cap, s.Log());
      case Do(Set(key, v)) =>
        if KeyOf(s.store, key).Some? {
          L.SetSpec(s.store, cap, KeyOf(s.store, key).value, v);
        }
      case Do(Get(key)) =>
        if KeyOf(s.store, key).Some? {
          L.GetSpec(s.store, KeyOf(s.store, key).value);
        }
      case Do(Del(key)) =>
        if KeyOf(s.store, key).Some? {
          L.WithoutDistinct(s.store, KeyOf(s.store, key).value);
        }
      case _ =>
    }
  }
}
