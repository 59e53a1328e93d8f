/**
 What the log of the cache server is for: replaying it rebuilds the live contents, as far as text
 can say them.
 */
module LruRecovery {
  import opened Wrappers
  import opened Text
  import opened Resp
  import opened PyStr
  import opened LruCache
  import L = LruStore

  /** Same keys with the same values, in whatever order. */
  ghost predicate SameMap(a: Store, b: Store) {
    forall k :: L.Lookup(a, k) == L.Lookup(b, k)
  }

  // ---- How the operations change the map ----

  lemma {:induction false} LookupWithout(s: Store, k: Key, j: Key)
    ensures L.Lookup(L.Without(s, k), j) == if j == k then None else L.Lookup(s, j)
  {
    if s != [] {
      LookupWithout(s[1..], k, j);
      if s[0].key != k {
        assert ([s[0]] + L.Without(s[1..], k))[1..] == L.Without(s[1..], k);
      }
    }
  }

  lemma {:induction false} LookupAppend(s: Store, e: L.Entry<Key, Value>, j: Key)
    ensures L.Lookup(s + [e], j) ==
      if L.Lookup(s, j).Some? then L.Lookup(s, j) else if j == e.key then Some(e.value) else None
  {
    if s != [] {
      LookupAppend(s[1..], e, j);
      assert (s + [e])[1..] == s[1..] + [e];
    }
  }

  lemma {:induction false} LookupSet(s: Store, cap: Capacity, k: Key, v: Value, j: Key)
    requires L.Distinct(s)
    ensures L.Lookup(L.Set(s, cap, k, v), j) ==
      if j == k then Some(v) else if L.Evicted(s, cap, k) == Some(j) then None else L.Lookup(s, j)
  {
    LookupWithout(s, k, j);
    var e := L.Entry(k, v);
    LookupAppend(L.Without(s, k), e, j);
    LookupAppend(s, e, j);
    if s != [] {
      LookupAppend(s[1..], e, j);
      L.HeadDistinct(s);
      L.LookupSpec(s[1..], s[0].key);
    }
  }

  lemma {:induction false} LookupGet(s: Store, k: Key, j: Key)
    ensures L.Lookup(L.Get(s, k), j) == L.Lookup(s, j)
  {
    if L.Lookup(s, k).Some? {
      LookupWithout(s, k, j);
      LookupAppend(L.Without(s, k), L.Entry(k, L.Lookup(s, k).value), j);
    }
  }

  lemma {:induction false} SizeIsKeyCount(s: Store)
    requires L.Distinct(s)
    ensures |s| == |L.Keys(s)|
  {
    if s != [] {
      L.HeadDistinct(s);
      SizeIsKeyCount(s[1..]);
    }
  }

  lemma {:induction false} SameMapSameKeys(a: Store, b: Store)
    requires SameMap(a, b) && L.Distinct(a) && L.Distinct(b)
    ensures L.Keys(a) == L.Keys(b) && |a| == |b|
  {
    forall k ensures k in L.Keys(a) <==> k in L.Keys(b) {
      L.LookupSpec(a, k);
      L.LookupSpec(b, k);
    }
    SizeIsKeyCount(a);
    SizeIsKeyCount(b);
  }

  // ---- A store as the log can say it ----

  /** Every value as text. */
  function AsText(s: Store): Store {
    if s == [] then [] else [L.Entry(s[0].key, Reply(Str(s[0].value)))] + AsText(s[1..])
  }

  predicate AllText(s: Store) { forall e :: e in s ==> e.value.Reply? }

  function TextOf(v: Option<Value>): Option<Value> { if v.Some? then Some(Reply(Str(v.value))) else None }

  lemma {:induction false} AsTextSpec(s: Store, k: Key)
    ensures L.Lookup(AsText(s), k) == TextOf(L.Lookup(s, k))
    ensures L.Keys(AsText(s)) == L.Keys(s) && |AsText(s)| == |s|
    ensures AllText(s) ==> AsText(s) == s
  {
    if s != [] {
      AsTextSpec(s[1..], k);
      assert s == [s[0]] + s[1..];
      assert L.Keys(s) == {s[0].key} + L.Keys(s[1..]);
      assert L.Keys(AsText(s)) == {s[0].key} + L.Keys(AsText(s[1..]));
    }
  }

  lemma {:induction false} AsTextDistinct(s: Store)
    requires L.Distinct(s)
    ensures L.Distinct(AsText(s))
  {
    if s != [] {
      L.HeadDistinct(s);
      AsTextDistinct(s[1..]);
      AsTextSpec(s[1..], s[0].key);
      L.PrependDistinct(L.Entry(s[0].key, Reply(Str(s[0].value))), AsText(s[1..]));
    }
  }

  lemma {:induction false} AsTextWithout(s: Store, k: Key)
    ensures AsText(L.Without(s, k)) == L.Without(AsText(s), k)
  {
    if s != [] {
      AsTextWithout(s[1..], k);
      if s[0].key != k {
        assert ([s[0]] + L.Without(s[1..], k))[1..] == L.Without(s[1..], k);
      }
    }
  }

  lemma {:induction false} AsTextAppend(s: Store, k: Key, v: Value)
    ensures AsText(s + [L.Entry(k, v)]) == AsText(s) + [L.Entry(k, Reply(Str(v)))]
  {
    if s != [] {
      AsTextAppend(s[1..], k, v);
      assert (s + [L.Entry(k, v)])[1..] == s[1..] + [L.Entry(k, v)];
    }
  }

  lemma {:induction false} AsTextSet(s: Store, cap: Capacity, k: Key, v: Value)
    ensures AsText(L.Set(s, cap, k, v)) == L.Set(AsText(s), cap, k, Reply(Str(v)))
    ensures L.Evicted(AsText(s), cap, k) == L.Evicted(s, cap, k)
  {
    AsTextSpec(s, k);
    AsTextWithout(s, k);
    AsTextAppend(L.Without(s, k), k, v);
    AsTextAppend(s, k, v);
    if s != [] {
      AsTextAppend(s[1..], k, v);
    }
  }

  /** Only text survives the way through the log unchanged. */
  lemma {:induction false} TextIffSame(s: Store)
    requires L.Distinct(s)
    ensures SameMap(AsText(s), s) <==> AllText(s)
  {
    if AllText(s) {
      AsTextSpec(s, NoneKey);
    } else {
      var i :| 0 <= i < |s| && !s[i].value.Reply?;
      L.LookupSpec(s, s[i].key);
      AsTextSpec(s, s[i].key);
    }
  }

  // ---- Replaying text is replaying records ----

  predicate AsciiRecords(records: seq<seq<string>>) {
    forall i :: 0 <= i < |records| ==> AllAscii(records[i])
  }

  /** No record is an empty array. */
  predicate Replayable(records: seq<seq<string>>) {
    forall i :: 0 <= i < |records| ==> |records[i]| > 0
  }

  lemma {:induction false} ReplayOfTexts(store: Store, cap: Capacity, args: seq<string>)
    requires |args| > 0
    ensures ReplayValue(store, cap, List(Texts(args))).Some?
  {
  }

  lemma {:induction false} ReplayText(cap: Capacity, records: seq<seq<string>>, tail: string)
    requires AsciiRecords(records) && Replayable(records)
    ensures Replay([], cap, PrintAll(records) + tail) == Replay(Replayed(cap, records), cap, tail)
    decreases |records|
  {
    if records == [] {
      assert PrintAll(records) + tail == tail;
    } else {
      var init, last := records[..|records| - 1], records[|records| - 1];
      assert PrintAll(records) + tail == PrintAll(init) + (Print(last) + tail);
      ReplayText(cap, init, Print(last) + tail);
      ReplayPrinted(Replayed(cap, init), cap, last, tail);
    }
  }

  lemma {:induction false} ReplayPrinted(store: Store, cap: Capacity, args: seq<string>, tail: string)
    requires AllAscii(args) && |args| > 0
    ensures ReplayValue(store, cap, List(Texts(args))).Some?
    ensures Replay(store, cap, Print(args) + tail)
            == Replay(ReplayValue(store, cap, List(Texts(args))).value, cap, tail)
  {
    hide Print;
    ReplayOfTexts(store, cap, args);
    CommandRoundTrip(args, tail);
  }

  lemma {:induction false} ReplayWholeLog(cap: Capacity, records: seq<seq<string>>)
    requires AsciiRecords(records) && Replayable(records)
    ensures Replay([], cap, PrintAll(records)) == Some(Replayed(cap, records))
  {
    ReplayText(cap, records, "");
    assert PrintAll(records) + "" == PrintAll(records);
    assert Parse("") == Parsed(Null, "");
  }

  lemma {:induction false} ReplayedSet(cap: Capacity, records: seq<seq<string>>, k: string, v: string)
    ensures Replayed(cap, records + [["SET", k, v]]) == L.Set(Replayed(cap, records), cap, TextKey(k), Reply(v))
  {
    ReplayedLast(cap, records, ["SET", k, v]);
    assert Upper("SET") == "SET";
  }

  lemma {:induction false} ReplayedDel(cap: Capacity, records: seq<seq<string>>, k: string)
    ensures Replayed(cap, records + [["DEL", k]]) == L.Without(Replayed(cap, records), TextKey(k))
  {
    ReplayedLast(cap, records, ["DEL", k]);
    assert Upper("DEL") == "DEL";
  }

  lemma {:induction false} ReplayedLast(cap: Capacity, records: seq<seq<string>>, args: seq<string>)
    requires |args| > 0
    ensures ReplayValue(Replayed(cap, records), cap, List(Texts(args))) == Some(Replayed(cap, records + [args]))
  {
    assert (records + [args])[..|records|] == records;
    ReplayOfTexts(Replayed(cap, records), cap, args);
  }

  /** Whatever the records, the replayed store has distinct keys, within the capacity, and holds text only. */
  lemma {:induction false} ReplayedSpec(cap: Capacity, records: seq<seq<string>>)
    ensures var r := Replayed(cap, records);
      && L.Distinct(r) && |r| <= cap && AllText(r) && forall e :: e in r ==> e.key.TextKey?
    decreases |records|
  {
    if records != [] {
      var last := |records| - 1;
      ReplayedSpec(cap, records[..last]);
      ReplayedTextStep(Replayed(cap, records[..last]), cap, records[last]);
    }
  }

  lemma {:induction false} ReplayedTextStep(r: Store, cap: Capacity, args: seq<string>)
    requires L.Distinct(r) && |r| <= cap && AllText(r) && forall e :: e in r ==> e.key.TextKey?
    ensures match ReplayValue(r, cap, List(Texts(args)))
      case None => true
      case Some(r') => L.Distinct(r') && |r'| <= cap && AllText(r') && forall e :: e in r' ==> e.key.TextKey?
  {
    hide Upper;
    if |args| >= 2 {
      var k := TextKey(args[1]);
      L.WithoutSpec(r, k);
      L.WithoutDistinct(r, k);
      if |args| >= 3 {
        L.SetSpec(r, cap, k, Reply(args[2]));
        SetMembers(r, cap, k, Reply(args[2]));
      }
    }
  }

  lemma {:induction false} SetMembers(s: Store, cap: Capacity, k: Key, v: Value)
    ensures forall e :: e in L.Set(s, cap, k, v) ==> e in s || e == L.Entry(k, v)
  {
    L.WithoutSpec(s, k);
  }

  // ---- Runs with restarts ----

  datatype Event = Do(command: Command) | Restart

  /** A restart starts from the empty store and replays the log. */
  function Step(s: Server, cap: Capacity, e: Event): Server {
    match e
    case Do(c) => Execute(s, cap, c)
    case Restart =>
      match Replay([], cap, s.Log())
      case Some(store) => s.(store := store)
      case None => s.(store := [])
  }

  function Run(cap: Capacity, events: seq<Event>): Server {
    if events == [] then Server([], []) else Step(Run(cap, events[..|events| - 1]), cap, events[|events| - 1])
  }

  /**
   Every SET is under a non-empty key of ASCII text; a list as a key is refused anyway. Values may
   be anything ASCII.
   */
  predicate TextKeyed(e: Event) {
    e.Do? && e.command.Set? && !e.command.key.List? ==>
      && e.command.key.Reply? && Ascii(e.command.key.text) && e.command.key.text != ""
      && AsciiValue(e.command.value)
  }

  predicate PlainKeys(s: Store) {
    forall e :: e in s ==> e.key.TextKey? && Ascii(e.key.text) && e.key.text != "" && AsciiValue(e.value)
  }

  /**
   What every such run keeps: the log stands for the text of the live map, and replays alike under
   any larger capacity.
   */
  ghost predicate Recoverable(s: Server, cap: Capacity) {
    && L.Distinct(s.store) && |s.store| <= cap && PlainKeys(s.store)
    && AsciiRecords(s.records) && Replayable(s.records)
    && SameMap(Replayed(cap, s.records), AsText(s.store))
    && forall larger: Capacity :: larger >= cap ==> Replayed(larger, s.records) == Replayed(cap, s.records)
  }

  /** Logging a SET after the DEL of what it evicted: the replayed store makes the same change without evicting. */
  lemma {:induction false} LoggedSet(s: Server, cap: Capacity, k: Key, larger: Capacity)
    requires Recoverable(s, cap) && larger >= cap
    ensures var gone := EvictionRecord(L.Evicted(s.store, cap, k));
      var before := Replayed(larger, s.records + gone);
      && L.Evicted(before, cap, k) == None && L.Evicted(before, larger, k) == None
      && (forall j :: L.Lookup(before, j) ==
            if L.Evicted(s.store, cap, k) == Some(j) then None else L.Lookup(AsText(s.store), j))
      && before == Replayed(cap, s.records + gone)
  {
    var r := Replayed(cap, s.records);
    AsTextSpec(s.store, k);
    AsTextDistinct(s.store);
    ReplayedSpec(cap, s.records);
    SameMapSameKeys(r, AsText(s.store));
    match L.Evicted(s.store, cap, k)
    case None =>
      assert s.records + [] == s.records;
    case Some(x) =>
      assert s.store[0] in s.store;
      ReplayedDel(cap, s.records, x.text);
      ReplayedDel(larger, s.records, x.text);
      L.WithoutDistinct(r, x);
      AsTextSpec(s.store, x);
      L.LookupSpec(s.store, x);
      L.LookupSpec(r, x);
      forall j ensures L.Lookup(L.Without(r, x), j) == if j == x then None else L.Lookup(AsText(s.store), j) {
        LookupWithout(r, x, j);
      }
  }

  lemma {:induction false} StepSet(s: Server, cap: Capacity, k: Key, v: Value)
    requires Recoverable(s, cap) && k.TextKey? && Ascii(k.text) && k.text != "" && AsciiValue(v)
    ensures Recoverable(OnSet(s, cap, k, v), cap)
  {
    var s' := OnSet(s, cap, k, v);
    L.SetSpec(s.store, cap, k, v);
    SetMembers(s.store, cap, k, v);
    StrAscii(v);
    SetRecords(s, cap, k, v);
    StepSetReplay(s, cap, k, v, cap);
    forall larger: Capacity | larger >= cap ensures Replayed(larger, s'.records) == Replayed(cap, s'.records) {
      StepSetReplay(s, cap, k, v, larger);
    }
  }

  lemma {:induction false} SetRecords(s: Server, cap: Capacity, k: Key, v: Value)
    requires AsciiRecords(s.records) && Replayable(s.records) && Ascii(KeyStr(k)) && Ascii(Str(v))
    requires forall e :: e in s.store ==> Ascii(KeyStr(e.key))
    ensures AsciiRecords(OnSet(s, cap, k, v).records) && Replayable(OnSet(s, cap, k, v).records)
  {
    hide Str, KeyStr;
    assert s.store != [] ==> s.store[0] in s.store;
    var added := EvictionRecord(L.Evicted(s.store, cap, k)) + [["SET", KeyStr(k), Str(v)]];
    assert AsciiRecords(added) && Replayable(added);
    assert OnSet(s, cap, k, v).records == s.records + added;
  }

  lemma {:induction false} StepSetReplay(s: Server, cap: Capacity, k: Key, v: Value, larger: Capacity)
    requires Recoverable(s, cap) && larger >= cap && k.TextKey?
    ensures var s' := OnSet(s, cap, k, v);
      && Replayed(larger, s'.records) == Replayed(cap, s'.records)
      && SameMap(Replayed(cap, s'.records), AsText(s'.store))
  {
    hide Str;
    var s' := OnSet(s, cap, k, v);
    var gone := EvictionRecord(L.Evicted(s.store, cap, k));
    var before := Replayed(cap, s.records + gone);
    LoggedSet(s, cap, k, cap);
    LoggedSet(s, cap, k, larger);
    ReplayedSet(cap, s.records + gone, k.text, Str(v));
    ReplayedSet(larger, s.records + gone, k.text, Str(v));
    ReplayedSpec(cap, s.records + gone);
    AsTextSet(s.store, cap, k, v);
    AsTextDistinct(s.store);
    forall j ensures L.Lookup(Replayed(cap, s'.records), j) == L.Lookup(AsText(s'.store), j) {
      LookupSet(before, cap, k, Reply(Str(v)), j);
      LookupSet(AsText(s.store), cap, k, Reply(Str(v)), j);
    }
  }

  lemma {:induction false} StepGet(s: Server, cap: Capacity, k: Key)
    requires Recoverable(s, cap)
    ensures Recoverable(s.(store := L.Get(s.store, k)), cap)
  {
    L.GetSpec(s.store, k);
    forall j ensures L.Lookup(AsText(L.Get(s.store, k)), j) == L.Lookup(AsText(s.store), j) {
      AsTextSpec(s.store, j);
      AsTextSpec(L.Get(s.store, k), j);
      LookupGet(s.store, k, j);
    }
    L.WithoutSpec(s.store, k);
    L.LookupMember(s.store, k);
  }

  lemma {:induction false} StepDel(s: Server, cap: Capacity, k: Key)
    requires Recoverable(s, cap)
    ensures Recoverable(OnDel(s, k), cap)
  {
    if L.Lookup(s.store, k).Some? {
      L.LookupMember(s.store, k);
      L.WithoutSpec(s.store, k);
      L.WithoutDistinct(s.store, k);
      StepDelReplay(s, cap, k);
    }
  }

  lemma {:induction false} StepDelReplay(s: Server, cap: Capacity, k: Key)
    requires Recoverable(s, cap) && k.TextKey?
    ensures var records := s.records + [["DEL", k.text]];
      && SameMap(Replayed(cap, records), AsText(L.Without(s.store, k)))
      && forall larger: Capacity :: larger >= cap ==> Replayed(larger, records) == Replayed(cap, records)
  {
    var records := s.records + [["DEL", k.text]];
    ReplayedDel(cap, s.records, k.text);
    AsTextWithout(s.store, k);
    forall j ensures L.Lookup(Replayed(cap, records), j) == L.Lookup(AsText(L.Without(s.store, k)), j) {
      LookupWithout(AsText(s.store), k, j);
      LookupWithout(Replayed(cap, s.records), k, j);
    }
    forall larger: Capacity | larger >= cap ensures Replayed(larger, records) == Replayed(cap, records) {
      ReplayedDel(larger, s.records, k.text);
    }
  }

  lemma {:induction false} StepRestart(s: Server, cap: Capacity)
    requires Recoverable(s, cap)
    ensures Recoverable(Step(s, cap, Restart), cap)
  {
    var r := Replayed(cap, s.records);
    ReplayWholeLog(cap, s.records);
    ReplayedSpec(cap, s.records);
    AsTextSpec(r, NoneKey);
    forall e | e in r ensures e.key.TextKey? && Ascii(e.key.text) && e.key.text != "" && AsciiValue(e.value) {
      RestartedEntry(s, cap, e);
    }
  }

  lemma {:induction false} RestartedEntry(s: Server, cap: Capacity, e: L.Entry<Key, Value>)
    requires Recoverable(s, cap) && e in Replayed(cap, s.records)
    ensures e.key.TextKey? && Ascii(e.key.text) && e.key.text != "" && AsciiValue(e.value)
  {
    var r := Replayed(cap, s.records);
    ReplayedSpec(cap, s.records);
    var i :| 0 <= i < |r| && r[i] == e;
    L.LookupSpec(r, e.key);
    AsTextSpec(s.store, e.key);
    assert L.Lookup(r, e.key) == L.Lookup(AsText(s.store), e.key);
    L.LookupMember(s.store, e.key);
    StrAscii(L.Lookup(s.store, e.key).value);
  }

  lemma {:induction false} OtherKeyAbsent(s: Store, v: Value)
    requires PlainKeys(s)
    ensures KeyOf(s, v).Some? && !v.Reply? ==> L.Lookup(s, KeyOf(s, v).value) == None
  {
    if KeyOf(s, v).Some? && !v.Reply? {
      L.LookupMember(s, KeyOf(s, v).value);
    }
  }

  lemma {:induction false} RunRecoverable(cap: Capacity, events: seq<Event>)
    requires forall i :: 0 <= i < |events| ==> TextKeyed(events[i])
    ensures Recoverable(Run(cap, events), cap)
  {
    hide Recoverable;
    if events == [] {
      NothingRecoverable(cap);
    } else {
      var last := events[|events| - 1];
      var s := Run(cap, events[..|events| - 1]);
      RunRecoverable(cap, events[..|events| - 1]);
      match last
      case Restart => StepRestart(s, cap);
      case Do(Set(key, v)) =>
        if key.Reply? {
          StepSet(s, cap, TextKey(key.text), v);
        }
      case Do(Get(key)) =>
        if KeyOf(s.store, key).Some? {
          StepGet(s, cap, KeyOf(s.store, key).value);
        }
      case Do(Del(key)) =>
        if KeyOf(s.store, key).Some? {
          StepDel(s, cap, KeyOf(s.store, key).value);
        }
      case _ => assert Step(s, cap, last) == s;
    }
  }

  lemma {:induction false} NothingRecoverable(cap: Capacity)
    ensures Recoverable(Server([], []), cap)
  {
  }

  /**
   Crash recovery: over every run of commands with any number of restarts, replaying the log
   rebuilds exactly the text of the live map; so it rebuilds the live map iff every live value is
   text. The replay never evicts: under any larger capacity it builds the same store, in the same order.
   */
  lemma {:induction false} CrashRecovery(cap: Capacity, events: seq<Event>, larger: Capacity)
    requires forall i :: 0 <= i < |events| ==> TextKeyed(events[i])
    requires larger >= cap
    ensures var s := Run(cap, events);
      var recovered := Replay([], cap, s.Log());
      && recovered.Some? && SameMap(recovered.value, AsText(s.store))
      && |recovered.value| == |s.store|
      && (SameMap(recovered.value, s.store) <==> AllText(s.store))
      && Replay([], larger, s.Log()) == recovered
  {
    hide Run, Replay, Replayed, PrintAll, AllText;
    var s := Run(cap, events);
    RunRecoverable(cap, events);
    ReplayWholeLog(cap, s.records);
    ReplayWholeLog(larger, s.records);
    AsTextDistinct(s.store);
    AsTextSpec(s.store, NoneKey);
    ReplayedSpec(cap, s.records);
    SameMapSameKeys(Replayed(cap, s.records), AsText(s.store));
    TextIffSame(s.store);
  }

  // ---- Through text mode ----

  /** Python's text-mode reading: CRLF, and a lone CR, come back as LF. */
  function UniversalNewlines(text: string): (t: string)
    ensures '\r' !in t
    ensures text == "" <==> t == ""
    ensures text != "" && text[0] != '\r' ==> t[0] == text[0]
    decreases |text|
  {
    if text == "" then ""
    else if text[0] != '\r' then [text[0]] + UniversalNewlines(text[1..])
    else if |text| > 1 && text[1] == '\n' then ['\n'] + UniversalNewlines(text[2..])
    else ['\n'] + UniversalNewlines(text[1..])
  }

  lemma {:induction false} NewlineStep(c: char, s: string)
    requires c != '\r'
    ensures UniversalNewlines([c] + s) == [c] + UniversalNewlines(s)
  {
    assert ([c] + s)[1..] == s;
  }

  lemma {:induction false} NewlineEnds(rest: string)
    ensures UniversalNewlines(CRLF + rest) == "\n" + UniversalNewlines(rest)
    ensures rest == "" || rest[0] != '\n' ==> UniversalNewlines("\r" + rest) == "\n" + UniversalNewlines(rest)
  {
    assert (CRLF + rest)[2..] == rest && ("\r" + rest)[1..] == rest;
  }

  /** Line by line: what holds no CR stays, and a CRLF, or a CR with no LF behind it, is an LF. */
  lemma {:induction false} NewlinesRead(line: string, end: string, rest: string)
    requires '\r' !in line && (end == CRLF || (end == "\r" && (rest == "" || rest[0] != '\n')))
    ensures UniversalNewlines(line + (end + rest)) == line + ("\n" + UniversalNewlines(rest))
  {
    hide UniversalNewlines;
    if line == "" {
      NewlineEnds(rest);
      assert line + (end + rest) == end + rest;
    } else {
      NewlinesRead(line[1..], end, rest);
      NewlineStep(line[0], line[1..] + (end + rest));
      assert line + (end + rest) == [line[0]] + (line[1..] + (end + rest));
    }
  }

  /**
   The source reads the log in text mode. Whatever records it holds, none survives: the replay
   stops at the first array header, and the server restarts empty.
   */
  lemma {:induction false} TextModeRecoversNothing(cap: Capacity, records: seq<seq<string>>)
    ensures Replay([], cap, UniversalNewlines(PrintAll(records))) == Some([])
  {
    var text := UniversalNewlines(PrintAll(records));
    NoCarriageReturn(text);
    PrintAllHead(records);
    if text != "" {
      assert text[0] == '*';
      assert Parse(text) == ParseArray(text);
    } else {
      assert Parse(text) == Parsed(Null, text);
    }
  }

  lemma {:induction false} PrintAllHead(records: seq<seq<string>>)
    ensures PrintAll(records) == "" || PrintAll(records)[0] == '*'
  {
    if records != [] {
      PrintAllHead(records[..|records| - 1]);
    }
  }

  /** So a restart through text mode restores the live map iff there was nothing to restore. */
  lemma {:induction false} TextModeRestart(cap: Capacity, events: seq<Event>)
    ensures var s := Run(cap, events);
      var recovered := Replay([], cap, UniversalNewlines(s.Log()));
      recovered.Some? && (SameMap(recovered.value, s.store) <==> s.store == [])
  {
    hide Replay, UniversalNewlines, Run, PrintAll, SameMap;
    var s := Run(cap, events);
    TextModeRecoversNothing(cap, s.records);
    NothingMatches(s.store);
  }

  lemma {:induction false} NothingMatches(store: Store)
    ensures SameMap([], store) <==> store == []
  {
    if store != [] {
      assert L.Lookup(store, store[0].key).Some?;
      assert L.Lookup<Key, Value>([], store[0].key) == None;
    }
  }
}
