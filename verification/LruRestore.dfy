/**
 Exactly which runs of the cache server can be restored from the log at every moment, and what is
 restored from a log that was cut off while a record was being written.
 */
module LruRestore {
  import opened Wrappers
  import opened Text
  import opened Resp
  import opened RespFraming
  import opened PyStr
  import opened LruCache
  import opened LruRecovery
  import L = LruStore

  const EMPTY_KEY := TextKey("")

  /** Replaying the log would rebuild the live map. */
  ghost predicate Restored(s: Server, cap: Capacity) {
    var recovered := Replay([], cap, s.Log());
    recovered.Some? && SameMap(recovered.value, s.store)
  }

  predicate Sets(e: Event, k: Key) {
    e.Do? && e.command.Set? && e.command.key.Reply? && TextKey(e.command.key.text) == k
  }

  /** When `k` was last SET. */
  function LastSet(events: seq<Event>, k: Key): nat {
    if events == [] then 0
    else if Sets(events[|events| - 1], k) then |events|
    else LastSet(events[..|events| - 1], k)
  }

  /** Of the live keys the empty one is the one SET longest ago, however recently it was read. */
  ghost predicate LeastSet(s: Store, events: seq<Event>) {
    forall e :: e in s && e.key != EMPTY_KEY ==> LastSet(events, EMPTY_KEY) < LastSet(events, e.key)
  }

  /**
   A SET that does the log no harm: text under a text key, and if it evicts the empty key, whose
   eviction is not logged, then that key was also SET longest ago.
   */
  ghost predicate Harmless(cap: Capacity, events: seq<Event>, e: Event) {
    e.Do? && e.command.Set? && !e.command.key.List? ==>
      && e.command.key.Reply? && e.command.value.Reply?
      && var s := Run(cap, events).store;
      L.Evicted(s, cap, TextKey(e.command.key.text)) == Some(EMPTY_KEY) ==> LeastSet(s, events)
  }

  predicate AsciiEvent(e: Event) {
    e.Do? && e.command.Set? ==> AsciiValue(e.command.key) && AsciiValue(e.command.value)
  }

  // ---- What a restorable run keeps ----

  predicate PlainText(s: Store) {
    forall e :: e in s ==> e.key.TextKey? && Ascii(e.key.text) && e.value.Reply? && Ascii(e.value.text)
  }

  ghost predicate ByLastSet(r: Store, events: seq<Event>) {
    forall i, j :: 0 <= i < j < |r| ==> LastSet(events, r[i].key) < LastSet(events, r[j].key)
  }

  ghost predicate Intact(s: Server, cap: Capacity, events: seq<Event>) {
    && L.Distinct(s.store) && |s.store| <= cap && PlainText(s.store)
    && AsciiRecords(s.records) && Replayable(s.records)
    && SameMap(Replayed(cap, s.records), s.store) && ByLastSet(Replayed(cap, s.records), events)
  }

  lemma {:induction false} LastSetNext(events: seq<Event>, e: Event, k: Key)
    ensures LastSet(events + [e], k) == if Sets(e, k) then |events| + 1 else LastSet(events, k)
  {
    assert (events + [e])[..|events|] == events;
  }

  lemma {:induction false} LastSetBound(events: seq<Event>, k: Key)
    ensures LastSet(events, k) <= |events|
  {
    if events != [] {
      LastSetBound(events[..|events| - 1], k);
    }
  }

  /** Nothing of `r` is SET: its order stays. */
  lemma {:induction false} OrderStays(r: Store, events: seq<Event>, e: Event)
    requires ByLastSet(r, events) && forall i :: 0 <= i < |r| ==> !Sets(e, r[i].key)
    ensures ByLastSet(r, events + [e])
  {
    hide LastSet, Sets;
    forall i | 0 <= i < |r| ensures LastSet(events + [e], r[i].key) == LastSet(events, r[i].key) {
      LastSetNext(events, e, r[i].key);
    }
  }

  lemma {:induction false} OrderAppend(r: Store, events: seq<Event>, e: Event, k: Key, v: Value)
    requires ByLastSet(r, events) && Sets(e, k) && k !in L.Keys(r)
    ensures ByLastSet(r + [L.Entry(k, v)], events + [e])
  {
    var r' := r + [L.Entry(k, v)];
    LastSetNext(events, e, k);
    forall i | 0 <= i < |r| ensures !Sets(e, r[i].key) && LastSet(events + [e], r[i].key) <= |events| {
      assert r[i] in r;
      LastSetNext(events, e, r[i].key);
      LastSetBound(events, r[i].key);
    }
    OrderStays(r, events, e);
  }

  lemma {:induction false} OrderWithout(r: Store, events: seq<Event>, k: Key)
    requires ByLastSet(r, events)
    ensures ByLastSet(L.Without(r, k), events)
  {
    hide LastSet;
    if r != [] {
      var t := r[1..];
      assert forall i :: 0 <= i < |t| ==> t[i] == r[i + 1];
      OrderWithout(t, events, k);
      L.WithoutSpec(t, k);
      forall e | e in L.Without(t, k) ensures LastSet(events, r[0].key) < LastSet(events, e.key) {
        var i :| 0 <= i < |t| && t[i] == e;
      }
    }
  }

  lemma {:induction false} OrderSet(r: Store, cap: Capacity, events: seq<Event>, e: Event, k: Key, v: Value)
    requires L.Distinct(r) && |r| <= cap && ByLastSet(r, events) && Sets(e, k)
    ensures ByLastSet(L.Set(r, cap, k, v), events + [e])
  {
    hide LastSet, Sets;
    L.LookupSpec(r, k);
    L.WithoutSpec(r, k);
    OrderWithout(r, events, k);
    if L.Lookup(r, k).Some? {
      OrderAppend(L.Without(r, k), events, e, k, v);
    } else if |r| >= cap {
      L.HeadDistinct(r);
      assert forall i :: 0 <= i < |r| - 1 ==> r[1..][i] == r[i + 1];
      OrderAppend(r[1..], events, e, k, v);
    } else {
      OrderAppend(r, events, e, k, v);
    }
  }

  // ---- SET ----

  lemma {:induction false} SameEviction(s: Server, cap: Capacity, events: seq<Event>, k: Key)
    requires Intact(s, cap, events)
    ensures var r := Replayed(cap, s.records);
      && L.Distinct(r) && |r| == |s.store| && L.Keys(r) == L.Keys(s.store)
      && (L.Evicted(r, cap, k) == None <==> L.Evicted(s.store, cap, k) == None)
  {
    ReplayedSpec(cap, s.records);
    SameMapSameKeys(Replayed(cap, s.records), s.store);
    L.LookupSpec(s.store, k);
    L.LookupSpec(Replayed(cap, s.records), k);
  }

  /** The replayed store would evict the empty key as well iff that key was SET longest ago. */
  lemma {:induction false} EvictsEmptyToo(s: Server, cap: Capacity, events: seq<Event>, k: Key)
    requires Intact(s, cap, events) && L.Evicted(s.store, cap, k) == Some(EMPTY_KEY)
    ensures L.Evicted(Replayed(cap, s.records), cap, k) == Some(EMPTY_KEY) <==> LeastSet(s.store, events)
  {
    hide LastSet;
    var r := Replayed(cap, s.records);
    SameEviction(s, cap, events, k);
    assert s.store[0] in s.store && EMPTY_KEY in L.Keys(r);
    if r[0].key == EMPTY_KEY {
      forall e | e in s.store && e.key != EMPTY_KEY ensures LastSet(events, EMPTY_KEY) < LastSet(events, e.key) {
        assert e.key in L.Keys(r);
        var i :| 0 <= i < |r| && r[i].key == e.key;
      }
    } else {
      var i :| 0 <= i < |r| && r[i].key == EMPTY_KEY;
      assert r[0] in r && r[0].key in L.Keys(s.store);
      var e :| e in s.store && e.key == r[0].key;
    }
  }

  lemma {:induction false} SetText(s: Server, cap: Capacity, events: seq<Event>, k: Key, v: Value)
    requires Intact(s, cap, events) && k.TextKey? && Ascii(k.text) && v.Reply? && Ascii(v.text)
    ensures var s' := OnSet(s, cap, k, v);
      && L.Distinct(s'.store) && |s'.store| <= cap && PlainText(s'.store)
      && AsciiRecords(s'.records) && Replayable(s'.records)
  {
    L.SetSpec(s.store, cap, k, v);
    SetMembers(s.store, cap, k, v);
    SetRecords(s, cap, k, v);
  }

  lemma {:induction false} SetTextReplayed(s: Server, cap: Capacity, events: seq<Event>, k: Key, v: Value)
    requires Intact(s, cap, events) && k.TextKey? && v.Reply?
    ensures var gone := EvictionRecord(L.Evicted(s.store, cap, k));
      Replayed(cap, OnSet(s, cap, k, v).records) == L.Set(Replayed(cap, s.records + gone), cap, k, v)
  {
    ReplayedSet(cap, s.records + EvictionRecord(L.Evicted(s.store, cap, k)), k.text, v.text);
  }

  /** A SET that evicts nothing, or a key whose eviction is logged. */
  lemma {:induction false} SetLogged(s: Server, cap: Capacity, events: seq<Event>, e: Event, k: Key, v: Value)
    requires Intact(s, cap, events) && Sets(e, k) && k.TextKey? && v.Reply?
    requires L.Evicted(s.store, cap, k) != Some(EMPTY_KEY)
    ensures var r' := Replayed(cap, OnSet(s, cap, k, v).records);
      SameMap(r', OnSet(s, cap, k, v).store) && ByLastSet(r', events + [e])
  {
    hide LastSet, Sets;
    var r, evicted := Replayed(cap, s.records), L.Evicted(s.store, cap, k);
    SameEviction(s, cap, events, k);
    SetTextReplayed(s, cap, events, k, v);
    var before := Replayed(cap, s.records + EvictionRecord(evicted));
    ReplayedSpec(cap, s.records + EvictionRecord(evicted));
    if evicted.Some? {
      assert s.store[0] in s.store;
      ReplayedDel(cap, s.records, evicted.value.text);
      OrderWithout(r, events, evicted.value);
      L.WithoutDistinct(r, evicted.value);
      assert s.store[0].key in L.Keys(s.store);
    } else {
      assert s.records + [] == s.records;
    }
    OrderSet(before, cap, events, e, k, v);
    forall j ensures L.Lookup(L.Set(before, cap, k, v), j) == L.Lookup(L.Set(s.store, cap, k, v), j) {
      if evicted.Some? {
        LookupWithout(r, evicted.value, j);
      }
      LookupSet(before, cap, k, v, j);
      LookupSet(s.store, cap, k, v, j);
    }
  }

  /** A SET that evicts the empty key. */
  lemma {:induction false} SetEvictsEmpty(s: Server, cap: Capacity, events: seq<Event>, e: Event, k: Key, v: Value)
    requires Intact(s, cap, events) && Sets(e, k) && k.TextKey? && v.Reply?
    requires L.Evicted(s.store, cap, k) == Some(EMPTY_KEY)
    ensures var r' := Replayed(cap, OnSet(s, cap, k, v).records);
      && (SameMap(r', OnSet(s, cap, k, v).store) <==> LeastSet(s.store, events))
      && ByLastSet(r', events + [e])
  {
    hide LastSet, Sets, LeastSet;
    var r := Replayed(cap, s.records);
    SameEviction(s, cap, events, k);
    EvictsEmptyToo(s, cap, events, k);
    SetTextReplayed(s, cap, events, k, v);
    assert s.records + [] == s.records;
    OrderSet(r, cap, events, e, k, v);
    ReplayedSpec(cap, s.records);
    forall j ensures
      && L.Lookup(L.Set(r, cap, k, v), j) ==
         (if j == k then Some(v) else if L.Evicted(r, cap, k) == Some(j) then None else L.Lookup(s.store, j))
      && L.Lookup(L.Set(s.store, cap, k, v), j) ==
         (if j == k then Some(v) else if j == EMPTY_KEY then None else L.Lookup(s.store, j))
    {
      LookupSet(r, cap, k, v, j);
      LookupSet(s.store, cap, k, v, j);
    }
    assert L.Lookup(s.store, EMPTY_KEY).Some?;
    assert k != EMPTY_KEY;
    if L.Evicted(r, cap, k) != Some(EMPTY_KEY) {
      assert L.Lookup(L.Set(r, cap, k, v), EMPTY_KEY) != L.Lookup(L.Set(s.store, cap, k, v), EMPTY_KEY);
    }
  }

  /** What is not text, as key or value, does not come back. */
  lemma {:induction false} SetNotText(s: Server, cap: Capacity, events: seq<Event>, k: Key, v: Value)
    requires Intact(s, cap, events) && !(k.TextKey? && v.Reply?) && Ascii(KeyStr(k)) && AsciiValue(v)
    ensures !Restored(OnSet(s, cap, k, v), cap)
  {
    hide Replayed, Replay, PrintAll, Str, KeyStr;
    var s' := OnSet(s, cap, k, v);
    StrAscii(v);
    assert forall e :: e in s.store ==> Ascii(KeyStr(e.key)) by { PlainKeyStr(s.store); }
    SetRecords(s, cap, k, v);
    ReplayWholeLog(cap, s'.records);
    ReplayedSpec(cap, s'.records);
    L.SetSpec(s.store, cap, k, v);
    L.LookupMember(Replayed(cap, s'.records), k);
  }

  lemma {:induction false} PlainKeyStr(s: Store)
    requires PlainText(s)
    ensures forall e :: e in s ==> Ascii(KeyStr(e.key))
  {
  }

  // ---- One event ----

  lemma {:induction false} IntactIsRestored(s: Server, cap: Capacity, events: seq<Event>)
    requires Intact(s, cap, events)
    ensures Restored(s, cap)
  {
    ReplayWholeLog(cap, s.records);
  }

  lemma {:induction false} SetStep(s: Server, cap: Capacity, events: seq<Event>, e: Event)
    requires s == Run(cap, events) && Intact(s, cap, events) && AsciiEvent(e) && e.Do? && e.command.Set?
    ensures var s' := Step(s, cap, e);
      if Harmless(cap, events, e) then Intact(s', cap, events + [e]) else !Restored(s', cap)
  {
    hide Run, Replayed, Replay, Intact, LastSet, Restored;
    var key, v := e.command.key, e.command.value;
    match KeyOf(s.store, key)
    case None => UnchangedStep(s, cap, events, e);
    case Some(k) =>
      if key.Reply? && v.Reply? {
        SetText(s, cap, events, k, v);
        if L.Evicted(s.store, cap, k) == Some(EMPTY_KEY) {
          SetEvictsEmpty(s, cap, events, e, k, v);
        } else {
          SetLogged(s, cap, events, e, k, v);
        }
        SetOutcome(OnSet(s, cap, k, v), cap, events + [e]);
      } else {
        if key.Number? {
          DigitsAscii(key.number);
        }
        SetNotText(s, cap, events, k, v);
      }
  }

  lemma {:induction false} SetOutcome(s: Server, cap: Capacity, events: seq<Event>)
    requires L.Distinct(s.store) && |s.store| <= cap && PlainText(s.store) && AsciiRecords(s.records)
    requires Replayable(s.records)
    requires ByLastSet(Replayed(cap, s.records), events)
    ensures if SameMap(Replayed(cap, s.records), s.store) then Intact(s, cap, events) else !Restored(s, cap)
  {
    hide Replayed, Replay;
    ReplayWholeLog(cap, s.records);
  }

  lemma {:induction false} UnchangedStep(s: Server, cap: Capacity, events: seq<Event>, e: Event)
    requires Intact(s, cap, events) && forall k :: !Sets(e, k)
    ensures Intact(s, cap, events + [e])
  {
    OrderStays(Replayed(cap, s.records), events, e);
  }

  lemma {:induction false} GetStep(s: Server, cap: Capacity, events: seq<Event>, e: Event, k: Key)
    requires Intact(s, cap, events) && forall j :: !Sets(e, j)
    ensures Intact(s.(store := L.Get(s.store, k)), cap, events + [e])
  {
    OrderStays(Replayed(cap, s.records), events, e);
    L.GetSpec(s.store, k);
    L.WithoutSpec(s.store, k);
    L.LookupMember(s.store, k);
    forall j ensures L.Lookup(L.Get(s.store, k), j) == L.Lookup(s.store, j) {
      LookupGet(s.store, k, j);
    }
  }

  lemma {:induction false} DelStep(s: Server, cap: Capacity, events: seq<Event>, e: Event, k: Key)
    requires Intact(s, cap, events) && forall j :: !Sets(e, j)
    ensures Intact(OnDel(s, k), cap, events + [e])
  {
    hide LastSet;
    var r := Replayed(cap, s.records);
    if L.Lookup(s.store, k).None? {
      UnchangedStep(s, cap, events, e);
    } else {
      L.LookupMember(s.store, k);
      L.WithoutSpec(s.store, k);
      L.WithoutDistinct(s.store, k);
      ReplayedDel(cap, s.records, k.text);
      OrderWithout(r, events, k);
      OrderStays(L.Without(r, k), events, e);
      forall j ensures L.Lookup(L.Without(r, k), j) == L.Lookup(L.Without(s.store, k), j) {
        LookupWithout(r, k, j);
        LookupWithout(s.store, k, j);
      }
    }
  }

  lemma {:induction false} RestartStep(s: Server, cap: Capacity, events: seq<Event>)
    requires Intact(s, cap, events)
    ensures Intact(Step(s, cap, Restart), cap, events + [Restart])
  {
    var r := Replayed(cap, s.records);
    ReplayWholeLog(cap, s.records);
    ReplayedSpec(cap, s.records);
    OrderStays(r, events, Restart);
    forall e | e in r ensures e in s.store {
      var i :| 0 <= i < |r| && r[i] == e;
      L.LookupSpec(r, e.key);
      L.LookupMember(s.store, e.key);
      assert L.Lookup(r, e.key) == L.Lookup(s.store, e.key);
    }
  }

  /** One event on a restorable run: it stays restorable iff the event is harmless. */
  lemma {:induction false} EventStep(s: Server, cap: Capacity, events: seq<Event>, e: Event)
    requires s == Run(cap, events) && Intact(s, cap, events) && AsciiEvent(e)
    ensures var s' := Step(s, cap, e);
      if Harmless(cap, events, e) then Intact(s', cap, events + [e]) else !Restored(s', cap)
  {
    hide Intact, Restored, Run, Replay;
    match e
    case Restart => RestartStep(s, cap, events);
    case Do(Set(_, _)) => SetStep(s, cap, events, e);
    case Do(Get(key)) =>
      if KeyOf(s.store, key).Some? {
        GetStep(s, cap, events, e, KeyOf(s.store, key).value);
      } else {
        UnchangedStep(s, cap, events, e);
      }
    case Do(Del(key)) =>
      if KeyOf(s.store, key).Some? {
        DelStep(s, cap, events, e, KeyOf(s.store, key).value);
      } else {
        UnchangedStep(s, cap, events, e);
      }
    case _ => UnchangedStep(s, cap, events, e);
  }

  // ---- Whole runs ----

  ghost predicate RestoredThroughout(cap: Capacity, events: seq<Event>) {
    forall i :: 0 <= i <= |events| ==> Restored(Run(cap, events[..i]), cap)
  }

  ghost predicate HarmlessThroughout(cap: Capacity, events: seq<Event>) {
    forall i :: 0 <= i < |events| ==> Harmless(cap, events[..i], events[i])
  }

  lemma {:induction false} NothingIntact(cap: Capacity)
    ensures Intact(Run(cap, []), cap, [])
  {
  }

  lemma {:induction false} RunNext(cap: Capacity, events: seq<Event>, i: nat)
    requires i < |events|
    ensures Run(cap, events[..i + 1]) == Step(Run(cap, events[..i]), cap, events[i])
    ensures events[..i + 1] == events[..i] + [events[i]]
  {
    hide Step;
    assert events[..i + 1][..i] == events[..i];
  }

  lemma {:induction false} IntactThroughout(cap: Capacity, events: seq<Event>, i: nat)
    requires i <= |events| && forall j :: 0 <= j < |events| ==> AsciiEvent(events[j])
    requires forall j :: 0 <= j < i ==> Harmless(cap, events[..j], events[j])
    ensures Intact(Run(cap, events[..i]), cap, events[..i])
  {
    hide Intact, Run, Harmless, AsciiEvent;
    if i == 0 {
      NothingIntact(cap);
    } else {
      IntactThroughout(cap, events, i - 1);
      EventStep(Run(cap, events[..i - 1]), cap, events[..i - 1], events[i - 1]);
      RunNext(cap, events, i - 1);
    }
  }

  lemma {:induction false} FirstHarm(cap: Capacity, events: seq<Event>, n: nat) returns (i: nat)
    requires n <= |events| && exists j :: 0 <= j < n && !Harmless(cap, events[..j], events[j])
    ensures i < n && !Harmless(cap, events[..i], events[i])
    ensures forall j :: 0 <= j < i ==> Harmless(cap, events[..j], events[j])
  {
    hide Harmless;
    if exists j :: 0 <= j < n - 1 && !Harmless(cap, events[..j], events[j]) {
      i := FirstHarm(cap, events, n - 1);
    } else {
      i := n - 1;
    }
  }

  /**
   Recovery over whole runs, exactly: the live map can be rebuilt from the log at every moment of a
   run iff every SET of the run stores text under a text key, and none evicts the empty key while
   another live key was SET longer ago.
   */
  lemma {:induction false} RestorableRuns(cap: Capacity, events: seq<Event>)
    requires forall i :: 0 <= i < |events| ==> AsciiEvent(events[i])
    ensures RestoredThroughout(cap, events) <==> HarmlessThroughout(cap, events)
  {
    hide Intact, Run, Harmless, AsciiEvent, Restored;
    if HarmlessThroughout(cap, events) {
      forall i | 0 <= i <= |events| ensures Restored(Run(cap, events[..i]), cap) {
        IntactThroughout(cap, events, i);
        IntactIsRestored(Run(cap, events[..i]), cap, events[..i]);
      }
    } else {
      var i := FirstHarm(cap, events, |events|);
      IntactThroughout(cap, events, i);
      EventStep(Run(cap, events[..i]), cap, events[..i], events[i]);
      RunNext(cap, events, i);
    }
  }

  // ---- A run that cannot be restored ----

  function SetTextEvent(key: string, value: string): Event { Do(Set(Reply(key), Reply(value))) }

  function TextEntry(key: string, value: string): L.Entry<Key, Value> { L.Entry(TextKey(key), Reply(value)) }

  /** SET a, SET the empty key, read a, SET b. */
  function EmptyKeyRun(a: string, x: string, y: string, b: string, z: string): seq<Event> {
    [SetTextEvent(a, x), SetTextEvent("", y), Do(Get(Reply(a))), SetTextEvent(b, z)]
  }

  lemma {:induction false} TwoEntries(e: L.Entry<Key, Value>, f: L.Entry<Key, Value>, k: Key)
    requires e.key != f.key
    ensures var s := [e, f];
      && L.Lookup(s, k) == (if k == e.key then Some(e.value) else if k == f.key then Some(f.value) else None)
      && (k == e.key ==> L.Without(s, k) == [f]) && s[1..] == [f]
  {
    var s, t := [e, f], [f];
    assert s[1..] == t && t[1..] == [];
    OneEntry(f, k);
    assert L.Without(t, e.key) == [f] + L.Without(t[1..], e.key) == t;
  }

  lemma {:induction false} OneEntry(e: L.Entry<Key, Value>, k: Key)
    ensures L.Lookup([e], k) == if k == e.key then Some(e.value) else None
  {
    assert [e][1..] == [];
  }

  lemma {:induction false} EmptyKeyStates(a: string, x: string, y: string, b: string, z: string)
    requires a != "" && b != "" && a != b
    ensures var s1 := Step(Server([], []), 2, SetTextEvent(a, x));
      var s2 := Step(s1, 2, SetTextEvent("", y));
      var s3 := Step(s2, 2, Do(Get(Reply(a))));
      var s4 := Step(s3, 2, SetTextEvent(b, z));
      && s4.store == [TextEntry(a, x), TextEntry(b, z)]
      && s4.records == [["SET", a, x], ["SET", "", y], ["SET", b, z]]
  {
    var s1 := Step(Server([], []), 2, SetTextEvent(a, x));
    assert s1 == Server([TextEntry(a, x)], [["SET", a, x]]);
    OneEntry(TextEntry(a, x), EMPTY_KEY);
    TwoEntries(TextEntry(a, x), TextEntry("", y), TextKey(a));
    TwoEntries(TextEntry("", y), TextEntry(a, x), TextKey(b));
    var s2 := Step(s1, 2, SetTextEvent("", y));
    assert s2 == Server([TextEntry(a, x), TextEntry("", y)], [["SET", a, x], ["SET", "", y]]);
    var s3 := Step(s2, 2, Do(Get(Reply(a))));
    assert [TextEntry(a, x), TextEntry("", y)][1..] == [TextEntry("", y)];
    assert s3.store == [TextEntry("", y), TextEntry(a, x)];
    assert [TextEntry("", y), TextEntry(a, x)][1..] == [TextEntry(a, x)];
    var s4 := Step(s3, 2, SetTextEvent(b, z));
    assert s4.store == [TextEntry(a, x), TextEntry(b, z)];
  }

  lemma {:induction false} EmptyKeyReplayed(a: string, x: string, y: string, b: string, z: string)
    requires a != "" && b != "" && a != b
    ensures Replayed(2, [["SET", a, x], ["SET", "", y], ["SET", b, z]]) == [TextEntry("", y), TextEntry(b, z)]
  {
    var r0: seq<seq<string>>, r1, r2 := [], [["SET", a, x]], [["SET", a, x], ["SET", "", y]];
    ReplayedSet(2, r0, a, x);
    assert r0 + [["SET", a, x]] == r1;
    assert Replayed(2, r1) == [TextEntry(a, x)];
    OneEntry(TextEntry(a, x), EMPTY_KEY);
    TwoEntries(TextEntry(a, x), TextEntry("", y), TextKey(b));
    ReplayedSet(2, r1, "", y);
    assert r1 + [["SET", "", y]] == r2;
    assert [TextEntry(a, x)][1..] == [];
    assert Replayed(2, r2) == [TextEntry(a, x), TextEntry("", y)];
    ReplayedSet(2, r2, b, z);
    assert [TextEntry(a, x), TextEntry("", y)][1..] == [TextEntry("", y)];
    assert r2 + [["SET", b, z]] == [["SET", a, x], ["SET", "", y], ["SET", b, z]];
  }

  lemma {:induction false} RunOfFour(cap: Capacity, e1: Event, e2: Event, e3: Event, e4: Event)
    ensures Run(cap, [e1, e2, e3, e4]) == Step(Step(Step(Step(Server([], []), cap, e1), cap, e2), cap, e3), cap, e4)
  {
    hide Step;
    assert [e1, e2, e3, e4][..3] == [e1, e2, e3] && [e1, e2, e3][..2] == [e1, e2];
    assert [e1, e2][..1] == [e1] && [e1][..0] == [];
    assert Run(cap, [e1]) == Step(Server([], []), cap, e1);
    assert Run(cap, [e1, e2]) == Step(Run(cap, [e1]), cap, e2);
    assert Run(cap, [e1, e2, e3]) == Step(Run(cap, [e1, e2]), cap, e3);
  }

  /**
   The unlogged eviction at work, at capacity 2: the live map holds a and b, the log has no DEL, and
   the replay keeps the empty key and loses a.
   */
  lemma {:induction false} EmptyKeyLost(a: string, x: string, y: string, b: string, z: string)
    requires a != "" && b != "" && a != b && AllAscii([a, x, y, b, z])
    ensures var s := Run(2, EmptyKeyRun(a, x, y, b, z));
      && s.store == [TextEntry(a, x), TextEntry(b, z)]
      && s.records == [["SET", a, x], ["SET", "", y], ["SET", b, z]]
      && Replay([], 2, s.Log()) == Some([TextEntry("", y), TextEntry(b, z)])
      && !Restored(s, 2)
  {
    hide Step, Replay, Replayed, PrintAll, Run;
    RunOfFour(2, SetTextEvent(a, x), SetTextEvent("", y), Do(Get(Reply(a))), SetTextEvent(b, z));
    EmptyKeyStates(a, x, y, b, z);
    EmptyKeyReplayed(a, x, y, b, z);
    var args := [a, x, y, b, z];
    assert args[0] == a && args[1] == x && args[2] == y && args[3] == b && args[4] == z;
    var records := [["SET", a, x], ["SET", "", y], ["SET", b, z]];
    assert AsciiRecords(records) && Replayable(records);
    ReplayWholeLog(2, records);
    var live, back := [TextEntry(a, x), TextEntry(b, z)], [TextEntry("", y), TextEntry(b, z)];
    assert L.Lookup(live, TextKey(a)) == Some(Reply(x));
    TwoEntries(TextEntry("", y), TextEntry(b, z), TextKey(a));
    assert L.Lookup(back, TextKey(a)) == None;
  }

  // ---- A log cut off ----

  /** What the server writes: SET records with a key and a value, DEL records with a key. */
  predicate LogRecord(r: seq<string>) { (|r| == 3 && r[0] == "SET") || (|r| == 2 && r[0] == "DEL") }

  predicate LogRecords(records: seq<seq<string>>) { forall i :: 0 <= i < |records| ==> LogRecord(records[i]) }

  lemma {:induction false} RunLogs(cap: Capacity, events: seq<Event>)
    ensures LogRecords(Run(cap, events).records)
  {
    hide L.Set, L.Get, L.Without, L.Evicted, Replay;
    if events != [] {
      RunLogs(cap, events[..|events| - 1]);
    }
  }

  /** Where the cut falls: behind `k` complete records, `m` characters into the next. */
  lemma {:induction false} CutPlace(records: seq<seq<string>>, n: nat) returns (k: nat, m: nat)
    requires n <= |PrintAll(records)|
    ensures k == Done(records, n) && n == |PrintAll(records[..k])| + m
    ensures k == |records| ==> m == 0 && GoodCut(records, n) && PrintAll(records)[..n] == PrintAll(records[..k])
    ensures k < |records| ==> m < |Print(records[k])| && (GoodCut(records, n) <==> m < Opening(records[k]))
    ensures k < |records| ==> PrintAll(records)[..n] == PrintAll(records[..k]) + Print(records[k])[..m]
  {
    hide Print, Opening;
    k := Done(records, n);
    LaterCuts(records, k, n);
    m := n - |PrintAll(records[..k])|;
    PrintAllParts(records, k);
    DoneHere(records, n);
    if k == |records| {
      assert records[k..] == [];
    } else {
      PrintAllFront(records[k..]);
    }
  }

  /** The record behind the complete ones is not complete. */
  lemma {:induction false} DoneHere(records: seq<seq<string>>, n: nat)
    ensures var k := Done(records, n);
      k < |records| && n >= |PrintAll(records[..k])| ==> n - |PrintAll(records[..k])| < |Print(records[k])|
    decreases |records|
  {
    hide Print;
    if records == [] || n < |Print(records[0])| {
      assert records[..0] == [];
    } else {
      var k, first := Done(records, n), Print(records[0]);
      DoneHere(records[1..], n - |first|);
      PrintAllFront(records[..k]);
      assert records[..k][0] == records[0] && records[..k][1..] == records[1..][..k - 1];
    }
  }

  /** What replay makes of a cut SET record: None under its key, or under the key None when the key is cut. */
  function CutKey(record: seq<string>, m: nat): Key
    requires |record| >= 2
  {
    if m < Opening(record) + |Bulk(record[1])| then NoneKey else TextKey(record[1])
  }

  function AfterCut(before: Store, cap: Capacity, record: seq<string>, m: nat): Store
    requires |record| >= 2
  {
    if m < Opening(record) || record[0] == "DEL" then before else L.Set(before, cap, CutKey(record, m), Null)
  }

  lemma {:induction false} CutRecord(before: Store, cap: Capacity, record: seq<string>, m: nat)
    requires AllAscii(record) && LogRecord(record) && m < |Print(record)|
    requires forall e :: e in before ==> e.key.TextKey?
    ensures Replay(before, cap, Print(record)[..m]) == Some(AfterCut(before, cap, record, m))
  {
    hide Print, Parse, Bulk, Bulks, CutItems, CutRest, Upper;
    var text := Print(record)[..m];
    CutCommand(record, m);
    if m >= Opening(record) {
      var n := m - |Header(|record|)|;
      assert Upper("SET") == "SET" && Upper("DEL") == "DEL" by { ActionsUpper(); }
      if record[0] == "DEL" {
        assert record == ["DEL", record[1]];
        CutTwo("DEL", record[1], n);
        L.WithoutSpec(before, NoneKey);
      } else {
        assert record == ["SET", record[1], record[2]];
        CutThree("SET", record[1], record[2], n);
      }
      ReplayOne(before, cap, text, List(CutItems(record, n)), CutRest(record, Bulks(record)[..n]));
    } else {
      ReplayNone(before, cap, text);
    }
  }

  lemma {:induction false} ActionsUpper()
    ensures Upper("SET") == "SET" && Upper("DEL") == "DEL"
  {
  }

  lemma {:induction false} ReplayNone(before: Store, cap: Capacity, text: string)
    requires Parse(text) == Parsed(Null, text)
    ensures Replay(before, cap, text) == Some(before)
  {
  }

  lemma {:induction false} ReplayOne(before: Store, cap: Capacity, text: string, value: Value, rest: string)
    requires Parse(text) == Parsed(value, rest) && value != Null && Parse(rest) == Parsed(Null, rest)
    requires ReplayValue(before, cap, value).Some?
    ensures Replay(before, cap, text) == ReplayValue(before, cap, value)
  {
    hide Parse, ReplayValue;
    ReplayNone(ReplayValue(before, cap, value).value, cap, rest);
  }

  /**
   Replaying a log that was cut off: the complete records count. A record cut in its header or its
   action, and a cut DEL, are as if never written; but a SET cut later stores None, under its key if
   that is complete, and may evict another entry for it.
   */
  lemma {:induction false} CutLog(cap: Capacity, records: seq<seq<string>>, n: nat) returns (k: nat, m: nat)
    requires AsciiRecords(records) && LogRecords(records) && n <= |PrintAll(records)|
    ensures k == Done(records, n) && n == |PrintAll(records[..k])| + m
    ensures var before := Replayed(cap, records[..k]);
      Replay([], cap, PrintAll(records)[..n])
      == Some(if k == |records| then before else AfterCut(before, cap, records[k], m))
  {
    hide Print, PrintAll, Parse, Replayed, Replay, Done, GoodCut, AfterCut;
    k, m := CutPlace(records, n);
    var before := Replayed(cap, records[..k]);
    ReplayedSpec(cap, records[..k]);
    if k == |records| {
      ReplayWholeLog(cap, records[..k]);
    } else {
      ReplayText(cap, records[..k], Print(records[k])[..m]);
      CutRecord(before, cap, records[k], m);
    }
  }

  /** So the complete records are restored, and nothing else, iff the cut is in header or action, or in a DEL. */
  lemma {:induction false} CutLogRestores(cap: Capacity, records: seq<seq<string>>, n: nat)
    requires AsciiRecords(records) && LogRecords(records) && n <= |PrintAll(records)|
    ensures var k := Done(records, n);
      Replay([], cap, PrintAll(records)[..n]) == Some(Replayed(cap, records[..k]))
      <==> GoodCut(records, n) || (k < |records| && records[k][0] == "DEL")
  {
    hide Print, PrintAll, Parse, Replayed, Replay, Done, GoodCut, Opening;
    var k, m := CutLog(cap, records, n);
    var k', m' := CutPlace(records, n);
    var before := Replayed(cap, records[..k]);
    ReplayedSpec(cap, records[..k]);
    if k < |records| && m >= Opening(records[k]) && records[k][0] != "DEL" {
      var after := L.Set(before, cap, CutKey(records[k], m), Null);
      assert after[|after| - 1].value == Null && after[|after| - 1] in after;
    }
  }
}
