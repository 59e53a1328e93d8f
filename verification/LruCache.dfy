/**
 The cache server of cache/lru_cache.py: its command loop, its append-only log of SET and DEL
 records, and the replay of that log after a crash. Keys and values are whatever the parser returns:
 usually text, but also None, integers, errors and lists.
 */
module LruCache {
  import opened Wrappers
  import opened Text
  import opened Resp
  import opened RespFraming
  import opened PyStr
  import L = LruStore

  /** What can be a dictionary key. Two error objects are never equal, so each has a serial number. */
  datatype Key = TextKey(text: string) | NoneKey | IntKey(n: int) | ErrorKey(serial: nat, message: string)

  type Store = L.Store<Key, Value>
  type Capacity = L.Capacity

  /** The store, and the records written to the log so far, their arguments as printed. */
  datatype Server = Server(store: Store, records: seq<seq<string>>) {
    /** The log file, character by character. */
    function Log(): string { PrintAll(records) }
  }

  datatype Command =
    | Set(key: Value, value: Value)
    | Get(key: Value)
    | Del(key: Value)
    | Quit
    | Missing(message: string)
    | Unknown
    | Ignored      // not a list, or an empty one
    | Malformed    // the action is not text

  // ---- Keys ----

  function MaxSerial(s: Store): nat {
    if s == [] then 0
    else
      var most := MaxSerial(s[1..]);
      if s[0].key.ErrorKey? && s[0].key.serial > most then s[0].key.serial else most
  }

  /**
   A value used as a key; None for a list, which cannot be one. An error is a new object, equal to
   no key there is.
   */
  function KeyOf(s: Store, v: Value): Option<Key> {
    match v
    case Reply(text) => Some(TextKey(text))
    case Null => Some(NoneKey)
    case Number(n) => Some(IntKey(n))
    case Failure(message) => Some(ErrorKey(MaxSerial(s) + 1, message))
    case List(_) => None
  }

  function KeyStr(k: Key): string {
    match k
    case TextKey(text) => text
    case NoneKey => "None"
    case IntKey(n) => PrintInt(n)
    case ErrorKey(_, message) => message
  }

  /** Python's truth of a key. */
  predicate Truthy(k: Key) {
    match k
    case TextKey(text) => text != ""
    case NoneKey => false
    case IntKey(n) => n != 0
    case ErrorKey(_, _) => true
  }

  lemma {:induction false} NewErrorKey(s: Store, message: string)
    ensures L.Lookup(s, ErrorKey(MaxSerial(s) + 1, message)) == None
  {
    NoHigherSerial(s, ErrorKey(MaxSerial(s) + 1, message));
  }

  lemma {:induction false} NoHigherSerial(s: Store, k: Key)
    requires k.ErrorKey? && k.serial > MaxSerial(s)
    ensures L.Lookup(s, k) == None
  {
    if s != [] {
      NoHigherSerial(s[1..], k);
    }
  }

  // ---- Commands ----

  function CommandOf(v: Value): Command {
    if !v.List? || v.items == [] then Ignored
    else if !v.items[0].Reply? then Malformed
    else
      var action := Upper(v.items[0].text);
      if action == "SET" then
        if |v.items| < 3 then Missing("missing arguments") else Set(v.items[1], v.items[2])
      else if action == "GET" then
        if |v.items| < 2 then Missing("missing key parameter") else Get(v.items[1])
      else if action == "DELETE" || action == "DEL" then
        if |v.items| < 2 then Missing("missing key parameter") else Del(v.items[1])
      else if action == "QUIT" then Quit
      else Unknown
  }

  /** The record of an eviction; the source skips it for a key that Python takes for false. */
  function EvictionRecord(evicted: Option<Key>): seq<seq<string>> {
    match evicted
    case Some(k) => if Truthy(k) then [["DEL", KeyStr(k)]] else []
    case None => []
  }

  function OnSet(s: Server, cap: Capacity, k: Key, value: Value): Server {
    Server(L.Set(s.store, cap, k, value),
           s.records + EvictionRecord(L.Evicted(s.store, cap, k)) + [["SET", KeyStr(k), Str(value)]])
  }

  function OnDel(s: Server, k: Key): Server {
    if L.Lookup(s.store, k).Some? then Server(L.Without(s.store, k), s.records + [["DEL", KeyStr(k)]]) else s
  }

  function Execute(s: Server, cap: Capacity, c: Command): Server {
    match c
    case Set(key, value) => (match KeyOf(s.store, key) case Some(k) => OnSet(s, cap, k, value) case None => s)
    case Get(key) => (match KeyOf(s.store, key) case Some(k) => s.(store := L.Get(s.store, k)) case None => s)
    case Del(key) => (match KeyOf(s.store, key) case Some(k) => OnDel(s, k) case None => s)
    case _ => s
  }

  function LookupValue(s: Store, key: Value): Option<Value> {
    match KeyOf(s, key)
    case Some(k) => L.Lookup(s, k)
    case None => None
  }

  /** Does the command raise, which closes the connection? A list as a key, or a stored value without a length. */
  predicate Raises(s: Server, c: Command) {
    match c
    case Malformed => true
    case Set(key, _) => key.List?
    case Get(key) =>
      key.List? || (match LookupValue(s.store, key) case Some(v) => v.Number? || v.Failure? case None => false)
    case Del(key) => key.List?
    case _ => false
  }

  /** The answer to a GET that found `value`: its Python length, and its text. */
  function Found(value: Value): string {
    match value
    case Reply(text) => "$" + PrintNat(|text|) + CRLF + text + CRLF
    case List(items) => "$" + PrintNat(|items|) + CRLF + Str(value) + CRLF
    case _ => "$-1\r\n"
  }

  function Answer(s: Server, c: Command): string {
    if Raises(s, c) then ""
    else
      match c
      case Set(_, _) => "+OK\r\n"
      case Get(key) => (match LookupValue(s.store, key) case Some(value) => Found(value) case None => "$-1\r\n")
      case Del(key) => if LookupValue(s.store, key).Some? then ":1\r\n" else ":0\r\n"
      case Quit => "+OK\r\n"
      case Missing(message) => "-ERR " + message + CRLF
      case Unknown => "-ERR unknown command syntax\r\n"
      case _ => ""
  }

  /** The connection goes on after the command. */
  predicate Continues(s: Server, c: Command) { c != Quit && !Raises(s, c) }

  /** The server after it has worked off a buffer: its state, the unread text, what it sent, and whether it goes on. */
  datatype Served = Served(server: Server, rest: string, output: string, open: bool)

  function Serve(s: Server, cap: Capacity, buffer: string, output: string): Served
    decreases |buffer|
  {
    match Parse(buffer)
    case Raised => Served(s, buffer, output, false)
    case Parsed(value, rest) =>
      if value == Null then Served(s, buffer, output, true)
      else
        var c := CommandOf(value);
        if Continues(s, c) then Serve(Execute(s, cap, c), cap, rest, output + Answer(s, c))
        else Served(Execute(s, cap, c), rest, output + Answer(s, c), false)
  }

  // ---- Replay ----

  /** One record of the log; None where the source raises: an action that is not text, or a list as a key. */
  function ReplayValue(store: Store, cap: Capacity, v: Value): Option<Store> {
    if !v.List? || |v.items| < 2 then Some(store)
    else if !v.items[0].Reply? then None
    else
      var action := Upper(v.items[0].text);
      if action == "SET" && |v.items| >= 3 then
        (match KeyOf(store, v.items[1]) case Some(k) => Some(L.Set(store, cap, k, v.items[2])) case None => None)
      else if action == "DELETE" || action == "DEL" then
        (match KeyOf(store, v.items[1]) case Some(k) => Some(L.Without(store, k)) case None => None)
      else Some(store)
  }

  function Replay(store: Store, cap: Capacity, buffer: string): Option<Store>
    decreases |buffer|
  {
    match Parse(buffer)
    case Raised => None
    case Parsed(value, rest) =>
      if value == Null then Some(store)
      else
        match ReplayValue(store, cap, value)
        case None => None
        case Some(store') => Replay(store', cap, rest)
  }

  /** The store a list of records stands for. */
  function Replayed(cap: Capacity, records: seq<seq<string>>): Store {
    if records == [] then []
    else
      match ReplayValue(Replayed(cap, records[..|records| - 1]), cap, List(Texts(records[|records| - 1])))
      case Some(store) => store
      case None => []
  }

  // ---- The server object ----

  const HEALTH_REPLY :=
    "HTTP/1.1 200 OK\r\nContent-Length: 2\r\nContent-Type: text/plain\r\nConnection: close\r\n\r\nOK"

  class LruCacheServer {
    const maxCapacity: Capacity
    var dataStore: Store
    var log: string
    ghost var records: seq<seq<string>>

    ghost predicate Valid()
      reads this
    {
      log == PrintAll(records)
    }

    ghost function State(): Server
      reads this
    {
      Server(dataStore, records)
    }

    constructor (maxCapacity: Capacity)
      ensures Valid() && State() == Server([], []) && this.maxCapacity == maxCapacity
    {
      this.maxCapacity := maxCapacity;
      dataStore, log, records := [], "", [];
    }

    /** `args` are the arguments after `str()`. */
    method AppendToLog(args: seq<string>)
      requires Valid()
      modifies this`log, this`records
      ensures Valid() && records == old(records) + [args] && log == old(log) + Print(args)
    {
      var req := PrintCommand(args);
      log := log + req;
      records := records + [args];
    }

    method ExecuteLruSet(k: Key, value: Value, logWrite: bool)
      requires Valid()
      modifies this
      ensures Valid()
      ensures logWrite ==> State() == OnSet(old(State()), maxCapacity, k, value)
      ensures !logWrite ==> State() == old(State()).(store := L.Set(old(dataStore), maxCapacity, k, value))
    {
      var evictedKey: Option<Key> := None;
      if L.Lookup(dataStore, k).Some? {
        dataStore := L.Without(dataStore, k) + [L.Entry(k, value)];
      } else {
        if |dataStore| >= maxCapacity {
          evictedKey := Some(dataStore[0].key);
          dataStore := dataStore[1..];
        }
        dataStore := dataStore + [L.Entry(k, value)];
      }
      if logWrite {
        LogSet(evictedKey, k, value);
      }
    }

    /** The log part of a SET: the eviction's DEL first. */
    method LogSet(evictedKey: Option<Key>, k: Key, value: Value)
      requires Valid()
      modifies this`log, this`records
      ensures Valid()
      ensures records == old(records) + EvictionRecord(evictedKey) + [["SET", KeyStr(k), Str(value)]]
    {
      if evictedKey.Some? && Truthy(evictedKey.value) {
        AppendToLog(["DEL", KeyStr(evictedKey.value)]);
      }
      AppendToLog(["SET", KeyStr(k), Str(value)]);
    }

    method ExecuteLruGet(k: Key) returns (value: Option<Value>)
      requires Valid()
      modifies this`dataStore
      ensures Valid() && State() == old(State()).(store := L.Get(old(dataStore), k))
      ensures value == L.Lookup(old(dataStore), k)
    {
      value := L.Lookup(dataStore, k);
      if value.Some? {
        dataStore := L.Without(dataStore, k) + [L.Entry(k, value.value)];
      }
    }

    /** One record of the log, executed without logging it again. */
    method ReplayRecord(value: Value) returns (ok: bool)
      requires Valid()
      modifies this
      ensures Valid() && records == old(records)
      ensures ReplayValue(old(dataStore), maxCapacity, value) == if ok then Some(dataStore) else None
    {
      if !value.List? || |value.items| < 2 {
        return true;
      }
      if !value.items[0].Reply? {
        return false;
      }
      var action := Upper(value.items[0].text);
      var isSet := action == "SET" && |value.items| >= 3;
      if !isSet && action != "DELETE" && action != "DEL" {
        return true;
      }
      var k := KeyOf(dataStore, value.items[1]);
      if k == None {
        return false;
      }
      if isSet {
        ExecuteLruSet(k.value, value.items[2], false);
      } else if L.Lookup(dataStore, k.value).Some? {
        dataStore := L.Without(dataStore, k.value);
      } else {
        L.WithoutSpec(dataStore, k.value);
        L.LookupSpec(dataStore, k.value);
      }
      ok := true;
    }

    /** `contents` is what reading the log file gave; `ok` is false when a record raised. */
    method ReplayAofRecovery(contents: string) returns (ok: bool)
      requires Valid()
      modifies this
      ensures Valid() && records == old(records)
      ensures Replay(old(dataStore), maxCapacity, contents) == if ok then Some(dataStore) else None
    {
      var buffer := contents;
      while buffer != ""
        invariant Valid() && records == old(records)
        invariant Replay(old(dataStore), maxCapacity, contents) == Replay(dataStore, maxCapacity, buffer)
        decreases |buffer|
      {
        var parsed := ParseResp(buffer);
        if parsed.Raised? {
          return false;
        }
        if parsed.value == Null {
          break;
        }
        ok := ReplayRecord(parsed.value);
        if !ok {
          return;
        }
        buffer := parsed.rest;
      }
      ok := true;
    }

    /** A DEL, and the answer to it. */
    method ExecuteDel(k: Key) returns (reply: string)
      requires Valid()
      modifies this
      ensures Valid() && State() == OnDel(old(State()), k)
      ensures reply == if L.Lookup(old(dataStore), k).Some? then ":1\r\n" else ":0\r\n"
    {
      if L.Lookup(dataStore, k).Some? {
        dataStore := L.Without(dataStore, k);
        AppendToLog(["DEL", KeyStr(k)]);
        return ":1\r\n";
      }
      reply := ":0\r\n";
    }

    /** A GET, its answer, and whether it raises on the value it found. */
    method AnswerGet(k: Key) returns (reply: string, raised: bool)
      requires Valid()
      modifies this
      ensures Valid() && State() == old(State()).(store := L.Get(old(dataStore), k))
      ensures var found := L.Lookup(old(dataStore), k);
        && raised == (found.Some? && (found.value.Number? || found.value.Failure?))
        && reply == if raised then "" else if found.Some? then Found(found.value) else "$-1\r\n"
    {
      var value := ExecuteLruGet(k);
      if value == None || value.value == Null {
        return "$-1\r\n", false;
      }
      match value.value
      case Reply(text) => return "$" + PrintNat(|text|) + CRLF + text + CRLF, false;
      case List(items) => return "$" + PrintNat(|items|) + CRLF + Str(value.value) + CRLF, false;
      case _ => return "", true;
    }

    /** One command: what is sent, and whether the connection goes on. */
    method HandleCommand(c: Command) returns (reply: string, open: bool)
      requires Valid()
      modifies this
      ensures Valid() && State() == Execute(old(State()), maxCapacity, c)
      ensures reply == Answer(old(State()), c) && open == Continues(old(State()), c)
    {
      reply, open := "", true;
      match c
      case Malformed => open := false;
      case Ignored =>
      case Unknown => reply := "-ERR unknown command syntax\r\n";
      case Missing(message) => reply := "-ERR " + message + CRLF;
      case Quit => reply, open := "+OK\r\n", false;
      case Set(key, value) =>
        var k := KeyOf(dataStore, key);
        if k == None {
          return "", false;
        }
        ExecuteLruSet(k.value, value, true);
        reply := "+OK\r\n";
      case Get(key) =>
        var k := KeyOf(dataStore, key);
        if k == None {
          return "", false;
        }
        var raised: bool;
        reply, raised := AnswerGet(k.value);
        open := !raised;
      case Del(key) =>
        var k := KeyOf(dataStore, key);
        if k == None {
          return "", false;
        }
        reply := ExecuteDel(k.value);
    }

    /** One received chunk: the text kept for the next one, the bytes sent, and whether the connection stays open. */
    method HandleChunk(kept: string, chunk: string) returns (rest: string, output: string, open: bool)
      requires Valid()
      modifies this
      ensures Valid()
      ensures "GET " <= chunk || "HEAD " <= chunk ==> State() == old(State()) && output == HEALTH_REPLY && !open
      ensures !("GET " <= chunk) && !("HEAD " <= chunk) ==>
        Serve(old(State()), maxCapacity, kept + chunk, "") == Served(State(), rest, output, open)
    {
      if HealthCheck(chunk) {
        return kept, HEALTH_REPLY, false;
      }
      rest, output, open := kept + chunk, "", true;
      while open
        invariant Valid()
        invariant Serve(old(State()), maxCapacity, kept + chunk, "") ==
          if open then Serve(State(), maxCapacity, rest, output) else Served(State(), rest, output, false)
        decreases open, |rest|
      {
        var parsed := ParseResp(rest);
        if parsed.Raised? {
          return rest, output, false;
        }
        if parsed.value == Null {
          return;
        }
        rest := parsed.rest;
        var reply: string;
        reply, open := HandleCommand(CommandOf(parsed.value));
        output := output + reply;
      }
    }
  }
}
