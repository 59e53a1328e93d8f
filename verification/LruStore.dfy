/**
 The ordered dictionary of cache/lru_cache.py with recency updates and eviction, and the
 inclusion property of the LRU policy: a larger capacity only ever adds entries.
 */
module LruStore {
  import opened Wrappers

  datatype Entry<K, V> = Entry(key: K, value: V)

  /** An ordered dictionary, least recently used entry first. */
  type Store<K, V> = seq<Entry<K, V>>

  type Capacity = n: nat | n >= 1 witness 1

  ghost function Keys<K, V>(s: Store<K, V>): set<K> { set e | e in s :: e.key }

  ghost predicate Distinct<K, V>(s: Store<K, V>) {
    forall i, j :: 0 <= i < j < |s| ==> s[i].key != s[j].key
  }

  function Lookup<K(==), V>(s: Store<K, V>, k: K): Option<V> {
    if s == [] then None else if s[0].key == k then Some(s[0].value) else Lookup(s[1..], k)
  }

  /** `del s[k]`, or nothing when the key is absent. */
  function Without<K(==), V>(s: Store<K, V>, k: K): Store<K, V> {
    if s == [] then [] else if s[0].key == k then Without(s[1..], k) else [s[0]] + Without(s[1..], k)
  }

  /** The entry dropped to make room for a new key: the oldest one, when the store is full. */
  function Evicted<K(==), V>(s: Store<K, V>, cap: Capacity, k: K): Option<K> {
    if Lookup(s, k) == None && |s| >= cap then Some(s[0].key) else None
  }

  /** `execute_lru_set` without its logging. */
  function Set<K(==), V>(s: Store<K, V>, cap: Capacity, k: K, v: V): Store<K, V> {
    (if Lookup(s, k).Some? then Without(s, k) else if |s| >= cap then s[1..] else s) + [Entry(k, v)]
  }

  /** `execute_lru_get`: a hit becomes the most recent entry. */
  function Get<K(==), V>(s: Store<K, V>, k: K): Store<K, V> {
    match Lookup(s, k)
    case None => s
    case Some(v) => Without(s, k) + [Entry(k, v)]
  }

  // ---- Elementary facts ----

  lemma {:induction false} LookupSpec<K, V>(s: Store<K, V>, k: K)
    ensures Lookup(s, k) == None <==> k !in Keys(s)
    ensures forall i :: 0 <= i < |s| && s[i].key == k && Distinct(s) ==> Lookup(s, k) == Some(s[i].value)
  {
    if s != [] {
      LookupSpec(s[1..], k);
      assert Keys(s) == {s[0].key} + Keys(s[1..]);
      if Distinct(s) {
        assert Distinct(s[1..]);
        forall i | 0 <= i < |s| && s[i].key == k ensures Lookup(s, k) == Some(s[i].value) {
          if i > 0 {
            assert s[1..][i - 1] == s[i];
          }
        }
      }
    }
  }

  lemma {:induction false} WithoutSpec<K, V>(s: Store<K, V>, k: K)
    ensures Keys(Without(s, k)) == Keys(s) - {k}
    ensures forall e :: e in Without(s, k) ==> e in s
    ensures k !in Keys(s) ==> Without(s, k) == s
  {
    if s != [] {
      var t := s[1..];
      WithoutSpec(t, k);
      assert s == [s[0]] + t;
      assert Keys(s) == {s[0].key} + Keys(t);
      if s[0].key != k {
        assert Keys([s[0]] + Without(t, k)) == {s[0].key} + Keys(Without(t, k));
      }
    }
  }

  lemma {:induction false} WithoutDistinct<K, V>(s: Store<K, V>, k: K)
    requires Distinct(s)
    ensures Distinct(Without(s, k))
    ensures |Without(s, k)| == |s| - (if k in Keys(s) then 1 else 0)
  {
    if s != [] {
      HeadDistinct(s);
      WithoutDistinct(s[1..], k);
      WithoutSpec(s[1..], k);
      if s[0].key != k {
        PrependDistinct(s[0], Without(s[1..], k));
      }
    }
  }

  lemma {:induction false} HeadDistinct<K, V>(s: Store<K, V>)
    requires Distinct(s) && s != []
    ensures Distinct(s[1..]) && s[0].key !in Keys(s[1..])
    ensures Keys(s) == {s[0].key} + Keys(s[1..])
  {
    assert forall i :: 0 < i < |s| ==> s[1..][i - 1] == s[i];
    assert s == [s[0]] + s[1..];
  }

  lemma {:induction false} PrependDistinct<K, V>(e: Entry<K, V>, s: Store<K, V>)
    requires Distinct(s) && e.key !in Keys(s)
    ensures Distinct([e] + s)
  {
    assert forall i :: 0 <= i < |s| ==> s[i] in s;
  }

  lemma {:induction false} DistinctAppend<K, V>(s: Store<K, V>, e: Entry<K, V>)
    requires Distinct(s) && e.key !in Keys(s)
    ensures Distinct(s + [e]) && Keys(s + [e]) == Keys(s) + {e.key}
  {
    forall i | 0 <= i < |s| ensures (s + [e])[i].key != e.key {
      assert s[i] in s;
    }
  }

  /** Every operation keeps the keys distinct and the size within the capacity. */
  lemma {:induction false} SetSpec<K, V>(s: Store<K, V>, cap: Capacity, k: K, v: V)
    requires Distinct(s) && |s| <= cap
    ensures Distinct(Set(s, cap, k, v)) && |Set(s, cap, k, v)| <= cap
    ensures Lookup(Set(s, cap, k, v), k) == Some(v)
    ensures Keys(Set(s, cap, k, v)) ==
      Keys(s) - (match Evicted(s, cap, k) case Some(x) => {x} case None => {}) + {k}
  {
    LookupSpec(s, k);
    WithoutSpec(s, k);
    var base := if Lookup(s, k).Some? then Without(s, k) else if |s| >= cap then s[1..] else s;
    WithoutDistinct(s, k);
    if Lookup(s, k).None? && |s| >= cap {
      HeadDistinct(s);
    }
    assert k !in Keys(base) && Distinct(base);
    DistinctAppend(base, Entry(k, v));
    LookupSpec(base + [Entry(k, v)], k);
    assert (base + [Entry(k, v)])[|base|].key == k;
  }

  lemma {:induction false} GetSpec<K, V>(s: Store<K, V>, k: K)
    requires Distinct(s)
    ensures Distinct(Get(s, k)) && |Get(s, k)| == |s|
    ensures Keys(Get(s, k)) == Keys(s)
  {
    LookupSpec(s, k);
    WithoutSpec(s, k);
    WithoutDistinct(s, k);
    if Lookup(s, k).Some? {
      DistinctAppend(Without(s, k), Entry(k, Lookup(s, k).value));
    }
  }

  // ---- The entries with given keys, in order ----

  ghost function Keep<K, V>(s: Store<K, V>, keys: set<K>): Store<K, V> {
    if s == [] then [] else if s[0].key in keys then [s[0]] + Keep(s[1..], keys) else Keep(s[1..], keys)
  }

  /** `a` is what remains of `b` after dropping some entries: same order, same values. */
  ghost predicate SubStore<K, V>(a: Store<K, V>, b: Store<K, V>) { a == Keep(b, Keys(a)) }

  /** The usual definition of a subsequence. */
  ghost predicate Subsequence<T>(a: seq<T>, b: seq<T>) {
    if a == [] then true
    else if b == [] then false
    else if a[0] == b[0] && Subsequence(a[1..], b[1..]) then true
    else Subsequence(a, b[1..])
  }

  lemma {:induction false} KeepIsSubsequence<K, V>(s: Store<K, V>, keys: set<K>)
    ensures Subsequence(Keep(s, keys), s)
  {
    if s != [] {
      KeepIsSubsequence(s[1..], keys);
      assert s[0].key in keys ==> Keep(s, keys)[0] == s[0] && Keep(s, keys)[1..] == Keep(s[1..], keys);
    }
  }

  lemma {:induction false} KeepAppend<K, V>(s: Store<K, V>, t: Store<K, V>, keys: set<K>)
    ensures Keep(s + t, keys) == Keep(s, keys) + Keep(t, keys)
  {
    if s == [] {
      assert s + t == t;
    } else {
      KeepAppend(s[1..], t, keys);
      assert (s + t)[1..] == s[1..] + t;
    }
  }

  lemma {:induction false} KeepWithout<K, V>(s: Store<K, V>, k: K, keys: set<K>)
    ensures Keep(Without(s, k), keys) == Without(Keep(s, keys), k)
  {
    if s != [] {
      var t := s[1..];
      KeepWithout(t, k, keys);
      if s[0].key != k {
        assert ([s[0]] + Without(t, k))[1..] == Without(t, k);
      }
      if s[0].key in keys {
        assert ([s[0]] + Keep(t, keys))[1..] == Keep(t, keys);
      }
    }
  }

  lemma {:induction false} KeepAgain<K, V>(s: Store<K, V>, more: set<K>, fewer: set<K>)
    requires fewer <= more
    ensures Keep(Keep(s, more), fewer) == Keep(s, fewer)
  {
    if s != [] {
      KeepAgain(s[1..], more, fewer);
      if s[0].key in more {
        assert ([s[0]] + Keep(s[1..], more))[1..] == Keep(s[1..], more);
      }
    }
  }

  lemma {:induction false} KeepSame<K, V>(s: Store<K, V>, a: set<K>, b: set<K>)
    requires forall k :: k in Keys(s) ==> (k in a <==> k in b)
    ensures Keep(s, a) == Keep(s, b)
    ensures a >= Keys(s) ==> Keep(s, a) == s
  {
    if s != [] {
      assert Keys(s) == {s[0].key} + Keys(s[1..]);
      KeepSame(s[1..], a, b);
      assert s[0].key in a <==> s[0].key in b;
      assert s == [s[0]] + s[1..];
    }
  }

  lemma {:induction false} SubStoreKeys<K, V>(a: Store<K, V>, b: Store<K, V>)
    requires SubStore(a, b)
    ensures Keys(a) <= Keys(b) && Subsequence(a, b)
    ensures forall k :: Distinct(a) && Distinct(b) && k in Keys(a) ==> Lookup(a, k) == Lookup(b, k)
  {
    KeepIsSubsequence(b, Keys(a));
    KeepMembers(b, Keys(a));
    forall k | Distinct(a) && Distinct(b) && k in Keys(a) ensures Lookup(a, k) == Lookup(b, k) {
      var e :| e in a && e.key == k;
      LookupSpec(a, k);
      LookupSpec(b, k);
    }
  }

  lemma {:induction false} KeepMembers<K, V>(s: Store<K, V>, keys: set<K>)
    ensures forall e :: e in Keep(s, keys) ==> e in s
    ensures |Keep(s, keys)| <= |s|
  {
    if s != [] {
      KeepMembers(s[1..], keys);
    }
  }

  // ---- Inclusion is kept by every step ----

  lemma {:induction false} SubStoreWithout<K, V>(a: Store<K, V>, b: Store<K, V>, k: K)
    requires SubStore(a, b)
    ensures SubStore(Without(a, k), Without(b, k))
  {
    WithoutSpec(a, k);
    WithoutSpec(b, k);
    KeepWithout(b, k, Keys(a));
    KeepSame(Without(b, k), Keys(a), Keys(Without(a, k)));
  }

  lemma {:induction false} SubStoreAppend<K, V>(a: Store<K, V>, b: Store<K, V>, e: Entry<K, V>)
    requires SubStore(a, b) && e.key !in Keys(b)
    ensures SubStore(a + [e], b + [e])
  {
    var keys := Keys(a + [e]);
    assert keys == Keys(a) + {e.key};
    KeepAppend(b, [e], keys);
    KeepSame(b, keys, Keys(a));
    assert Keep([e], keys) == [e];
  }

  lemma {:induction false} SubStoreDropSmall<K, V>(a: Store<K, V>, b: Store<K, V>)
    requires SubStore(a, b) && a != [] && Distinct(a)
    ensures SubStore(a[1..], b)
  {
    HeadDistinct(a);
    KeepAgain(b, Keys(a), Keys(a[1..]));
    KeepSame(a[1..], Keys(a[1..]), Keys(a[1..]));
  }

  lemma {:induction false} SubStoreDropBig<K, V>(a: Store<K, V>, b: Store<K, V>)
    requires SubStore(a, b) && b != [] && b[0].key !in Keys(a)
    ensures SubStore(a, b[1..])
  {
  }

  /** The smaller cache holds a subsequence of the larger one, which is at most the extra capacity longer. */
  ghost predicate Included<K, V>(a: Store<K, V>, ca: Capacity, b: Store<K, V>, cb: Capacity) {
    && Distinct(a) && Distinct(b)
    && |a| <= ca && |b| <= cb
    && SubStore(a, b)
    && |b| - |a| <= cb - ca
  }

  lemma {:induction false} SubStoreEvict<K, V>(a: Store<K, V>, b: Store<K, V>)
    requires SubStore(a, b) && a != [] && b != [] && Distinct(a) && Distinct(b)
    ensures SubStore(a[1..], b[1..])
  {
    SubStoreDropSmall(a, b);
    HeadDistinct(a);
    if b[0].key in Keys(a) {
      assert a[0] == b[0];
    }
    assert b[0].key !in Keys(a[1..]);
    SubStoreDropBig(a[1..], b);
  }

  lemma {:induction false} SetSize<K, V>(s: Store<K, V>, cap: Capacity, k: K, v: V)
    requires Distinct(s) && |s| <= cap
    ensures |Set(s, cap, k, v)| == if k in Keys(s) || |s| == cap then |s| else |s| + 1
  {
    LookupSpec(s, k);
    WithoutDistinct(s, k);
  }

  /** The room made for a new entry keeps inclusion, whether either store had the key or had to evict. */
  lemma {:induction false} SetIncluded<K, V>(a: Store<K, V>, ca: Capacity, b: Store<K, V>, cb: Capacity, k: K, v: V)
    requires Included(a, ca, b, cb) && ca <= cb
    ensures Included(Set(a, ca, k, v), ca, Set(b, cb, k, v), cb)
  {
    SetSpec(a, ca, k, v);
    SetSpec(b, cb, k, v);
    SetSize(a, ca, k, v);
    SetSize(b, cb, k, v);
    SubStoreKeys(a, b);
    LookupSpec(a, k);
    LookupSpec(b, k);
    if k in Keys(b) {
      SetIncludedHit(a, ca, b, k, Entry(k, v));
    } else {
      SetIncludedNew(a, ca, b, cb, Entry(k, v));
    }
  }

  lemma {:induction false} SetIncludedHit<K, V>(a: Store<K, V>, ca: Capacity, b: Store<K, V>, k: K, e: Entry<K, V>)
    requires SubStore(a, b) && Distinct(a) && e.key == k
    ensures k in Keys(a) || |a| < ca ==> SubStore(Without(a, k) + [e], Without(b, k) + [e])
    ensures k !in Keys(a) ==> Without(a, k) == a
    ensures k !in Keys(a) && |a| >= ca ==> SubStore(a[1..] + [e], Without(b, k) + [e])
  {
    WithoutSpec(a, k);
    WithoutSpec(b, k);
    SubStoreWithout(a, b, k);
    SubStoreAppend(Without(a, k), Without(b, k), e);
    if k !in Keys(a) && |a| >= ca {
      SubStoreDropSmall(a, Without(b, k));
      SubStoreAppend(a[1..], Without(b, k), e);
    }
  }

  lemma {:induction false} SetIncludedNew<K, V>(a: Store<K, V>, ca: Capacity, b: Store<K, V>, cb: Capacity,
                                        e: Entry<K, V>)
    requires Included(a, ca, b, cb) && e.key !in Keys(b)
    ensures SubStore((if |a| >= ca then a[1..] else a) + [e], (if |b| >= cb then b[1..] else b) + [e])
  {
    var a' := if |a| >= ca then a[1..] else a;
    var b' := if |b| >= cb then b[1..] else b;
    if |a| >= ca {
      if |b| >= cb {
        SubStoreEvict(a, b);
      } else {
        SubStoreDropSmall(a, b);
      }
    }
    assert forall x :: x in b' ==> x in b;
    SubStoreAppend(a', b', e);
  }

  lemma {:induction false} GetIncluded<K, V>(a: Store<K, V>, ca: Capacity, b: Store<K, V>, cb: Capacity, k: K)
    requires Included(a, ca, b, cb)
    ensures Included(Get(a, k), ca, Get(b, k), cb)
  {
    GetSpec(a, k);
    GetSpec(b, k);
    SubStoreKeys(a, b);
    LookupSpec(a, k);
    LookupSpec(b, k);
    WithoutSpec(a, k);
    WithoutSpec(b, k);
    SubStoreWithout(a, b, k);
    if k in Keys(a) {
      SubStoreAppend(Without(a, k), Without(b, k), Entry(k, Lookup(b, k).value));
    } else if k in Keys(b) {
      var e := Entry(k, Lookup(b, k).value);
      KeepAppend(Without(b, k), [e], Keys(a));
      assert Keep([e], Keys(a)) == [];
    }
  }

  lemma {:induction false} DelIncluded<K, V>(a: Store<K, V>, ca: Capacity, b: Store<K, V>, cb: Capacity, k: K)
    requires Included(a, ca, b, cb)
    ensures Included(Without(a, k), ca, Without(b, k), cb)
  {
    SubStoreKeys(a, b);
    WithoutDistinct(a, k);
    WithoutDistinct(b, k);
    SubStoreWithout(a, b, k);
  }

  // ---- Whole traces ----

  datatype Request<K, V> = SetKey(key: K, value: V) | GetKey(key: K) | DelKey(key: K)

  function Apply<K(==), V>(s: Store<K, V>, cap: Capacity, r: Request<K, V>): Store<K, V> {
    match r
    case SetKey(k, v) => Set(s, cap, k, v)
    case GetKey(k) => Get(s, k)
    case DelKey(k) => Without(s, k)
  }

  function Run<K(==), V>(cap: Capacity, trace: seq<Request<K, V>>): Store<K, V> {
    if trace == [] then [] else Apply(Run(cap, trace[..|trace| - 1]), cap, trace[|trace| - 1])
  }

  /** For every trace, the smaller cache stays included in the larger one. */
  lemma {:induction false} Inclusion<K, V>(trace: seq<Request<K, V>>, ca: Capacity, cb: Capacity)
    requires ca <= cb
    ensures Included(Run(ca, trace), ca, Run(cb, trace), cb)
  {
    if trace != [] {
      var init := trace[..|trace| - 1];
      Inclusion(init, ca, cb);
      var a, b := Run(ca, init), Run(cb, init);
      match trace[|trace| - 1]
      case SetKey(k, v) => SetIncluded(a, ca, b, cb, k, v);
      case GetKey(k) => GetIncluded(a, ca, b, cb, k);
      case DelKey(k) => DelIncluded(a, ca, b, cb, k);
    }
  }

  /**
   Raising the capacity never turns a hit into a miss: after any trace the small store is, in
   recency order, a subsequence of the large one, and every hit of the small one is the same
   hit in the large one.
   */
  lemma {:induction false} NoLostHits<K, V>(trace: seq<Request<K, V>>, ca: Capacity, cb: Capacity, k: K)
    requires ca <= cb
    ensures Subsequence(Run(ca, trace), Run(cb, trace))
    ensures Lookup(Run(ca, trace), k).Some? ==> Lookup(Run(cb, trace), k) == Lookup(Run(ca, trace), k)
  {
    Inclusion(trace, ca, cb);
    SubStoreKeys(Run(ca, trace), Run(cb, trace));
    LookupSpec(Run(ca, trace), k);
  }

  // ---- What the order and the values mean ----

  /** The plain dictionary the cache stands for: the value last written under `k` and not deleted since. */
  function LastWritten<K(==), V>(trace: seq<Request<K, V>>, k: K): Option<V> {
    if trace == [] then None
    else
      var last := trace[|trace| - 1];
      if last.SetKey? && last.key == k then Some(last.value)
      else if last.DelKey? && last.key == k then None
      else LastWritten(trace[..|trace| - 1], k)
  }

  /** When `k` was last set, or read while present. */
  function LastUse<K(==), V>(cap: Capacity, trace: seq<Request<K, V>>, k: K): nat {
    if trace == [] then 0
    else
      var init, last := trace[..|trace| - 1], trace[|trace| - 1];
      if last.key == k && (last.SetKey? || (last.GetKey? && Lookup(Run(cap, init), k).Some?)) then |trace|
      else LastUse(cap, init, k)
  }

  ghost predicate ByLastUse<K, V>(s: Store<K, V>, cap: Capacity, trace: seq<Request<K, V>>) {
    forall i, j :: 0 <= i < j < |s| ==> LastUse(cap, trace, s[i].key) < LastUse(cap, trace, s[j].key)
  }

  /** Later elements of a store come from later elements of the store it was cut from. */
  lemma {:induction false} WithoutOrder<K, V>(s: Store<K, V>, k: K, cap: Capacity, trace: seq<Request<K, V>>)
    requires ByLastUse(s, cap, trace)
    ensures ByLastUse(Without(s, k), cap, trace)
  {
    if s != [] {
      var t := s[1..];
      assert forall i :: 0 <= i < |t| ==> t[i] == s[i + 1];
      WithoutOrder(t, k, cap, trace);
      WithoutSpec(t, k);
      forall e | e in Without(t, k) ensures LastUse(cap, trace, s[0].key) < LastUse(cap, trace, e.key) {
        var i :| 0 <= i < |t| && t[i] == e;
      }
    }
  }

  lemma {:induction false} LastUseBound<K, V>(cap: Capacity, trace: seq<Request<K, V>>, k: K)
    ensures LastUse(cap, trace, k) <= |trace|
  {
    if trace != [] {
      LastUseBound(cap, trace[..|trace| - 1], k);
    }
  }

  /** Is the entry named by the request written or moved to the end? */
  predicate Touches<K(==), V>(s: Store<K, V>, r: Request<K, V>) {
    r.SetKey? || (r.GetKey? && Lookup(s, r.key).Some?)
  }

  /** The entries a request leaves in place, in order. */
  function KeptPart<K(==), V>(s: Store<K, V>, cap: Capacity, r: Request<K, V>): Store<K, V> {
    if r.DelKey? || (Touches(s, r) && Lookup(s, r.key).Some?) then Without(s, r.key)
    else if r.SetKey? && |s| >= cap then s[1..]
    else s
  }

  lemma {:induction false} ApplyKeeps<K, V>(s: Store<K, V>, cap: Capacity, r: Request<K, V>)
    ensures forall e :: e in KeptPart(s, cap, r) ==> e in s && (e.key == r.key ==> !Touches(s, r) && !r.DelKey?)
    ensures !Touches(s, r) ==> Apply(s, cap, r) == KeptPart(s, cap, r)
    ensures r.SetKey? ==> Apply(s, cap, r) == KeptPart(s, cap, r) + [Entry(r.key, r.value)]
    ensures r.GetKey? && Touches(s, r) ==> Entry(r.key, Lookup(s, r.key).value) in s
    ensures r.GetKey? && Touches(s, r) ==>
      Apply(s, cap, r) == KeptPart(s, cap, r) + [Entry(r.key, Lookup(s, r.key).value)]
  {
    LookupSpec(s, r.key);
    WithoutSpec(s, r.key);
    LookupMember(s, r.key);
    forall e | e in KeptPart(s, cap, r) ensures e in s && (e.key == r.key ==> !Touches(s, r) && !r.DelKey?) {
      if r.DelKey? || (Touches(s, r) && Lookup(s, r.key).Some?) {
        assert e.key in Keys(Without(s, r.key));
      } else {
        assert e.key in Keys(s);
      }
    }
  }

  lemma {:induction false} LookupMember<K, V>(s: Store<K, V>, k: K)
    ensures Lookup(s, k).Some? ==> Entry(k, Lookup(s, k).value) in s
  {
    if s != [] {
      LookupMember(s[1..], k);
    }
  }

  /** Whatever the cache still holds is what was last written under that key. */
  lemma {:induction false} Freshness<K, V>(cap: Capacity, trace: seq<Request<K, V>>)
    ensures forall e :: e in Run(cap, trace) ==> LastWritten(trace, e.key) == Some(e.value)
  {
    if trace != [] {
      var init, last := trace[..|trace| - 1], trace[|trace| - 1];
      Freshness(cap, init);
      ApplyKeeps(Run(cap, init), cap, last);
    }
  }

  lemma {:induction false} KeptOrder<K, V>(cap: Capacity, init: seq<Request<K, V>>, trace: seq<Request<K, V>>,
                                        r: Request<K, V>)
    requires trace == init + [r] && ByLastUse(Run(cap, init), cap, init)
    ensures var kept := KeptPart(Run(cap, init), cap, r);
      ByLastUse(kept, cap, trace) && forall e :: e in kept ==> LastUse(cap, trace, e.key) <= |init|
  {
    var s := Run(cap, init);
    var kept := KeptPart(s, cap, r);
    assert trace[..|trace| - 1] == init;
    WithoutOrder(s, r.key, cap, init);
    ApplyKeeps(s, cap, r);
    assert ByLastUse(kept, cap, init);
    forall e | e in kept ensures LastUse(cap, trace, e.key) == LastUse(cap, init, e.key) <= |init| {
      LastUseBound(cap, init, e.key);
    }
    assert forall i :: 0 <= i < |kept| ==> kept[i] in kept;
  }

  /**
   The entries stand in the order of their last use, so the one evicted to make room is the
   least recently used.
   */
  lemma {:induction false} RecencyOrder<K, V>(cap: Capacity, trace: seq<Request<K, V>>)
    ensures ByLastUse(Run(cap, trace), cap, trace)
  {
    if trace != [] {
      var init, last := trace[..|trace| - 1], trace[|trace| - 1];
      var s := Run(cap, init);
      RecencyOrder(cap, init);
      assert trace == init + [last];
      KeptOrder(cap, init, trace, last);
      ApplyKeeps(s, cap, last);
      var kept := KeptPart(s, cap, last);
      assert forall i :: 0 <= i < |kept| ==> kept[i] in kept;
      assert Touches(s, last) ==> LastUse(cap, trace, last.key) == |trace|;
    }
  }
}
