/**
 The task repository of storage/task_repository.py: every write goes to the cache and to the
 table. The store is online and every session commits.
 */
module TaskRepository {
  import opened Wrappers
  import L = LruStore

  datatype Status = Pending | Assigned | Retrying | Completed | Dead

  datatype Row = Row(jobType: string, priority: string, status: Status, retries: nat, worker: Option<string>)

  type Table = map<string, Row>

  /** The cached JSON object: the row's fields, and what updates added to it. */
  datatype Cached = Cached(row: Row, result: Option<string>, error: Option<string>)

  type Cache = L.Store<string, Cached>

  function CacheKey(id: string): string { "task:" + id }

  /** A new worker id is written only when it is given and not empty. */
  function NewWorker(current: Option<string>, given: Option<string>): Option<string> {
    if given.Some? && given.value != "" then given else current
  }

  function Updated(row: Row, status: Status, worker: Option<string>): Row {
    row.(status := status, worker := NewWorker(row.worker, worker))
  }

  // ---- The table ----

  function UpdateRow(t: Table, id: string, status: Status, worker: Option<string>): Table {
    if id in t then t[id := Updated(t[id], status, worker)] else t
  }

  function RetryRow(t: Table, id: string): Table {
    if id in t then t[id := t[id].(retries := t[id].retries + 1)] else t
  }

  predicate AssignedTo(t: Table, id: string, worker: string) {
    id in t && t[id].status == Assigned && t[id].worker == Some(worker)
  }

  /** A listing of the tasks assigned to a worker; the database does not fix its order. */
  ghost predicate Lists(t: Table, worker: string, found: seq<string>) {
    && (forall id :: id in found <==> AssignedTo(t, id, worker))
    && (forall i, j :: 0 <= i < j < |found| ==> found[i] != found[j])
  }

  // ---- The repository: cache and table ----

  datatype Repo = Repo(cache: Cache, table: Table)

  function SaveTask(r: Repo, cap: L.Capacity, id: string, row: Row): Repo {
    Repo(L.Set(r.cache, cap, CacheKey(id), Cached(row, None, None)), r.table[id := row])
  }

  /** Read the cached object, change it, write it back; nothing when it is not cached. */
  function Rewrite(c: Cache, cap: L.Capacity, id: string, change: Cached -> Cached): Cache {
    match L.Lookup(c, CacheKey(id))
    case None => c
    case Some(data) => L.Set(L.Get(c, CacheKey(id)), cap, CacheKey(id), change(data))
  }

  function Or<T>(given: Option<T>, current: Option<T>): Option<T> { if given.Some? then given else current }

  function UpdateStatus(r: Repo, cap: L.Capacity, id: string, status: Status, worker: Option<string>,
                        result: Option<string>, error: Option<string>): Repo {
    Repo(Rewrite(r.cache, cap, id,
                 (d: Cached) => Cached(Updated(d.row, status, worker), Or(result, d.result), Or(error, d.error))),
         UpdateRow(r.table, id, status, worker))
  }

  function IncrementRetry(r: Repo, cap: L.Capacity, id: string): Repo {
    Repo(Rewrite(r.cache, cap, id, (d: Cached) => d.(row := d.row.(retries := d.row.retries + 1))),
         RetryRow(r.table, id))
  }

  class TaskRepository {
    const capacity: L.Capacity
    var cache: Cache
    var table: Table

    ghost function View(): Repo
      reads this
    {
      Repo(cache, table)
    }

    constructor (capacity: L.Capacity)
      ensures View() == Repo([], map[]) && this.capacity == capacity
    {
      this.capacity := capacity;
      cache, table := [], map[];
    }

    method Save(id: string, jobType: string, priority: string, status: Status, retries: nat, worker: Option<string>)
      modifies this
      ensures View() == SaveTask(old(View()), capacity, id, Row(jobType, priority, status, retries, worker))
    {
      var row := Row(jobType, priority, status, retries, worker);
      cache := L.Set(cache, capacity, CacheKey(id), Cached(row, None, None));
      table := table[id := row];
    }

    method Update(id: string, status: Status, worker: Option<string>, result: Option<string>, error: Option<string>)
      modifies this
      ensures View() == UpdateStatus(old(View()), capacity, id, status, worker, result, error)
    {
      var cached := L.Lookup(cache, CacheKey(id));
      cache := L.Get(cache, CacheKey(id));
      if cached.Some? {
        var d := cached.value;
        var row := d.row.(status := status);
        if worker.Some? && worker.value != "" {
          row := row.(worker := worker);
        }
        cache := L.Set(cache, capacity, CacheKey(id), Cached(row, Or(result, d.result), Or(error, d.error)));
      }
      if id in table {
        var row := table[id].(status := status);
        if worker.Some? && worker.value != "" {
          row := row.(worker := worker);
        }
        table := table[id := row];
      }
    }

    method Retry(id: string)
      modifies this
      ensures View() == IncrementRetry(old(View()), capacity, id)
    {
      var cached := L.Lookup(cache, CacheKey(id));
      cache := L.Get(cache, CacheKey(id));
      if cached.Some? {
        var row := cached.value.row;
        cache := L.Set(cache, capacity, CacheKey(id), cached.value.(row := row.(retries := row.retries + 1)));
      }
      if id in table {
        table := table[id := table[id].(retries := table[id].retries + 1)];
      }
    }

    method GetAssignedTasksForWorker(worker: string) returns (found: seq<string>)
      ensures Lists(table, worker, found)
    {
      found := [];
      var ids := table.Keys;
      while ids != {}
        invariant ids <= table.Keys
        invariant forall id :: id in found <==> id !in ids && AssignedTo(table, id, worker)
        invariant forall i, j :: 0 <= i < j < |found| ==> found[i] != found[j]
        decreases ids
      {
        var id :| id in ids;
        if AssignedTo(table, id, worker) {
          found := found + [id];
        }
        ids := ids - {id};
      }
    }
  }

  // ---- Coherence ----

  /** Whatever is still cached for a task agrees with its row in the table. */
  ghost predicate Coherent(r: Repo) {
    && L.Distinct(r.cache)
    && forall e :: e in r.cache ==>
         exists id :: e.key == CacheKey(id) && id in r.table && e.value.row == r.table[id]
  }

  /** One call on the repository, or the cache server losing an entry or everything. */
  datatype Call =
    | Save(id: string, row: Row)
    | Update(id: string, status: Status, worker: Option<string>, result: Option<string>, error: Option<string>)
    | Retry(id: string)
    | Lose(key: string)
    | Restart

  function Apply(r: Repo, cap: L.Capacity, c: Call): Repo {
    match c
    case Save(id, row) => SaveTask(r, cap, id, row)
    case Update(id, status, worker, result, error) => UpdateStatus(r, cap, id, status, worker, result, error)
    case Retry(id) => IncrementRetry(r, cap, id)
    case Lose(key) => r.(cache := L.Without(r.cache, key))
    case Restart => r.(cache := [])
  }

  function Run(cap: L.Capacity, calls: seq<Call>): Repo {
    if calls == [] then Repo([], map[]) else Apply(Run(cap, calls[..|calls| - 1]), cap, calls[|calls| - 1])
  }

  lemma {:induction false} SetEntries(c: Cache, cap: L.Capacity, key: string, value: Cached)
    requires L.Distinct(c)
    ensures L.Distinct(L.Set(c, cap, key, value))
    ensures forall e :: e in L.Set(c, cap, key, value) ==> e == L.Entry(key, value) || (e in c && e.key != key)
  {
    L.LookupSpec(c, key);
    L.WithoutSpec(c, key);
    L.WithoutDistinct(c, key);
    var base := if L.Lookup(c, key).Some? then L.Without(c, key) else if |c| >= cap then c[1..] else c;
    forall e | e in base ensures e in c && e.key != key {
      assert e.key in L.Keys(base);
      assert base == L.Without(c, key) ==> e.key in L.Keys(L.Without(c, key));
      assert e in c ==> e.key in L.Keys(c);
    }
    L.DistinctAppend(base, L.Entry(key, value));
  }

  /** Writing the same row to the cache, if at all, and to the table keeps them coherent. */
  lemma {:induction false} WriteBoth(r: Repo, c: Cache, id: string, row: Row)
    requires Coherent(r) && L.Distinct(c)
    requires forall e :: e in c ==>
      (e.key == CacheKey(id) && e.value.row == row) || (e in r.cache && e.key != CacheKey(id))
    ensures Coherent(Repo(c, r.table[id := row]))
  {
    forall e | e in c
      ensures exists k :: e.key == CacheKey(k) && k in r.table[id := row] && e.value.row == r.table[id := row][k]
    {
      if e.key != CacheKey(id) {
        var k :| e.key == CacheKey(k) && k in r.table && e.value.row == r.table[k];
        assert k in r.table[id := row] && e.value.row == r.table[id := row][k];
      } else {
        assert e.key == CacheKey(id) && id in r.table[id := row];
      }
    }
  }

  /** What is cached for `id` is its row. */
  lemma {:induction false} CachedRow(r: Repo, id: string)
    requires Coherent(r)
    ensures L.Lookup(r.cache, CacheKey(id)).Some? ==>
      id in r.table && L.Lookup(r.cache, CacheKey(id)).value.row == r.table[id]
  {
    L.LookupMember(r.cache, CacheKey(id));
    if L.Lookup(r.cache, CacheKey(id)).Some? {
      var e := L.Entry(CacheKey(id), L.Lookup(r.cache, CacheKey(id)).value);
      var k :| e.key == CacheKey(k) && k in r.table && e.value.row == r.table[k];
      assert CacheKey(k)[5..] == k && CacheKey(id)[5..] == id;
    }
  }

  /** A read-modify-write of the cache beside the same change of the row. */
  lemma {:induction false} RewriteCoherent(r: Repo, cap: L.Capacity, id: string, change: Cached -> Cached, row: Row)
    requires Coherent(r)
    requires id in r.table ==> forall d: Cached :: d.row == r.table[id] ==> change(d).row == row
    ensures id in r.table ==> Coherent(Repo(Rewrite(r.cache, cap, id, change), r.table[id := row]))
    ensures id !in r.table ==> Coherent(Repo(Rewrite(r.cache, cap, id, change), r.table))
  {
    var key, c' := CacheKey(id), Rewrite(r.cache, cap, id, change);
    CachedRow(r, id);
    L.LookupSpec(r.cache, key);
    match L.Lookup(r.cache, key)
    case None =>
      if id in r.table {
        assert forall e :: e in c' ==> e.key in L.Keys(r.cache);
        WriteBoth(r, c', id, row);
      }
    case Some(data) =>
      var c := L.Get(r.cache, key);
      L.GetSpec(r.cache, key);
      L.WithoutSpec(r.cache, key);
      L.LookupMember(r.cache, key);
      SetEntries(c, cap, key, change(data));
      assert forall e :: e in c && e.key != key ==> e in r.cache;
      WriteBoth(r, c', id, row);
  }

  lemma {:induction false} ApplyCoherent(r: Repo, cap: L.Capacity, c: Call)
    requires Coherent(r)
    ensures Coherent(Apply(r, cap, c))
  {
    match c
    case Save(id, row) =>
      SetEntries(r.cache, cap, CacheKey(id), Cached(row, None, None));
      WriteBoth(r, L.Set(r.cache, cap, CacheKey(id), Cached(row, None, None)), id, row);
    case Update(id, status, worker, result, error) =>
      RewriteCoherent(r, cap, id,
        (d: Cached) => Cached(Updated(d.row, status, worker), Or(result, d.result), Or(error, d.error)),
        if id in r.table then Updated(r.table[id], status, worker) else Row("", "", status, 0, None));
    case Retry(id) =>
      RewriteCoherent(r, cap, id, (d: Cached) => d.(row := d.row.(retries := d.row.retries + 1)),
        if id in r.table then r.table[id].(retries := r.table[id].retries + 1) else Row("", "", Pending, 0, None));
    case Lose(key) =>
      L.WithoutSpec(r.cache, key);
      L.WithoutDistinct(r.cache, key);
    case Restart =>
  }

  /**
   Cache and table agree: after any run of saves, updates and retries, with any entries lost to
   eviction, deletion or a restart of the cache, every task still cached shows its table row.
   */
  lemma {:induction false} AlwaysCoherent(cap: L.Capacity, calls: seq<Call>, id: string)
    ensures var r := Run(cap, calls);
      Coherent(r) && (L.Lookup(r.cache, CacheKey(id)).Some? ==>
        id in r.table && L.Lookup(r.cache, CacheKey(id)).value.row == r.table[id])
    decreases |calls|
  {
    if calls != [] {
      AlwaysCoherent(cap, calls[..|calls| - 1], id);
      ApplyCoherent(Run(cap, calls[..|calls| - 1]), cap, calls[|calls| - 1]);
    }
    CachedRow(Run(cap, calls), id);
  }

  // ---- What the calls said ----

  /** All that was said of a task: the last word on each, and the retries counted. */
  datatype Told = Told(jobType: string, priority: string, status: Status, retries: nat, worker: Option<string>,
                       result: Option<string>, error: Option<string>)

  /** The later word, where there is one. */
  function Later(before: Option<string>, now: Option<string>): Option<string> {
    match now
    case None => before
    case Some(_) => now
  }

  /** What was said of `id`; an empty worker id says nothing. */
  function Tell(calls: seq<Call>, id: string): Option<Told> {
    if calls == [] then None
    else
      var before := Tell(calls[..|calls| - 1], id);
      match calls[|calls| - 1]
      case Save(x, row) =>
        if x == id then Some(Told(row.jobType, row.priority, row.status, row.retries, row.worker, None, None))
        else before
      case Update(x, status, worker, result, error) =>
        if x == id && before.Some? then
          var t := before.value;
          Some(t.(status := status, worker := if worker == Some("") then t.worker else Later(t.worker, worker),
                  result := Later(t.result, result), error := Later(t.error, error)))
        else before
      case Retry(x) =>
        if x == id && before.Some? then Some(before.value.(retries := before.value.retries + 1)) else before
      case _ => before
  }

  predicate RowTold(row: Row, t: Told) {
    row == Row(t.jobType, t.priority, t.status, t.retries, t.worker)
  }

  /** The table, and what of it is cached, say what was said. */
  ghost predicate AsTold(r: Repo, calls: seq<Call>, id: string) {
    && (id in r.table <==> Tell(calls, id).Some?)
    && (id in r.table ==> RowTold(r.table[id], Tell(calls, id).value))
    && (var cached := L.Lookup(r.cache, "task:" + id);
        cached.Some? ==>
          && Tell(calls, id).Some? && RowTold(cached.value.row, Tell(calls, id).value)
          && cached.value.result == Tell(calls, id).value.result
          && cached.value.error == Tell(calls, id).value.error)
  }

  lemma {:induction false} OtherKey(a: string, b: string)
    requires a != b
    ensures CacheKey(a) != CacheKey(b)
  {
    assert CacheKey(a)[5..] == a && CacheKey(b)[5..] == b;
  }

  /** After a SET an entry is the one set, or one that was there. */
  lemma {:induction false} SetLookup(c: Cache, cap: L.Capacity, key: string, value: Cached, j: string)
    requires L.Distinct(c)
    ensures L.Distinct(L.Set(c, cap, key, value))
    ensures L.Lookup(L.Set(c, cap, key, value), key) == Some(value)
    ensures j != key && L.Lookup(L.Set(c, cap, key, value), j).Some? ==>
      L.Lookup(L.Set(c, cap, key, value), j) == L.Lookup(c, j)
  {
    var c' := L.Set(c, cap, key, value);
    SetEntries(c, cap, key, value);
    L.LookupMember(c', j);
    L.LookupMember(c', key);
    L.LookupSpec(c', key);
    assert c'[|c'| - 1] == L.Entry(key, value);
    if j != key && L.Lookup(c', j).Some? {
      L.LookupSpec(c, j);
    }
  }

  lemma {:induction false} GetLookup(c: Cache, key: string, j: string)
    requires L.Distinct(c)
    ensures L.Distinct(L.Get(c, key))
    ensures L.Lookup(L.Get(c, key), j).Some? ==> L.Lookup(L.Get(c, key), j) == L.Lookup(c, j)
  {
    L.GetSpec(c, key);
    L.LookupMember(L.Get(c, key), j);
    L.LookupMember(c, key);
    L.WithoutSpec(c, key);
    L.LookupSpec(c, j);
  }

  lemma {:induction false} WithoutLookup(c: Cache, key: string, j: string)
    requires L.Distinct(c)
    ensures L.Lookup(L.Without(c, key), j).Some? ==> L.Lookup(L.Without(c, key), j) == L.Lookup(c, j)
  {
    L.LookupMember(L.Without(c, key), j);
    L.WithoutSpec(c, key);
    L.LookupSpec(c, j);
  }

  lemma {:induction false} RewriteLookup(c: Cache, cap: L.Capacity, id: string, change: Cached -> Cached, x: string)
    requires L.Distinct(c)
    ensures var c' := Rewrite(c, cap, id, change); var key := CacheKey(x);
      L.Lookup(c', key).Some? ==>
        && L.Lookup(c, key).Some?
        && L.Lookup(c', key).value == if x == id then change(L.Lookup(c, key).value) else L.Lookup(c, key).value
  {
    if L.Lookup(c, CacheKey(id)).Some? {
      var c1 := L.Get(c, CacheKey(id));
      GetLookup(c, CacheKey(id), CacheKey(x));
      SetLookup(c1, cap, CacheKey(id), change(L.Lookup(c, CacheKey(id)).value), CacheKey(x));
      if x != id {
        OtherKey(x, id);
      }
    }
  }

  lemma {:induction false} ToldStep(r: Repo, cap: L.Capacity, calls: seq<Call>, c: Call, id: string)
    requires L.Distinct(r.cache) && AsTold(r, calls, id)
    ensures AsTold(Apply(r, cap, c), calls + [c], id)
  {
    assert (calls + [c])[..|calls|] == calls;
    match c
    case Save(x, row) =>
      SetLookup(r.cache, cap, CacheKey(x), Cached(row, None, None), CacheKey(id));
      if x != id {
        OtherKey(x, id);
      }
    case Update(x, status, worker, result, error) =>
      RewriteLookup(r.cache, cap, x,
        (d: Cached) => Cached(Updated(d.row, status, worker), Or(result, d.result), Or(error, d.error)), id);
    case Retry(x) => RewriteLookup(r.cache, cap, x, (d: Cached) => d.(row := d.row.(retries := d.row.retries + 1)), id);
    case Lose(key) => WithoutLookup(r.cache, key, CacheKey(id));
    case Restart =>
  }

  /**
   After any run of calls, with any entries lost, the row of a task is exactly what was said of it
   since it was last saved: the last status, the last worker named, every retry counted; and what is
   still cached says the same, with the last result and the last error.
   */
  lemma {:induction false} AlwaysAsTold(cap: L.Capacity, calls: seq<Call>, id: string)
    ensures AsTold(Run(cap, calls), calls, id)
    decreases |calls|
  {
    hide Apply, AsTold;
    if calls == [] {
      NothingTold(id);
    } else {
      var init := calls[..|calls| - 1];
      AlwaysAsTold(cap, init, id);
      AlwaysCoherent(cap, init, id);
      ToldStep(Run(cap, init), cap, init, calls[|calls| - 1], id);
      assert init + [calls[|calls| - 1]] == calls;
    }
  }

  lemma {:induction false} NothingTold(id: string)
    ensures AsTold(Repo([], map[]), [], id)
  {
  }
}
