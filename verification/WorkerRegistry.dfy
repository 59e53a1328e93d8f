/** The worker registry of coordinator/worker_registry.py. */
module WorkerRegistry {
  datatype Worker = Worker(capacity: int, load: int, lastHeartbeat: real)

  /** A Python dict of workers: its keys in insertion order, and their data. */
  datatype Registry = Registry(order: seq<string>, workers: map<string, Worker>) {
    ghost predicate Valid() {
      && (forall w :: w in order <==> w in workers)
      && NoDuplicates(order)
    }
  }

  const EMPTY := Registry([], map[])

  /** Registering again resets the load and keeps the place in the order. */
  function Register(r: Registry, w: string, capacity: int, now: real): Registry {
    Registry(if w in r.workers then r.order else r.order + [w], r.workers[w := Worker(capacity, 0, now)])
  }

  function Heartbeat(r: Registry, w: string, now: real): Registry {
    if w in r.workers then r.(workers := r.workers[w := r.workers[w].(lastHeartbeat := now)]) else r
  }

  function Increment(r: Registry, w: string): Registry {
    if w in r.workers then r.(workers := r.workers[w := r.workers[w].(load := r.workers[w].load + 1)]) else r
  }

  function Decrement(r: Registry, w: string): Registry {
    if w in r.workers then
      var load := r.workers[w].load - 1;
      r.(workers := r.workers[w := r.workers[w].(load := if load < 0 then 0 else load)])
    else r
  }

  function Filter(order: seq<string>, keep: string -> bool): (s: seq<string>)
    ensures forall w :: w in s <==> w in order && keep(w)
  {
    if order == [] then []
    else if keep(order[0]) then [order[0]] + Filter(order[1..], keep)
    else Filter(order[1..], keep)
  }

  lemma {:induction false} FilterAppend(order: seq<string>, w: string, keep: string -> bool)
    ensures Filter(order + [w], keep) == Filter(order, keep) + if keep(w) then [w] else []
  {
    if order != [] {
      FilterAppend(order[1..], w, keep);
      assert (order + [w])[1..] == order[1..] + [w];
    }
  }

  function Remove(r: Registry, w: string): Registry {
    Registry(Filter(r.order, v => v != w), r.workers - {w})
  }

  predicate HasRoom(r: Registry, w: string) {
    w in r.workers && r.workers[w].capacity > r.workers[w].load
  }

  /** The workers with free capacity, in dict order. */
  function Available(r: Registry): (s: seq<string>)
    ensures forall w :: w in s <==> w in r.order && HasRoom(r, w)
  {
    Filter(r.order, v => HasRoom(r, v))
  }

  /** `a` stands before `b`. */
  ghost predicate Precedes(order: seq<string>, a: string, b: string) {
    exists i, j :: 0 <= i < j < |order| && order[i] == a && order[j] == b
  }

  /** The elements of `s` stand in `s` as they stand in `order`. */
  ghost predicate InOrder(order: seq<string>, s: seq<string>) {
    forall i, j :: 0 <= i < j < |s| ==> Precedes(order, s[i], s[j])
  }

  ghost predicate NoDuplicates(order: seq<string>) {
    forall i, j :: 0 <= i < j < |order| ==> order[i] != order[j]
  }

  lemma {:induction false} PrecedesLater(order: seq<string>, a: string, b: string)
    requires order != [] && Precedes(order[1..], a, b)
    ensures Precedes(order, a, b)
  {
    var i, j :| 0 <= i < j < |order| - 1 && order[1..][i] == a && order[1..][j] == b;
    assert order[i + 1] == a && order[j + 1] == b;
  }

  /** Filtering keeps the order, and with it distinctness. */
  lemma {:induction false} FilterOrder(order: seq<string>, keep: string -> bool)
    ensures InOrder(order, Filter(order, keep))
    ensures NoDuplicates(order) ==> NoDuplicates(Filter(order, keep))
  {
    if order != [] {
      var t := order[1..];
      FilterOrder(t, keep);
      var s, u := Filter(order, keep), Filter(t, keep);
      var shift := if keep(order[0]) then 1 else 0;
      assert |s| == |u| + shift && u == s[shift..];
      assert forall i :: 0 <= i < |t| ==> t[i] == order[i + 1];
      assert NoDuplicates(order) ==> NoDuplicates(t) && order[0] !in t;
      forall i, j | 0 <= i < j < |s| ensures Precedes(order, s[i], s[j]) {
        assert s[j] == u[j - shift] && u[j - shift] in t;
        if i >= shift {
          var a, b := i - shift, j - shift;
          assert 0 <= a < b < |u| && Precedes(t, u[a], u[b]);
          PrecedesLater(order, u[a], u[b]);
        } else {
          var k :| 0 <= k < |t| && t[k] == s[j];
          assert order[0] == s[i] && order[k + 1] == s[j];
        }
      }
    }
  }

  /** Every operation keeps the keys and the data of the dict together. */
  lemma {:induction false} RegistryKept(r: Registry, w: string, capacity: int, now: real)
    requires r.Valid()
    ensures Register(r, w, capacity, now).Valid()
    ensures Heartbeat(r, w, now).Valid()
    ensures Increment(r, w).Valid()
    ensures Decrement(r, w).Valid()
    ensures Remove(r, w).Valid()
  {
    FilterOrder(r.order, v => v != w);
    assert w !in r.workers ==> NoDuplicates(r.order + [w]);
  }

  class WorkerRegistry {
    var order: seq<string>
    var workers: map<string, Worker>

    ghost function View(): Registry
      reads this
    {
      Registry(order, workers)
    }

    constructor ()
      ensures View() == EMPTY
    {
      order, workers := [], map[];
    }

    method RegisterWorker(w: string, capacity: int, now: real)
      modifies this
      ensures View() == Register(old(View()), w, capacity, now)
    {
      if w !in workers {
        order := order + [w];
      }
      workers := workers[w := Worker(capacity, 0, now)];
    }

    method UpdateHeartbeat(w: string, now: real)
      modifies this
      ensures View() == Heartbeat(old(View()), w, now)
    {
      if w in workers {
        workers := workers[w := workers[w].(lastHeartbeat := now)];
      }
    }

    method IncrementLoad(w: string)
      modifies this
      ensures View() == Increment(old(View()), w)
    {
      if w in workers {
        workers := workers[w := workers[w].(load := workers[w].load + 1)];
      }
    }

    method DecrementLoad(w: string)
      modifies this
      ensures View() == Decrement(old(View()), w)
    {
      if w in workers {
        var load := workers[w].load - 1;
        if load < 0 {
          load := 0;
        }
        workers := workers[w := workers[w].(load := load)];
      }
    }

    /** The workers with room, each once if the dict is well formed, in registration order. */
    method GetAvailableWorkers() returns (available: seq<string>)
      ensures available == Available(View())
      ensures forall w :: w in available <==> w in order && w in workers && workers[w].capacity > workers[w].load
      ensures InOrder(order, available) && (NoDuplicates(order) ==> NoDuplicates(available))
    {
      available := [];
      ghost var r := View();
      for i := 0 to |order|
        invariant available == Filter(order[..i], v => HasRoom(r, v))
      {
        assert order[..i + 1] == order[..i] + [order[i]];
        FilterAppend(order[..i], order[i], v => HasRoom(r, v));
        if order[i] in workers && workers[order[i]].capacity > workers[order[i]].load {
          available := available + [order[i]];
        }
      }
      assert order[..|order|] == order;
      FilterOrder(order, v => HasRoom(r, v));
    }

    method RemoveWorker(w: string)
      modifies this
      ensures View() == Remove(old(View()), w)
    {
      order := Filter(order, v => v != w);
      workers := workers - {w};
    }
  }
}
