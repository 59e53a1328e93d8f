/**
 The scheduler of coordinator/scheduler.py: filter the available workers by their breakers, take
 the one with most free capacity, pop the first job.
 */
module Scheduler {
  import opened Wrappers
  import opened WorkerRegistry
  import opened JobQueue
  import opened CircuitBreaker

  /** The clock reading taken when a worker's breaker is asked. */
  type Clock = string -> real

  /** A clock that stands still for a whole pass. */
  function Still(now: real): Clock { w => now }

  /** The breakers after every available worker was asked for a permit, and the workers that got one. */
  function AskAll(available: seq<string>, m: Breakers, st: Settings, clock: Clock): (seq<string>, Breakers) {
    if available == [] then ([], m)
    else
      var last := |available| - 1;
      var (permitted, m') := AskAll(available[..last], m, st, clock);
      var w := available[last];
      var b := BreakerOf(m', w);
      (if Permits(b, st, clock(w)) then permitted + [w] else permitted, m'[w := Ask(b, st, clock(w))])
  }

  function Free(r: Registry, w: string): int {
    if w in r.workers then r.workers[w].capacity - r.workers[w].load else 0
  }

  /** The loop over the permitted workers: the best so far and its free capacity, from (None, -1). */
  function Best(r: Registry, workers: seq<string>): (Option<string>, int) {
    if workers == [] then (None, -1)
    else
      var last := |workers| - 1;
      var (best, most) := Best(r, workers[..last]);
      if Free(r, workers[last]) > most then (Some(workers[last]), Free(r, workers[last])) else (best, most)
  }

  datatype Selection = Selection(breakers: Breakers, queue: Queue, chosen: Option<(Job, string)>)

  function Select(r: Registry, m: Breakers, q: Queue, st: Settings, clock: Clock): Selection {
    var available := Available(r);
    if q.entries == [] || available == [] then Selection(m, q, None)
    else
      var (permitted, m') := AskAll(available, m, st, clock);
      match Best(r, permitted).0
      case None => Selection(m', q, None)
      case Some(w) =>
        if w == "" then Selection(m', q, None)
        else Selection(m', q.(entries := q.entries[1..]), Some((q.entries[0].job, w)))
  }

  class Scheduler {
    const registry: WorkerRegistry
    const breakers: CircuitBreakerManager
    const jobQueue: JobPriorityQueue

    constructor (registry: WorkerRegistry, breakers: CircuitBreakerManager)
      ensures this.registry == registry && this.breakers == breakers
      ensures fresh(jobQueue) && jobQueue.View() == JobQueue.EMPTY
    {
      this.registry, this.breakers := registry, breakers;
      jobQueue := new JobPriorityQueue();
    }

    method QueueJob(job: Job)
      modifies jobQueue
      ensures jobQueue.View() == Add(old(jobQueue.View()), job)
    {
      jobQueue.AddJob(job);
    }

    /** The loop that filters by permits. */
    method FilterPermitted(available: seq<string>, clock: Clock) returns (permitted: seq<string>)
      requires breakers.Valid()
      modifies breakers, breakers.Repr
      ensures breakers.Valid() && fresh(breakers.Repr - old(breakers.Repr))
      ensures (permitted, breakers.model) == AskAll(available, old(breakers.model), breakers.settings, clock)
      ensures forall w :: w in permitted ==> w in available
    {
      permitted := [];
      for i := 0 to |available|
        invariant breakers.Valid() && fresh(breakers.Repr - old(breakers.Repr))
        invariant (permitted, breakers.model) == AskAll(available[..i], old(breakers.model), breakers.settings, clock)
        invariant forall w :: w in permitted ==> w in available
      {
        assert available[..i + 1][..i] == available[..i];
        var allowed, alert := breakers.CanAssignTask(available[i], clock(available[i]));
        if allowed {
          permitted := permitted + [available[i]];
        }
      }
      assert available[..|available|] == available;
    }

    /** The loop that looks for the most free capacity. */
    method ChooseWorker(workers: seq<string>) returns (chosen: Option<string>)
      requires forall w :: w in workers ==> w in registry.workers
      ensures chosen == Best(registry.View(), workers).0
      ensures chosen == None ==>
        forall w :: w in workers ==> registry.workers[w].capacity - registry.workers[w].load <= -1
      ensures chosen.Some? ==>
        exists k :: 0 <= k < |workers| && workers[k] == chosen.value && FirstBest(registry.View(), workers, k)
    {
      chosen := None;
      var maxFreeCapacity := -1;
      for i := 0 to |workers|
        invariant (chosen, maxFreeCapacity) == Best(registry.View(), workers[..i])
      {
        assert workers[..i + 1][..i] == workers[..i];
        var data := registry.workers[workers[i]];
        var freeCapacity := data.capacity - data.load;
        if freeCapacity > maxFreeCapacity {
          maxFreeCapacity := freeCapacity;
          chosen := Some(workers[i]);
        }
      }
      assert workers[..|workers|] == workers;
      BestSpec(registry.View(), workers);
    }

    method GetNextJobAndWorker(clock: Clock) returns (chosen: Option<(Job, string)>)
      requires breakers.Valid()
      modifies breakers, breakers.Repr, jobQueue
      ensures breakers.Valid() && fresh(breakers.Repr - old(breakers.Repr))
      ensures Selection(breakers.model, jobQueue.View(), chosen)
              == Select(old(registry.View()), old(breakers.model), old(jobQueue.View()), breakers.settings, clock)
      ensures registry.View() == old(registry.View())
    {
      if jobQueue.pq == [] {
        return None;
      }
      var available := registry.GetAvailableWorkers();
      if available == [] {
        return None;
      }
      var permitted := FilterPermitted(available, clock);
      var worker := ChooseWorker(permitted);
      if worker == None || worker.value == "" {
        return None;
      }
      var job := jobQueue.GetNextJob();
      chosen := Some((job.value, worker.value));
    }
  }

  // ---- What the selection means ----

  /** Each of the workers was asked about its own breaker, once; nobody else's changed. */
  ghost predicate Asked(available: seq<string>, m: Breakers, st: Settings, clock: Clock,
                        permitted: seq<string>, m': Breakers)
  {
    && (forall w :: w in permitted <==> w in available && Permits(BreakerOf(m, w), st, clock(w)))
    && m'.Keys == m.Keys + (set w | w in available)
    && (forall w :: BreakerOf(m', w) ==
          if w in available then Ask(BreakerOf(m, w), st, clock(w)) else BreakerOf(m, w))
  }

  lemma {:induction false} AskOne(before: seq<string>, m: Breakers, st: Settings, clock: Clock,
                                  permitted: seq<string>, m1: Breakers, w: string)
    requires Asked(before, m, st, clock, permitted, m1) && w !in before
    ensures var b := BreakerOf(m1, w);
      Asked(before + [w], m, st, clock, if Permits(b, st, clock(w)) then permitted + [w] else permitted,
            m1[w := Ask(b, st, clock(w))])
  {
    hide Permits, Ask;
  }

  /** Asking distinct workers: each is asked about its own breaker, once; nobody else's changes. */
  lemma {:induction false} AskAllSpec(available: seq<string>, m: Breakers, st: Settings, clock: Clock)
    requires NoDuplicates(available)
    ensures var (permitted, m') := AskAll(available, m, st, clock); Asked(available, m, st, clock, permitted, m')
    decreases |available|
  {
    hide Permits, Ask, BreakerOf;
    if available == [] {
      NobodyAsked(m, st, clock);
    } else {
      hide Asked;
      var last := |available| - 1;
      var before, w := available[..last], available[last];
      AskAllSpec(before, m, st, clock);
      assert available == before + [w] && w !in before;
      var (permitted, m1) := AskAll(before, m, st, clock);
      AskOne(before, m, st, clock, permitted, m1, w);
    }
  }

  lemma {:induction false} NobodyAsked(m: Breakers, st: Settings, clock: Clock)
    ensures Asked([], m, st, clock, [], m)
  {
  }

  /** The permitted workers, as filtered from the available ones. */
  lemma {:induction false} AskAllOrder(available: seq<string>, m: Breakers, st: Settings, clock: Clock)
    ensures InOrder(available, AskAll(available, m, st, clock).0)
    ensures forall w :: w in AskAll(available, m, st, clock).0 ==> w in available
    decreases |available|
  {
    if available != [] {
      var last := |available| - 1;
      var before := available[..last];
      AskAllOrder(before, m, st, clock);
      var permitted, all := AskAll(before, m, st, clock).0, AskAll(available, m, st, clock).0;
      assert available == before + [available[last]];
      forall i, j | 0 <= i < j < |all| ensures Precedes(available, all[i], all[j]) {
        assert all[i] == permitted[i];
        if j < |permitted| {
          assert Precedes(before, permitted[i], permitted[j]);
          var a, b :| 0 <= a < b < |before| && before[a] == permitted[i] && before[b] == permitted[j];
          assert available[a] == all[i] && available[b] == all[j];
        } else {
          assert permitted[i] in before;
          var a :| 0 <= a < |before| && before[a] == permitted[i];
          assert available[a] == all[i] && available[last] == all[j];
        }
      }
    }
  }

  /** The first of the workers with maximal free capacity. */
  lemma {:induction false} BestSpec(r: Registry, workers: seq<string>)
    requires forall w :: w in workers ==> w in r.workers
    ensures var (best, most) := Best(r, workers);
      && (best == None ==> most == -1 && forall w :: w in workers ==> r.workers[w].capacity - r.workers[w].load <= -1)
      && (best.Some? ==> exists k :: 0 <= k < |workers| && FirstBest(r, workers, k) && workers[k] == best.value
                                     && r.workers[workers[k]].capacity - r.workers[workers[k]].load == most >= 0)
  {
    if workers != [] {
      var last := |workers| - 1;
      var before := workers[..last];
      BestSpec(r, before);
      assert workers == before + [workers[last]];
      if Free(r, workers[last]) > Best(r, before).1 {
        assert FirstBest(r, workers, last);
      } else if Best(r, before).0.Some? {
        var k :| 0 <= k < |before| && FirstBest(r, before, k) && before[k] == Best(r, before).0.value
          && Free(r, before[k]) == Best(r, before).1;
        assert FirstBest(r, workers, k);
      }
    }
  }

  /** Worker `k` has more capacity left than those before it, and no less than those behind it. */
  ghost predicate FirstBest(r: Registry, workers: seq<string>, k: int)
    requires 0 <= k < |workers| && forall w :: w in workers ==> w in r.workers
  {
    var most := r.workers[workers[k]].capacity - r.workers[workers[k]].load;
    && (forall i :: 0 <= i < |workers| ==> r.workers[workers[i]].capacity - r.workers[workers[i]].load <= most)
    && (forall i :: 0 <= i < k ==> r.workers[workers[i]].capacity - r.workers[workers[i]].load < most)
  }

  /** May `w` be given a job now? */
  predicate Permitted(r: Registry, m: Breakers, st: Settings, clock: Clock, w: string) {
    HasRoom(r, w) && Permits(BreakerOf(m, w), st, clock(w))
  }

  /** `v` has more capacity left than `w`, or as much and stands before it in the registry. */
  ghost predicate Preferred(r: Registry, v: string, w: string)
    requires v in r.workers && w in r.workers
  {
    || r.workers[v].capacity - r.workers[v].load > r.workers[w].capacity - r.workers[w].load
    || (r.workers[v].capacity - r.workers[v].load == r.workers[w].capacity - r.workers[w].load
        && Precedes(r.order, v, w))
  }

  /** `w` may be given a job, and is preferred to all others that may. */
  ghost predicate BestChoice(r: Registry, m: Breakers, st: Settings, clock: Clock, w: string) {
    && w in r.workers && Permitted(r, m, st, clock, w)
    && (forall v :: v in r.workers && Permitted(r, m, st, clock, v) && v != w ==> Preferred(r, w, v))
  }

  lemma {:induction false} PermittedWorkers(r: Registry, m: Breakers, st: Settings, clock: Clock)
    requires r.Valid()
    ensures var permitted := AskAll(Available(r), m, st, clock).0;
      && (forall w :: w in permitted <==> w in r.workers && Permitted(r, m, st, clock, w))
      && InOrder(r.order, permitted)
  {
    var available := Available(r);
    FilterOrder(r.order, v => HasRoom(r, v));
    AskAllSpec(available, m, st, clock);
    AskAllOrder(available, m, st, clock);
    var permitted := AskAll(available, m, st, clock).0;
    forall i, j | 0 <= i < j < |permitted| ensures Precedes(r.order, permitted[i], permitted[j]) {
      PrecedesThrough(r.order, available, permitted[i], permitted[j]);
    }
  }

  lemma {:induction false} BestPermitted(r: Registry, m: Breakers, st: Settings, clock: Clock)
    requires r.Valid()
    ensures var best := Best(r, AskAll(Available(r), m, st, clock).0).0;
      match best
      case None => forall w :: w in r.workers ==> !Permitted(r, m, st, clock, w)
      case Some(w) => BestChoice(r, m, st, clock, w)
  {
    hide AskAll, Best, Precedes;
    var permitted := AskAll(Available(r), m, st, clock).0;
    PermittedWorkers(r, m, st, clock);
    BestSpec(r, permitted);
    if permitted != [] {
      assert permitted[0] in permitted;
      var k :| 0 <= k < |permitted| && FirstBest(r, permitted, k) && permitted[k] == Best(r, permitted).0.value;
      var w := permitted[k];
      assert w in permitted;
      forall v | v in r.workers && Permitted(r, m, st, clock, v) && v != w ensures Preferred(r, w, v) {
        assert v in permitted;
        var i :| 0 <= i < |permitted| && permitted[i] == v;
      }
    }
  }

  /**
   The selection: it comes back empty, with the queue untouched, iff the queue is empty or no
   registered worker has room and a permit. Otherwise the job is the first of the queue, and the
   worker has room, has a permit, and has the most free capacity of all such workers, the one
   registered first on a tie.
   */
  lemma {:induction false} SelectSpec(r: Registry, m: Breakers, q: Queue, st: Settings, clock: Clock)
    requires r.Valid() && "" !in r.workers
    ensures var s := Select(r, m, q, st, clock);
      match s.chosen
      case None => s.queue == q && (q.entries == [] || forall w :: w in r.workers ==> !Permitted(r, m, st, clock, w))
      case Some((job, w)) =>
        && q.entries != [] && job == q.entries[0].job && s.queue == q.(entries := q.entries[1..])
        && BestChoice(r, m, st, clock, w)
  {
    BestPermitted(r, m, st, clock);
    PermittedWorkers(r, m, st, clock);
    if Available(r) == [] {
      forall w | w in r.workers ensures !Permitted(r, m, st, clock, w) {
        assert w !in Available(r);
      }
    }
  }

  lemma {:induction false} PrecedesThrough(order: seq<string>, s: seq<string>, a: string, b: string)
    requires InOrder(order, s) && Precedes(s, a, b)
    ensures Precedes(order, a, b)
  {
  }

  /**
   What asking does to the breakers: every available worker whose OPEN period is over is moved to
   HALF_OPEN and its trial permit spent, chosen or not.
   */
  lemma {:induction false} SelectBreakers(r: Registry, m: Breakers, q: Queue, st: Settings, clock: Clock, w: string)
    requires r.Valid() && q.entries != []
    ensures var m' := Select(r, m, q, st, clock).breakers;
      BreakerOf(m', w) == if HasRoom(r, w) then Ask(BreakerOf(m, w), st, clock(w)) else BreakerOf(m, w)
  {
    FilterOrder(r.order, v => HasRoom(r, v));
    AskAllSpec(Available(r), m, st, clock);
  }

  /** Only registered workers get breakers. */
  lemma {:induction false} SelectKeys(r: Registry, m: Breakers, q: Queue, st: Settings, clock: Clock)
    requires r.Valid()
    ensures Select(r, m, q, st, clock).breakers.Keys <= m.Keys + r.workers.Keys
  {
    FilterOrder(r.order, v => HasRoom(r, v));
    AskAllSpec(Available(r), m, st, clock);
  }
}
