/** What the scheduler gives out in a run of the coordinator, and whom the heartbeat monitor may report. */
module ScheduleRuns {
  import opened Wrappers
  import opened JobQueue
  import opened Coordinator
  import opened CoordinatorRuns
  import opened BreakerRuns
  import opened JobOrder
  import opened JobData
  import C = CircuitBreaker
  import S = Scheduler
  import W = WorkerRegistry

  // ---- The queue stays in order ----

  lemma {:induction false} TailValid(q: Queue)
    requires Valid(q) && q.entries != []
    ensures Valid(q.(entries := q.entries[1..]))
  {
    assert forall k :: 0 < k < |q.entries| ==> q.entries[1..][k - 1] == q.entries[k];
  }

  lemma {:induction false} RequeueAllValid(s: State, found: seq<string>)
    requires Valid(s.queue)
    ensures Valid(RequeueAll(s, found).queue)
    decreases |found|
  {
    hide Valid, Add;
    if found != [] {
      var last := |found| - 1;
      var s1 := RequeueAll(s, found[..last]);
      RequeueAllValid(s, found[..last]);
      if found[last] in s1.table {
        AddValid(s1.queue, JobOfRow(found[last], s1.table[found[last]]));
      }
    }
  }

  lemma {:induction false} SelectValid(s: State, cfg: Config, clock: S.Clock)
    requires WellNamed(s) && Valid(s.queue)
    ensures Valid(OnSelect(s, cfg, clock).queue)
  {
    hide Valid;
    S.SelectSpec(s.registry, s.breakers, s.queue, cfg.settings, clock);
    if s.queue.entries != [] {
      TailValid(s.queue);
    }
  }

  lemma {:induction false} StepValid(s: State, cfg: Config, step: Step)
    requires WellNamed(s) && Valid(s.queue)
    ensures Valid(Next(s, cfg, step).queue)
  {
    hide Valid, Add, RequeueAll, OnSelect, WellNamed;
    match step
    case Submit(job) => AddValid(s.queue, job);
    case Select(clock) => SelectValid(s, cfg, clock);
    case Failed(_, job, _) => AddValid(s.queue, job);
    case WorkerFailed(w, found) =>
      RequeueAllValid(s.(registry := W.Remove(s.registry, w), breakers := s.breakers - {w}), found);
    case _ =>
  }

  lemma {:induction false} QueueAlwaysValid(cfg: Config, steps: seq<Step>, i: nat)
    requires Legal(cfg, steps) && i <= |steps|
    ensures Valid(StateAt(cfg, steps, i).queue)
  {
    hide Next, WellNamed, Enabled;
    if i > 0 {
      QueueAlwaysValid(cfg, steps, i - 1);
      NamedAlways(cfg, steps, i - 1);
      StepValid(StateAt(cfg, steps, i - 1), cfg, steps[i - 1]);
    }
  }

  /** Every entry is ranked by the urgency of its job. */
  ghost predicate Ranked(q: Queue) { forall e :: e in q.entries ==> e.priority == 11 - Urgency(e.job.priority) }

  lemma {:induction false} AlwaysRanked(cfg: Config, steps: seq<Step>, i: nat)
    requires Legal(cfg, steps) && i <= |steps|
    ensures Ranked(StateAt(cfg, steps, i).queue)
  {
    hide Next, Legal, Urgency;
    if i > 0 {
      AlwaysRanked(cfg, steps, i - 1);
      RunStep(cfg, steps, i - 1);
      StepQueue(StateAt(cfg, steps, i - 1), cfg, steps[i - 1]);
    }
  }

  // ---- Who may be given a job ----

  /** By registry and history: registered, with capacity left, and not cut off, or due for a trial. */
  predicate MayBeGiven(cfg: Config, steps: seq<Step>, i: nat, clock: S.Clock, w: string)
    requires i <= |steps|
  {
    var r, st, h := StateAt(cfg, steps, i).registry, C.Effective(cfg.settings), History(cfg, steps, i, w);
    w in r.workers && r.workers[w].capacity > r.workers[w].load && C.MayTry(st, C.RecordTo(st, h, |h|), clock(w))
  }

  lemma {:induction false} PermittedByHistory(cfg: Config, steps: seq<Step>, i: nat, clock: S.Clock, w: string)
    requires Legal(cfg, steps) && i <= |steps|
    ensures var s := StateAt(cfg, steps, i);
      S.Permitted(s.registry, s.breakers, cfg.settings, clock, w) <==> MayBeGiven(cfg, steps, i, clock, w)
  {
    hide StateAt, Legal, History, C.MayTry, C.Effective, C.Permits, C.RecordTo;
    NamedAlways(cfg, steps, i);
    if w != "" {
      var h := History(cfg, steps, i, w);
      BreakerRunsOnHistory(cfg, steps, i, w);
      C.VerdictByHistory(cfg.settings, h, |h|, clock(w));
    }
  }

  /** The first of the queue is the most urgent, the one queued first on a tie, and it alone leaves. */
  ghost predicate MostUrgentLeft(q: Queue, q': Queue, job: Job) {
    && q.entries != [] && job == q.entries[0].job && q' == q.(entries := q.entries[1..])
    && forall e :: e in q'.entries ==>
         || Urgency(job.priority) > Urgency(e.job.priority)
         || (Urgency(job.priority) == Urgency(e.job.priority) && q.entries[0].arrival < e.arrival)
  }

  /**
   Scheduling, at any selection of any run, in terms of what was submitted, registered and reported:
   nothing is given out, and the queue untouched, iff the queue is empty or no registered worker has
   capacity left and may be tried; otherwise the most urgent job leaves, for the worker that of all
   those has the most capacity left, the first registered on a tie.
   */
  lemma {:induction false} ScheduledInOrder(cfg: Config, steps: seq<Step>, i: nat)
    requires Legal(cfg, steps) && i < |steps| && steps[i].Select?
    ensures var s, s', clock := StateAt(cfg, steps, i), StateAt(cfg, steps, i + 1), steps[i].clock;
      match s'.hand
      case None =>
        s'.queue == s.queue && (s.queue.entries == [] || forall w :: !MayBeGiven(cfg, steps, i, clock, w))
      case Some((job, w)) =>
        && MostUrgentLeft(s.queue, s'.queue, job) && MayBeGiven(cfg, steps, i, clock, w)
        && forall v :: v != w && MayBeGiven(cfg, steps, i, clock, v) ==> S.Preferred(s.registry, w, v)
  {
    hide Legal, MayBeGiven, S.Permitted, S.Select, S.Preferred, StateAt, Urgency;
    var s := StateAt(cfg, steps, i);
    RunStep(cfg, steps, i);
    AlwaysRanked(cfg, steps, i);
    S.SelectSpec(s.registry, s.breakers, s.queue, cfg.settings, steps[i].clock);
    var clock := steps[i].clock;
    forall w ensures
      S.Permitted(s.registry, s.breakers, cfg.settings, clock, w) <==> MayBeGiven(cfg, steps, i, clock, w)
    {
      PermittedByHistory(cfg, steps, i, clock, w);
    }
    if s.queue.entries != [] {
      HeadLeft(cfg, steps, i);
      forall w | MayBeGiven(cfg, steps, i, clock, w) ensures w in s.registry.workers {
        GivenIsRegistered(cfg, steps, i, clock, w);
      }
    }
  }

  lemma {:induction false} GivenIsRegistered(cfg: Config, steps: seq<Step>, i: nat, clock: S.Clock, w: string)
    requires i <= |steps| && MayBeGiven(cfg, steps, i, clock, w)
    ensures w in StateAt(cfg, steps, i).registry.workers
  {
  }

  lemma {:induction false} HeadLeft(cfg: Config, steps: seq<Step>, i: nat)
    requires Legal(cfg, steps) && i <= |steps| && StateAt(cfg, steps, i).queue.entries != []
    ensures var q := StateAt(cfg, steps, i).queue;
      MostUrgentLeft(q, q.(entries := q.entries[1..]), q.entries[0].job)
  {
    hide Legal, StateAt, Urgency;
    var q := StateAt(cfg, steps, i).queue;
    QueueAlwaysValid(cfg, steps, i);
    AlwaysRanked(cfg, steps, i);
    forall e | e in q.entries[1..] ensures e in q.entries && Before(q.entries[0], e) {
      var k :| 0 <= k < |q.entries| - 1 && q.entries[1..][k] == e;
      assert q.entries[k + 1] == e;
    }
  }

  // ---- The registry by its history ----

  /** The step since which `w` is registered without a break. */
  function Since(steps: seq<Step>, i: nat, w: string): Option<nat>
    requires i <= |steps|
  {
    if i == 0 then None
    else
      var since := Since(steps, i - 1, w);
      match steps[i - 1]
      case Register(v, _, _) => if v == w && since == None then Some(i - 1) else since
      case WorkerFailed(v, _) => if v == w then None else since
      case _ => since
  }

  /** The capacity `w` last registered with. */
  function LastCapacity(steps: seq<Step>, i: nat, w: string): int
    requires i <= |steps|
  {
    if i == 0 then 0
    else if steps[i - 1].Register? && steps[i - 1].worker == w then steps[i - 1].capacity
    else LastCapacity(steps, i - 1, w)
  }

  ghost predicate TellsMembers(r: W.Registry, steps: seq<Step>, i: nat)
    requires i <= |steps|
  {
    && (forall w :: w != "" ==> (w in r.workers <==> Since(steps, i, w).Some?))
    && (forall w :: w in r.workers ==> r.workers[w].capacity == LastCapacity(steps, i, w))
  }

  ghost predicate TellsOrder(r: W.Registry, steps: seq<Step>, i: nat)
    requires i <= |steps| && TellsMembers(r, steps, i)
  {
    forall v, w :: v in r.workers && w in r.workers && v != "" && w != "" ==>
      (W.Precedes(r.order, v, w) <==> Since(steps, i, v).value < Since(steps, i, w).value)
  }

  ghost predicate RegistryTells(r: W.Registry, steps: seq<Step>, i: nat)
    requires i <= |steps|
  {
    TellsMembers(r, steps, i) && TellsOrder(r, steps, i)
  }

  lemma {:induction false} SinceBound(steps: seq<Step>, i: nat, w: string)
    requires i <= |steps|
    ensures Since(steps, i, w).Some? ==> Since(steps, i, w).value < i
  {
    if i > 0 {
      SinceBound(steps, i - 1, w);
    }
  }

  lemma {:induction false} AppendedLast(order: seq<string>, x: string, v: string, w: string)
    requires x !in order
    ensures W.Precedes(order + [x], v, w) <==> W.Precedes(order, v, w) || (v in order && w == x)
    ensures W.Precedes(order, v, w) ==> v in order && w in order
  {
    var longer := order + [x];
    if W.Precedes(longer, v, w) {
      var i, j :| 0 <= i < j < |longer| && longer[i] == v && longer[j] == w;
      assert order[i] == v;
      assert j < |order| ==> order[j] == w;
    }
    if W.Precedes(order, v, w) {
      var i, j :| 0 <= i < j < |order| && order[i] == v && order[j] == w;
      assert longer[i] == v && longer[j] == w;
    }
    if v in order && w == x {
      var i :| 0 <= i < |order| && order[i] == v;
      assert longer[i] == v && longer[|order|] == w;
    }
  }

  lemma {:induction false} OneFirst(order: seq<string>, v: string, w: string)
    requires W.NoDuplicates(order) && v in order && w in order && v != w
    ensures W.Precedes(order, v, w) <==> !W.Precedes(order, w, v)
  {
    var i, j :| 0 <= i < |order| && 0 <= j < |order| && order[i] == v && order[j] == w;
    if i < j {
      assert W.Precedes(order, v, w);
    } else {
      assert W.Precedes(order, w, v);
    }
  }

  lemma {:induction false} NotBeforeItself(order: seq<string>, w: string)
    requires W.NoDuplicates(order)
    ensures !W.Precedes(order, w, w)
  {
  }

  /** Removing a worker leaves the others as they stand. */
  lemma {:induction false} RemovedOrder(r: W.Registry, x: string, v: string, w: string)
    requires r.Valid() && v in r.workers && w in r.workers && v != x && w != x
    ensures W.Precedes(W.Remove(r, x).order, v, w) <==> W.Precedes(r.order, v, w)
  {
    hide W.Precedes, W.Filter;
    var order := W.Remove(r, x).order;
    W.FilterOrder(r.order, u => u != x);
    if v == w {
      NotBeforeItself(r.order, w);
      NotBeforeItself(order, w);
    } else {
      OneFirst(order, v, w);
      OneFirst(r.order, v, w);
      if W.Precedes(order, v, w) {
        KeptBefore(r.order, order, v, w);
      } else {
        KeptBefore(r.order, order, w, v);
      }
    }
  }

  lemma {:induction false} KeptBefore(order: seq<string>, s: seq<string>, v: string, w: string)
    requires W.InOrder(order, s) && W.Precedes(s, v, w)
    ensures W.Precedes(order, v, w)
  {
  }

  lemma {:induction false} MembersStep(cfg: Config, steps: seq<Step>, i: nat)
    requires Legal(cfg, steps) && i < |steps| && TellsMembers(StateAt(cfg, steps, i).registry, steps, i)
    ensures TellsMembers(StateAt(cfg, steps, i + 1).registry, steps, i + 1)
  {
    hide Next, Legal, StateAt, Enabled, TellsMembers, RegistryAfter;
    RunStep(cfg, steps, i);
    StepRegistry(StateAt(cfg, steps, i), cfg, steps[i]);
    MembersAfter(StateAt(cfg, steps, i), steps, i);
  }

  lemma {:induction false} MembersAfter(s: State, steps: seq<Step>, i: nat)
    requires i < |steps| && TellsMembers(s.registry, steps, i) && "" !in s.registry.workers
    ensures TellsMembers(RegistryAfter(s, steps[i]), steps, i + 1)
  {
    hide W.Filter;
  }

  lemma {:induction false} OrderRegistered(r: W.Registry, r': W.Registry, steps: seq<Step>, i: nat, x: string)
    requires i < |steps| && steps[i].Register? && steps[i].worker == x && x != "" && x !in r.workers && r.Valid()
    requires TellsMembers(r, steps, i) && TellsMembers(r', steps, i + 1) && TellsOrder(r, steps, i)
    requires r'.workers.Keys == r.workers.Keys + {x} && r'.order == r.order + [x]
    ensures TellsOrder(r', steps, i + 1)
  {
    hide W.Precedes;
    forall v, w | v in r'.workers && w in r'.workers && v != "" && w != ""
      ensures W.Precedes(r'.order, v, w) <==> Since(steps, i + 1, v).value < Since(steps, i + 1, w).value
    {
      AppendedLast(r.order, x, v, w);
      SinceBound(steps, i, v);
      SinceBound(steps, i, w);
    }
  }

  lemma {:induction false} OrderRemoved(r: W.Registry, steps: seq<Step>, i: nat, x: string)
    requires i < |steps| && steps[i].WorkerFailed? && steps[i].worker == x && r.Valid()
    requires TellsMembers(r, steps, i) && TellsMembers(W.Remove(r, x), steps, i + 1) && TellsOrder(r, steps, i)
    ensures TellsOrder(W.Remove(r, x), steps, i + 1)
  {
    hide W.Precedes, W.Filter;
    var r' := W.Remove(r, x);
    forall v, w | v in r'.workers && w in r'.workers && v != "" && w != ""
      ensures W.Precedes(r'.order, v, w) <==> Since(steps, i + 1, v).value < Since(steps, i + 1, w).value
    {
      RemovedOrder(r, x, v, w);
    }
  }

  lemma {:induction false} OrderUnchanged(r: W.Registry, r': W.Registry, steps: seq<Step>, i: nat)
    requires i < |steps| && r'.order == r.order && r'.workers.Keys == r.workers.Keys
    requires steps[i].WorkerFailed? ==> steps[i].worker == ""
    requires steps[i].Register? ==> steps[i].worker == "" || steps[i].worker in r.workers
    requires TellsMembers(r, steps, i) && TellsMembers(r', steps, i + 1) && TellsOrder(r, steps, i)
    ensures TellsOrder(r', steps, i + 1)
  {
    hide W.Precedes;
  }

  lemma {:induction false} OrderStep(cfg: Config, steps: seq<Step>, i: nat)
    requires Legal(cfg, steps) && i < |steps| && TellsMembers(StateAt(cfg, steps, i).registry, steps, i)
    requires TellsMembers(StateAt(cfg, steps, i + 1).registry, steps, i + 1)
    requires TellsOrder(StateAt(cfg, steps, i).registry, steps, i)
    ensures TellsOrder(StateAt(cfg, steps, i + 1).registry, steps, i + 1)
  {
    hide Next, Legal, StateAt, W.Filter, Enabled, TellsMembers, TellsOrder;
    var r, r' := StateAt(cfg, steps, i).registry, StateAt(cfg, steps, i + 1).registry;
    RunStep(cfg, steps, i);
    StepRegistry(StateAt(cfg, steps, i), cfg, steps[i]);
    if steps[i].Register? && steps[i].worker != "" && steps[i].worker !in r.workers {
      OrderRegistered(r, r', steps, i, steps[i].worker);
    } else if steps[i].WorkerFailed? && steps[i].worker != "" {
      OrderRemoved(r, steps, i, steps[i].worker);
    } else {
      OrderUnchanged(r, r', steps, i);
    }
  }

  /**
   In every run the registry holds exactly the workers that registered and were not declared failed
   since, each with the capacity it last registered with, in the order since when they are there.
   */
  lemma {:induction false} RegistryAlwaysTells(cfg: Config, steps: seq<Step>, i: nat)
    requires Legal(cfg, steps) && i <= |steps|
    ensures RegistryTells(StateAt(cfg, steps, i).registry, steps, i)
  {
    hide Next, Legal, TellsMembers, TellsOrder;
    if i == 0 {
      NobodyRegistered(steps);
    } else {
      RegistryAlwaysTells(cfg, steps, i - 1);
      MembersStep(cfg, steps, i - 1);
      OrderStep(cfg, steps, i - 1);
    }
  }

  lemma {:induction false} NobodyRegistered(steps: seq<Step>)
    ensures RegistryTells(W.EMPTY, steps, 0)
  {
  }

  // ---- Signs of life ----

  function SignAfter(step: Step, w: string, before: real): real {
    match step
    case Register(v, _, now) => if v == w then now else before
    case Beat(v, now) => if v == w then now else before
    case _ => before
  }

  /** The time of the last registration or heartbeat of `w`. */
  function LastSign(steps: seq<Step>, i: nat, w: string): real
    requires i <= |steps|
  {
    if i == 0 then 0.0 else SignAfter(steps[i - 1], w, LastSign(steps, i - 1, w))
  }

  /** The monitor's test. */
  predicate TimedOut(r: W.Registry, w: string, now: real, timeout: real) {
    w in r.workers && now - r.workers[w].lastHeartbeat > timeout
  }

  ghost predicate SignIs(r: W.Registry, w: string, sign: real) { w in r.workers ==> r.workers[w].lastHeartbeat == sign }

  lemma {:induction false} SignStep(s: State, cfg: Config, step: Step, w: string, sign: real)
    requires SignIs(s.registry, w, sign) && w != ""
    ensures SignIs(Next(s, cfg, step).registry, w, SignAfter(step, w, sign))
  {
    hide Next;
    StepRegistry(s, cfg, step);
  }

  lemma {:induction false} SignAlways(cfg: Config, steps: seq<Step>, i: nat, w: string)
    requires i <= |steps| && w != ""
    ensures SignIs(StateAt(cfg, steps, i).registry, w, LastSign(steps, i, w))
  {
    hide Next, SignAfter;
    if i > 0 {
      SignAlways(cfg, steps, i - 1, w);
      SignStep(StateAt(cfg, steps, i - 1), cfg, steps[i - 1], w, LastSign(steps, i - 1, w));
    }
  }

  /**
   In every run the monitor's test finds exactly the registered workers whose last registration or
   heartbeat is longer ago than the timeout.
   */
  lemma {:induction false} MonitorFindsTheSilent(cfg: Config, steps: seq<Step>, i: nat, w: string, now: real,
                                        timeout: real)
    requires Legal(cfg, steps) && i <= |steps|
    ensures TimedOut(StateAt(cfg, steps, i).registry, w, now, timeout) <==>
            w in StateAt(cfg, steps, i).registry.workers && now - LastSign(steps, i, w) > timeout
  {
    hide StateAt, LastSign;
    NamedAlways(cfg, steps, i);
    if w != "" {
      SignAlways(cfg, steps, i, w);
    }
  }
}
