/**
 The load the registry keeps for each worker, over runs in which anything may happen between the
 scheduler's choice and the counting of the assignment.
 */
module LoadBounds {
  import opened Wrappers
  import opened JobQueue
  import opened Coordinator
  import opened CoordinatorRuns
  import opened Recovery
  import Led = Ledger
  import C = CircuitBreaker
  import S = Scheduler
  import W = WorkerRegistry

  // ---- Load within capacity ----

  /** No worker registers with a capacity below `least`. */
  predicate CapacitiesAtLeast(steps: seq<Step>, least: int) {
    forall i :: 0 <= i < |steps| && steps[i].Register? ==> steps[i].capacity >= least
  }

  predicate WithinCapacity(r: W.Registry) {
    forall w :: w in r.workers ==> 0 <= r.workers[w].load <= r.workers[w].capacity
  }

  predicate Roomy(r: W.Registry) { WithinCapacity(r) && forall w :: w in r.workers ==> r.workers[w].capacity >= 1 }

  predicate RoomFor(r: W.Registry, w: string) { w in r.workers ==> W.HasRoom(r, w) }

  /** Loads are within capacity, and the worker in hand, if still registered, has room. */
  predicate RoomInHand(s: State) { Roomy(s.registry) && (s.hand.Some? ==> RoomFor(s.registry, s.hand.value.1)) }

  lemma {:induction false} OperationsKeepRoom(r: W.Registry, w: string, capacity: int, now: real, v: string)
    requires Roomy(r) && capacity >= 1
    ensures Roomy(W.Register(r, w, capacity, now)) && (RoomFor(r, v) ==> RoomFor(W.Register(r, w, capacity, now), v))
    ensures Roomy(W.Heartbeat(r, w, now)) && (RoomFor(r, v) ==> RoomFor(W.Heartbeat(r, w, now), v))
    ensures Roomy(W.Decrement(r, w)) && (RoomFor(r, v) ==> RoomFor(W.Decrement(r, w), v))
    ensures Roomy(W.Remove(r, w)) && (RoomFor(r, v) ==> RoomFor(W.Remove(r, w), v))
    ensures RoomFor(r, w) ==> Roomy(W.Increment(r, w))
  {
  }

  lemma {:induction false} ChosenHasRoom(s: State, cfg: Config, clock: S.Clock)
    requires WellNamed(s) && OnSelect(s, cfg, clock).hand.Some?
    ensures W.HasRoom(s.registry, OnSelect(s, cfg, clock).hand.value.1)
  {
    S.SelectSpec(s.registry, s.breakers, s.queue, cfg.settings, clock);
  }

  lemma {:induction false} SelectKeepsRoom(s: State, cfg: Config, clock: S.Clock)
    requires WellNamed(s) && RoomInHand(s)
    ensures RoomInHand(OnSelect(s, cfg, clock))
  {
    hide S.Select, WellNamed;
    if OnSelect(s, cfg, clock).hand.Some? {
      ChosenHasRoom(s, cfg, clock);
    }
  }

  lemma {:induction false} StepKeepsRoom(s: State, cfg: Config, step: Step)
    requires WellNamed(s) && Enabled(s, step) && RoomInHand(s) && (step.Register? ==> step.capacity >= 1)
    ensures RoomInHand(Next(s, cfg, step))
  {
    if step.Select? {
      SelectKeepsRoom(s, cfg, step.clock);
    } else {
      hide Next, Roomy, RoomFor, W.Register, W.Heartbeat, W.Increment, W.Decrement, W.Remove;
      var v := if s.hand.Some? then s.hand.value.1 else "";
      StepRegistry(s, cfg, step);
      match step
      case Register(w, capacity, now) => OperationsKeepRoom(s.registry, w, capacity, now, v);
      case Beat(w, now) => OperationsKeepRoom(s.registry, w, 1, now, v);
      case Publish => OperationsKeepRoom(s.registry, v, 1, 0.0, v);
      case Complete(w, _) => OperationsKeepRoom(s.registry, w, 1, 0.0, v);
      case Failed(w, _, _) => OperationsKeepRoom(s.registry, w, 1, 0.0, v);
      case WorkerFailed(w, _) => OperationsKeepRoom(s.registry, w, 1, 0.0, v);
      case _ =>
    }
  }

  lemma {:induction false} RoomAlways(cfg: Config, steps: seq<Step>, i: nat)
    requires Legal(cfg, steps) && CapacitiesAtLeast(steps, 1) && i <= |steps|
    ensures RoomInHand(StateAt(cfg, steps, i))
  {
    hide Next, WellNamed, Enabled;
    if i > 0 {
      RoomAlways(cfg, steps, i - 1);
      NamedAlways(cfg, steps, i - 1);
      StepKeepsRoom(StateAt(cfg, steps, i - 1), cfg, steps[i - 1]);
    }
  }

  /** The worker registers again with no capacity in the gap between choice and publication. */
  function ReRegistered(w: string, job: Job): seq<Step> { Opening(w, 1, job) + [Register(w, 0, 0.0), Publish] }

  lemma {:induction false} ReRegisteredOverloads(cfg: Config, w: string, job: Job)
    requires w != ""
    ensures var steps := ReRegistered(w, job);
      Legal(cfg, steps) && CapacitiesAtLeast(steps, 0) && !WithinCapacity(StateAt(cfg, steps, |steps|).registry)
  {
    var steps, more := ReRegistered(w, job), [Register(w, 0, 0.0), Publish];
    OpeningLegal(cfg, w, 1, job, more);
    var s := StateAt(cfg, steps, 3);
    assert steps[3] == more[0] && steps[4] == more[1];
    var s1 := OnRegister(s, w, 0, 0.0);
    assert StateAt(cfg, steps, 4) == s1 && s1.hand == Some((job, w)) && s1.registry.workers[w].load == 0;
    assert StateAt(cfg, steps, 5) == OnPublish(s1) && OnPublish(s1).registry.workers[w] == W.Worker(0, 1, 0.0);
  }

  ghost predicate LoadsSafe(cfg: Config, steps: seq<Step>) {
    forall i: nat :: i <= |steps| ==> WithinCapacity(StateAt(cfg, steps, i).registry)
  }

  /**
   Load safety: a bound on the capacities workers register with keeps every load between 0 and the
   worker's capacity, in every run and however steps interleave, iff the bound is at least 1.
   */
  lemma {:induction false} LoadSafety(cfg: Config, least: int)
    ensures (forall steps :: Legal(cfg, steps) && CapacitiesAtLeast(steps, least) ==> LoadsSafe(cfg, steps))
            <==> least >= 1
  {
    if least >= 1 {
      forall steps | Legal(cfg, steps) && CapacitiesAtLeast(steps, least) ensures LoadsSafe(cfg, steps) {
        forall i: nat | i <= |steps| ensures WithinCapacity(StateAt(cfg, steps, i).registry) {
          RoomAlways(cfg, steps, i);
        }
      }
    } else {
      var w, job := "w", Job("j", "t", Absent, None);
      var steps := ReRegistered(w, job);
      ReRegisteredOverloads(cfg, w, job);
      assert CapacitiesAtLeast(steps, least) && !LoadsSafe(cfg, steps);
    }
  }

  // ---- Load and unreported assignments ----

  function LoadOf(s: State, w: string): int { if w in s.registry.workers then s.registry.workers[w].load else 0 }

  /** The copies assigned and not reported, after a step. */
  function OutAfter(s: State, step: Step): Copies {
    match step
    case Publish => if s.hand.Some? then AddCopy(s.out, s.hand.value.1, s.hand.value.0.id) else s.out
    case Complete(w, id) => DropCopy(s.out, w, id)
    case Failed(w, job, _) => DropCopy(s.out, w, job.id)
    case _ => s.out
  }

  lemma {:induction false} StepOut(s: State, cfg: Config, step: Step)
    ensures Next(s, cfg, step).out == OutAfter(s, step)
  {
    hide RequeueAll, AddCopy, DropCopy;
    match step
    case Failed(w, job, now) =>
      var b := C.Fail(C.BreakerOf(s.breakers, w), cfg.settings, now);
      RetryKeeps(Unheld(Freed(s, w, b), w, job.id), cfg.maxRetries, job);
    case WorkerFailed(w, found) =>
      RequeueAllKeeps(s.(registry := W.Remove(s.registry, w), breakers := s.breakers - {w}), found);
      RequeueAllOut(s.(registry := W.Remove(s.registry, w), breakers := s.breakers - {w}), found);
    case _ =>
  }

  lemma {:induction false} RequeueAllOut(s: State, found: seq<string>)
    ensures RequeueAll(s, found).out == s.out
  {
    RequeueAllKeeps(s, found);
    assert LedgerOf(RequeueAll(s, found)).out == LedgerOf(s).out;
  }

  lemma {:induction false} CopyCount(c: Copies, v: string, x: string, w: string)
    ensures |At(AddCopy(c, v, x), w)| == |At(c, w)| + Count(v == w)
    ensures x in At(c, v) ==> |At(DropCopy(c, v, x), w)| == |At(c, w)| - Count(v == w)
  {
  }

  /** Reported copies are copies out. */
  lemma {:induction false} ReportedIsOut(cfg: Config, steps: seq<Step>, i: nat, w: string, id: string)
    requires Legal(cfg, steps) && i <= |steps| && id in At(StateAt(cfg, steps, i).running, w)
    ensures id in At(StateAt(cfg, steps, i).out, w)
  {
    Refines(cfg, steps, i);
    Led.AllKept(cfg.maxRetries, MovesTo(cfg, steps, i));
    assert Led.Kept(LedgerOf(StateAt(cfg, steps, i)), id);
  }

  lemma {:induction false} StepLoad(s: State, cfg: Config, step: Step, w: string)
    requires WellNamed(s) && Enabled(s, step) && 0 <= LoadOf(s, w) <= |At(s.out, w)|
    requires (step.Complete? ==> step.id in At(s.out, step.worker))
    requires (step.Failed? ==> step.job.id in At(s.out, step.worker))
    requires At(s.out, "") == multiset{}
    ensures 0 <= LoadOf(Next(s, cfg, step), w) <= |At(Next(s, cfg, step).out, w)|
  {
    hide Next, AddCopy, DropCopy;
    StepRegistry(s, cfg, step);
    StepOut(s, cfg, step);
    match step
    case Publish => CopyCount(s.out, s.hand.value.1, s.hand.value.0.id, w);
    case Complete(v, id) => CopyCount(s.out, v, id, w);
    case Failed(v, job, _) => CopyCount(s.out, v, job.id, w);
    case _ =>
  }

  lemma {:induction false} NameInHand(s: State)
    requires WellNamed(s)
    ensures s.hand.Some? ==> s.hand.value.1 != ""
  {
  }

  lemma {:induction false} NoCopyUnnamed(cfg: Config, steps: seq<Step>, i: nat)
    requires Legal(cfg, steps) && i <= |steps|
    ensures At(StateAt(cfg, steps, i).out, "") == multiset{}
  {
    hide Next, WellNamed, Legal;
    if i > 0 {
      var s, step := StateAt(cfg, steps, i - 1), steps[i - 1];
      NoCopyUnnamed(cfg, steps, i - 1);
      RunStep(cfg, steps, i - 1);
      StepOut(s, cfg, step);
      assert s.hand.Some? ==> s.hand.value.1 != "" by { NameInHand(s); }
    }
  }

  lemma {:induction false} LoadStep(cfg: Config, steps: seq<Step>, i: nat, w: string)
    requires Legal(cfg, steps) && i < |steps|
    requires 0 <= LoadOf(StateAt(cfg, steps, i), w) <= |At(StateAt(cfg, steps, i).out, w)|
    ensures 0 <= LoadOf(StateAt(cfg, steps, i + 1), w) <= |At(StateAt(cfg, steps, i + 1).out, w)|
  {
    hide Next, LoadOf, WellNamed, Legal, StateAt;
    RunStep(cfg, steps, i);
    NoCopyUnnamed(cfg, steps, i);
    if steps[i].Complete? {
      ReportedIsOut(cfg, steps, i, steps[i].worker, steps[i].id);
    }
    if steps[i].Failed? {
      ReportedIsOut(cfg, steps, i, steps[i].worker, steps[i].job.id);
    }
    StepLoad(StateAt(cfg, steps, i), cfg, steps[i], w);
  }

  /** A worker's load never exceeds the number of its unreported assignments, in any run. */
  lemma {:induction false} LoadIsAtMostOut(cfg: Config, steps: seq<Step>, i: nat, w: string)
    requires Legal(cfg, steps) && i <= |steps|
    ensures 0 <= LoadOf(StateAt(cfg, steps, i), w) <= |At(StateAt(cfg, steps, i).out, w)|
  {
    hide Next;
    if i > 0 {
      LoadIsAtMostOut(cfg, steps, i - 1, w);
      LoadStep(cfg, steps, i - 1, w);
    }
  }

  // ---- A worker registered once ----

  /** The load is what is out, nothing if the worker is not registered; and the worker in hand is registered. */
  predicate LoadIsOut(s: State, w: string) {
    && LoadOf(s, w) == |At(s.out, w)|
    && (s.hand.Some? && s.hand.value.1 == w ==> w in s.registry.workers)
  }

  lemma {:induction false} SelectLoadIsOut(s: State, cfg: Config, clock: S.Clock, w: string)
    requires WellNamed(s) && LoadIsOut(s, w)
    ensures LoadIsOut(OnSelect(s, cfg, clock), w)
  {
    hide S.Select, WellNamed, At;
    if OnSelect(s, cfg, clock).hand.Some? {
      ChosenHasRoom(s, cfg, clock);
    }
  }

  lemma {:induction false} ReportLoadIsOut(s: State, s': State, v: string, id: string, w: string)
    requires LoadIsOut(s, w) && w != "" && id in At(s.out, v)
    requires s'.registry == (if v != "" then W.Decrement(s.registry, v) else s.registry) && s'.hand == s.hand
    requires s'.out == DropCopy(s.out, v, id)
    ensures LoadIsOut(s', w)
  {
    hide DropCopy;
    CopyCount(s.out, v, id, w);
  }

  lemma {:induction false} PublishLoadIsOut(s: State, s': State, v: string, id: string, w: string)
    requires LoadIsOut(s, w) && s'.registry == W.Increment(s.registry, v) && s'.out == AddCopy(s.out, v, id)
    requires s'.hand == None && (v == w ==> w in s.registry.workers)
    ensures LoadIsOut(s', w)
  {
    hide AddCopy;
    CopyCount(s.out, v, id, w);
  }

  lemma {:induction false} StepLoadIsOut(s: State, cfg: Config, step: Step, w: string)
    requires WellNamed(s) && Enabled(s, step) && LoadIsOut(s, w) && w != ""
    requires (step.Complete? ==> step.id in At(s.out, step.worker))
    requires (step.Failed? ==> step.job.id in At(s.out, step.worker))
    requires step.Register? && step.worker == w ==> w !in s.registry.workers
    requires !(step.WorkerFailed? && step.worker == w)
    ensures LoadIsOut(Next(s, cfg, step), w)
  {
    if step.Select? {
      SelectLoadIsOut(s, cfg, step.clock, w);
    } else {
      hide Next, AddCopy, DropCopy, WellNamed, W.Decrement, W.Increment;
      StepRegistry(s, cfg, step);
      StepOut(s, cfg, step);
      match step
      case Publish => PublishLoadIsOut(s, Next(s, cfg, step), s.hand.value.1, s.hand.value.0.id, w);
      case Complete(v, id) => ReportLoadIsOut(s, Next(s, cfg, step), v, id, w);
      case Failed(v, job, _) => ReportLoadIsOut(s, Next(s, cfg, step), v, job.id, w);
      case _ =>
    }
  }

  /** The worker registers at most once and is never declared failed. */
  ghost predicate RegistersOnce(steps: seq<Step>, w: string) {
    && (forall i, j :: 0 <= i < j < |steps| && steps[i].Register? && steps[j].Register? ==>
          steps[i].worker != w || steps[j].worker != w)
    && (forall i :: 0 <= i < |steps| && steps[i].WorkerFailed? ==> steps[i].worker != w)
  }

  lemma {:induction false} NotYetRegistered(cfg: Config, steps: seq<Step>, i: nat, w: string)
    requires i <= |steps| && forall k :: 0 <= k < i && steps[k].Register? ==> steps[k].worker != w
    ensures w !in StateAt(cfg, steps, i).registry.workers
  {
    if i > 0 {
      NotYetRegistered(cfg, steps, i - 1, w);
      StaysUnregistered(cfg, steps, i - 1, w);
    }
  }

  lemma {:induction false} LoadIsOutStep(cfg: Config, steps: seq<Step>, i: nat, w: string)
    requires Legal(cfg, steps) && RegistersOnce(steps, w) && i < |steps| && w != ""
    requires LoadIsOut(StateAt(cfg, steps, i), w)
    ensures LoadIsOut(StateAt(cfg, steps, i + 1), w)
  {
    hide Next, LoadIsOut, WellNamed, Legal, StateAt;
    RunStep(cfg, steps, i);
    if steps[i].Complete? {
      ReportedIsOut(cfg, steps, i, steps[i].worker, steps[i].id);
    }
    if steps[i].Failed? {
      ReportedIsOut(cfg, steps, i, steps[i].worker, steps[i].job.id);
    }
    if steps[i].Register? && steps[i].worker == w {
      NotYetRegistered(cfg, steps, i, w);
    }
    StepLoadIsOut(StateAt(cfg, steps, i), cfg, steps[i], w);
  }

  /** For a worker that registers once and is never declared failed, the load is exactly its unreported assignments. */
  lemma {:induction false} LoadIsExactlyOut(cfg: Config, steps: seq<Step>, i: nat, w: string)
    requires Legal(cfg, steps) && RegistersOnce(steps, w) && i <= |steps| && w != ""
    ensures LoadIsOut(StateAt(cfg, steps, i), w)
  {
    hide Next;
    if i > 0 {
      LoadIsExactlyOut(cfg, steps, i - 1, w);
      LoadIsOutStep(cfg, steps, i - 1, w);
    }
  }
}
