/**
 Workers left HALF_OPEN with nothing to report: exactly how a worker comes to be passed over for
 good, and that it does.
 */
module IdleWorkers {
  import opened Wrappers
  import opened JobQueue
  import opened Coordinator
  import opened CoordinatorRuns
  import opened BreakerRuns
  import C = CircuitBreaker
  import S = Scheduler
  import W = WorkerRegistry

  // ---- A worker that is passed over for good ----

  /** HALF_OPEN with nothing to report: nothing in the worker's hands, and it is not the worker just chosen. */
  ghost predicate Idle(s: State, w: string) {
    && C.BreakerOf(s.breakers, w).state == C.HalfOpen
    && At(s.running, w) == multiset{} && (s.hand.Some? ==> s.hand.value.1 != w)
  }

  /** The copies held, after a step. */
  function RunningAfter(s: State, step: Step): Copies {
    match step
    case Publish => if s.hand.Some? then AddCopy(s.running, s.hand.value.1, s.hand.value.0.id) else s.running
    case Complete(w, id) => DropCopy(s.running, w, id)
    case Failed(w, job, _) => DropCopy(s.running, w, job.id)
    case Crash(w) => s.running[w := multiset{}]
    case _ => s.running
  }

  lemma {:induction false} StepRunning(s: State, cfg: Config, step: Step)
    ensures Next(s, cfg, step).running == RunningAfter(s, step)
  {
    hide RequeueAll, AddCopy, DropCopy;
    match step
    case Failed(w, job, now) =>
      var b := C.Fail(C.BreakerOf(s.breakers, w), cfg.settings, now);
      RetryKeeps(Unheld(Freed(s, w, b), w, job.id), cfg.maxRetries, job);
    case WorkerFailed(w, found) =>
      RequeueAllRunning(s.(registry := W.Remove(s.registry, w), breakers := s.breakers - {w}), found);
    case _ =>
  }

  lemma {:induction false} RequeueAllRunning(s: State, found: seq<string>)
    ensures RequeueAll(s, found).running == s.running
    decreases |found|
  {
    if found != [] {
      RequeueAllRunning(s, found[..|found| - 1]);
    }
  }

  lemma {:induction false} IdleStep(cfg: Config, steps: seq<Step>, i: nat, w: string)
    requires Legal(cfg, steps) && i < |steps| && w != "" && Idle(StateAt(cfg, steps, i), w)
    requires !(steps[i].WorkerFailed? && steps[i].worker == w)
    ensures Idle(StateAt(cfg, steps, i + 1), w)
  {
    hide Next, Legal, StateAt;
    RunStep(cfg, steps, i);
    UntouchedStep(cfg, steps, i, w);
    StepRunning(StateAt(cfg, steps, i), cfg, steps[i]);
    StepRegistry(StateAt(cfg, steps, i), cfg, steps[i]);
  }

  /**
   An idle HALF_OPEN worker is never given a job again, in any continuation, however free it is and
   however long the queue, unless it is declared failed.
   */
  lemma {:induction false} IdleForever(cfg: Config, steps: seq<Step>, k: nat, i: nat, w: string)
    requires Legal(cfg, steps) && k <= i <= |steps| && w != "" && Idle(StateAt(cfg, steps, k), w)
    requires NotPurged(steps, w, k, i)
    ensures Idle(StateAt(cfg, steps, i), w) && forall j :: k <= j < i ==> !Chooses(cfg, steps, j, w)
  {
    hide Legal, StateAt, Idle;
    if k < i {
      IdleForever(cfg, steps, k, i - 1, w);
      IdleStep(cfg, steps, i - 1, w);
      NotChosenWhenIdle(cfg, steps, i - 1, w);
    }
  }

  lemma {:induction false} NotChosenWhenIdle(cfg: Config, steps: seq<Step>, i: nat, w: string)
    requires i < |steps| && Idle(StateAt(cfg, steps, i + 1), w)
    ensures !Chooses(cfg, steps, i, w)
  {
  }

  // ---- A permit spent in vain ----

  /** OPEN, and the recovery timeout is over when the worker is asked. */
  predicate Due(s: State, cfg: Config, clock: S.Clock, w: string) {
    var b := C.BreakerOf(s.breakers, w);
    b.state == C.Open && clock(w) - b.lastFailure >= cfg.settings.recoveryTimeout
  }

  /** Another worker may be given the job, and has more capacity left, or as much and registered earlier. */
  ghost predicate Outdone(s: State, cfg: Config, clock: S.Clock, w: string)
    requires w in s.registry.workers
  {
    exists v :: v in s.registry.workers && S.Permitted(s.registry, s.breakers, cfg.settings, clock, v)
      && S.Preferred(s.registry, v, w)
  }

  /** The worker is asked, and another is better: all of it known before the selection. */
  ghost predicate InVain(s: State, cfg: Config, clock: S.Clock, w: string) {
    s.queue.entries != [] && W.HasRoom(s.registry, w) && Outdone(s, cfg, clock, w)
  }

  lemma {:induction false} NotBoth(order: seq<string>, a: string, b: string)
    requires W.NoDuplicates(order) && W.Precedes(order, a, b)
    ensures a != b && !W.Precedes(order, b, a)
  {
    var i, j :| 0 <= i < j < |order| && order[i] == a && order[j] == b;
  }

  /**
   The trial permit, exactly: for a worker whose OPEN period is over, the selection leaves it
   HALF_OPEN without a job iff a job is queued, it has room, and another worker that may be given
   the job has more free capacity, or as much and registered earlier.
   */
  lemma {:induction false} PermitInVain(s: State, cfg: Config, clock: S.Clock, w: string)
    requires WellNamed(s) && Due(s, cfg, clock, w)
    ensures var s' := OnSelect(s, cfg, clock);
      (C.BreakerOf(s'.breakers, w).state == C.HalfOpen && !(s'.hand.Some? && s'.hand.value.1 == w))
      <==> InVain(s, cfg, clock, w)
  {
    hide S.Select, W.Precedes, W.HasRoom;
    S.SelectSpec(s.registry, s.breakers, s.queue, cfg.settings, clock);
    SelectAsks(s, cfg, clock, w);
    if s.queue.entries != [] && W.HasRoom(s.registry, w) {
      RoomIsRegistered(s.registry, w);
      assert S.Permitted(s.registry, s.breakers, cfg.settings, clock, w);
      var u := OnSelect(s, cfg, clock).hand.value.1;
      if u == w && Outdone(s, cfg, clock, w) {
        var v :| v in s.registry.workers && S.Permitted(s.registry, s.breakers, cfg.settings, clock, v)
          && S.Preferred(s.registry, v, w);
        if W.Precedes(s.registry.order, v, w) {
          NotBoth(s.registry.order, v, w);
        }
      }
    }
  }

  lemma {:induction false} RoomIsRegistered(r: W.Registry, w: string)
    requires W.HasRoom(r, w)
    ensures w in r.workers
  {
  }

  // ---- Exactly which runs leave a worker idle ----

  /**
   The step makes the worker idle: a selection that spends its permit in vain while it holds
   nothing, or a crash in which it loses what it held while HALF_OPEN.
   */
  ghost predicate MakesIdle(s: State, cfg: Config, step: Step, w: string) {
    match step
    case Select(clock) => Due(s, cfg, clock, w) && At(s.running, w) == multiset{} && InVain(s, cfg, clock, w)
    case Crash(v) =>
      && v == w && C.BreakerOf(s.breakers, w).state == C.HalfOpen && At(s.running, w) != multiset{}
      && (s.hand.Some? ==> s.hand.value.1 != w)
    case _ => false
  }

  lemma {:induction false} SelectMakesIdle(s: State, cfg: Config, clock: S.Clock, w: string)
    requires WellNamed(s) && s.hand == None && !Idle(s, w)
    ensures Idle(OnSelect(s, cfg, clock), w) <==> MakesIdle(s, cfg, Select(clock), w)
  {
    hide InVain, S.Select;
    SelectAsks(s, cfg, clock, w);
    if Due(s, cfg, clock, w) {
      PermitInVain(s, cfg, clock, w);
    }
  }

  lemma {:induction false} OtherMakesIdle(s: State, cfg: Config, step: Step, w: string)
    requires !step.Select? && (step.Publish? ==> s.hand.Some?) && w != "" && !Idle(s, w)
    requires (step.Complete? ==> step.id in At(s.running, step.worker))
    requires (step.Failed? ==> step.job.id in At(s.running, step.worker))
    ensures Idle(Next(s, cfg, step), w) <==> MakesIdle(s, cfg, step, w)
  {
    hide Next, DropCopy, AddCopy;
    StepBreakers(s, cfg, step);
    StepRunning(s, cfg, step);
    StepRegistry(s, cfg, step);
    match step
    case Publish => CopiesElsewhere(s.running, s.hand.value.1, s.hand.value.0.id, w);
    case Complete(v, id) => CopiesElsewhere(s.running, v, id, w);
    case Failed(v, job, _) => CopiesElsewhere(s.running, v, job.id, w);
    case _ =>
  }

  lemma {:induction false} CopiesElsewhere(c: Copies, v: string, x: string, w: string)
    ensures v != w ==> At(AddCopy(c, v, x), w) == At(c, w) && At(DropCopy(c, v, x), w) == At(c, w)
    ensures x in At(AddCopy(c, v, x), v)
  {
  }

  lemma {:induction false} IdleArises(cfg: Config, steps: seq<Step>, i: nat, w: string)
    requires Legal(cfg, steps) && i < |steps| && w != "" && !Idle(StateAt(cfg, steps, i), w)
    ensures Idle(StateAt(cfg, steps, i + 1), w) <==> MakesIdle(StateAt(cfg, steps, i), cfg, steps[i], w)
  {
    hide Idle, MakesIdle, Legal, StateAt;
    var s := StateAt(cfg, steps, i);
    RunStep(cfg, steps, i);
    if steps[i].Select? {
      SelectMakesIdle(s, cfg, steps[i].clock, w);
    } else {
      OtherMakesIdle(s, cfg, steps[i], w);
    }
  }

  lemma {:induction false} PurgeEndsIdle(s: State, cfg: Config, found: seq<string>, w: string)
    requires w != ""
    ensures !Idle(Next(s, cfg, WorkerFailed(w, found)), w)
  {
    hide Next;
    StepBreakers(s, cfg, WorkerFailed(w, found));
  }

  lemma {:induction false} IdleStaysNot(s: State, cfg: Config, step: Step, w: string)
    requires MakesIdle(s, cfg, step, w)
    ensures !Idle(s, w)
  {
  }

  /** The worker was made idle at step `k`, and not purged since. */
  ghost predicate IdleSince(cfg: Config, steps: seq<Step>, k: nat, i: nat, w: string)
    requires i <= |steps|
  {
    k < i && MakesIdle(StateAt(cfg, steps, k), cfg, steps[k], w) && NotPurged(steps, w, k + 1, i)
  }

  lemma {:induction false} IdleHasCause(cfg: Config, steps: seq<Step>, i: nat, w: string) returns (k: nat)
    requires Legal(cfg, steps) && i <= |steps| && w != "" && Idle(StateAt(cfg, steps, i), w)
    ensures IdleSince(cfg, steps, k, i, w)
    decreases i
  {
    hide MakesIdle, Legal, Next;
    if i == 0 {
      assert false;
    } else if !Idle(StateAt(cfg, steps, i - 1), w) {
      IdleArises(cfg, steps, i - 1, w);
      k := i - 1;
    } else {
      if steps[i - 1].WorkerFailed? && steps[i - 1].worker == w {
        PurgeEndsIdle(StateAt(cfg, steps, i - 1), cfg, steps[i - 1].found, w);
      }
      k := IdleHasCause(cfg, steps, i - 1, w);
    }
  }

  /**
   In every run, exactly: a worker is HALF_OPEN with nothing to report iff some earlier selection
   spent its permit in vain, or it lost in a crash what it held while HALF_OPEN, and it was not
   purged since.
   */
  lemma {:induction false} IdleExactly(cfg: Config, steps: seq<Step>, i: nat, w: string)
    requires Legal(cfg, steps) && i <= |steps| && w != ""
    ensures Idle(StateAt(cfg, steps, i), w) <==> exists k: nat :: IdleSince(cfg, steps, k, i, w)
  {
    hide MakesIdle, Legal, StateAt, Idle;
    if Idle(StateAt(cfg, steps, i), w) {
      var k := IdleHasCause(cfg, steps, i, w);
    }
    forall k: nat | IdleSince(cfg, steps, k, i, w) ensures Idle(StateAt(cfg, steps, i), w) {
      IdleStaysNot(StateAt(cfg, steps, k), cfg, steps[k], w);
      IdleArises(cfg, steps, k, w);
      IdleForever(cfg, steps, k + 1, i, w);
    }
  }

  // ---- It happens, whatever the threshold ----

  lemma {:induction false} SameStates(cfg: Config, steps: seq<Step>, step: Step, i: nat)
    requires i <= |steps|
    ensures StateAt(cfg, steps + [step], i) == StateAt(cfg, steps, i)
  {
    hide Next;
    if i > 0 {
      SameStates(cfg, steps, step, i - 1);
      assert (steps + [step])[i - 1] == steps[i - 1];
    }
  }

  function LastState(cfg: Config, steps: seq<Step>): State { StateAt(cfg, steps, |steps|) }

  /** One more step that is enabled. */
  lemma {:induction false} Continue(cfg: Config, steps: seq<Step>, step: Step)
    requires Legal(cfg, steps) && Enabled(LastState(cfg, steps), step)
    ensures Legal(cfg, steps + [step]) && LastState(cfg, steps + [step]) == Next(LastState(cfg, steps), cfg, step)
  {
    hide Next, Enabled;
    forall i | 0 <= i < |steps| + 1 ensures Enabled(StateAt(cfg, steps + [step], i), (steps + [step])[i]) {
      SameStates(cfg, steps, step, i);
    }
    SameStates(cfg, steps, step, |steps|);
  }

  /** The only worker, with capacity 1, and what its breaker is. */
  ghost predicate Lone(s: State, w: string, load: int, b: C.Breaker) {
    && s.registry == W.Registry([w], map[w := W.Worker(1, load, 0.0)])
    && s.breakers.Keys <= {w} && C.BreakerOf(s.breakers, w) == b
  }

  /** Between jobs, after `n` jobs that all failed; ids of length `n` and more are fresh. */
  ghost predicate Ready(s: State, cfg: Config, w: string, n: nat) {
    && Lone(s, w, 0, FailedTimes(cfg, n)) && s.hand == None && At(s.running, w) == multiset{}
    && forall id :: id in s.table ==> |id| < n
  }

  function FailedTimes(cfg: Config, n: nat): C.Breaker {
    if n == 0 then C.NEW_BREAKER
    else C.Breaker(if n >= cfg.settings.failureThreshold then C.Open else C.Closed, n, 0.0, false)
  }

  function JobNumber(n: nat): Job { Job(seq(n, _ => 'j'), "t", Absent, None) }

  lemma {:induction false} SubmitLone(s: State, cfg: Config, w: string, n: nat)
    requires Ready(s, cfg, w, n)
    ensures var s' := OnSubmit(s, JobNumber(n));
      && Lone(s', w, 0, FailedTimes(cfg, n)) && s'.hand == None
      && At(s'.running, w) == multiset{} && s'.queue.entries != []
      && (forall id :: id in s'.table ==> |id| < n + 1) && JobNumber(n).id !in s.table
  {
    AddNotEmpty(s.queue, JobNumber(n));
  }

  lemma {:induction false} AddNotEmpty(q: Queue, job: Job)
    ensures Add(q, job).entries != []
  {
  }

  lemma {:induction false} SelectLone(s: State, cfg: Config, w: string, n: nat)
    requires Lone(s, w, 0, FailedTimes(cfg, n)) && w != "" && s.hand == None && s.queue.entries != []
    requires FailedTimes(cfg, n).state == C.Closed
    ensures var s' := OnSelect(s, cfg, S.Still(0.0));
      && Lone(s', w, 0, FailedTimes(cfg, n)) && s'.hand.Some? && s'.hand.value.1 == w
      && s'.running == s.running && s'.table == s.table
  {
    hide S.Select;
    var clock := S.Still(0.0);
    LoneNamed(s, w, 0, FailedTimes(cfg, n));
    S.SelectSpec(s.registry, s.breakers, s.queue, cfg.settings, clock);
    S.SelectKeys(s.registry, s.breakers, s.queue, cfg.settings, clock);
    SelectAsks(s, cfg, clock, w);
    assert S.Permitted(s.registry, s.breakers, cfg.settings, clock, w);
  }

  lemma {:induction false} LoneNamed(s: State, w: string, load: int, b: C.Breaker)
    requires Lone(s, w, load, b) && w != "" && s.hand == None
    ensures WellNamed(s)
  {
  }

  lemma {:induction false} PublishLone(s: State, cfg: Config, w: string, n: nat)
    requires Lone(s, w, 0, FailedTimes(cfg, n)) && s.hand.Some? && s.hand.value.1 == w
    requires At(s.running, w) == multiset{} && forall id :: id in s.table ==> |id| < n + 1
    ensures var s' := OnPublish(s);
      && Lone(s', w, 1, FailedTimes(cfg, n)) && s'.hand == None && At(s'.running, w) == multiset{s.hand.value.0.id}
      && forall id :: id in s'.table ==> |id| < n + 1
  {
    assert OnPublish(s).registry == W.Registry([w], map[w := W.Worker(1, 1, 0.0)]);
  }

  lemma {:induction false} FailLone(s: State, cfg: Config, w: string, n: nat, job: Job)
    requires Lone(s, w, 1, FailedTimes(cfg, n)) && s.hand == None && At(s.running, w) == multiset{job.id} && w != ""
    requires FailedTimes(cfg, n).state == C.Closed && forall id :: id in s.table ==> |id| < n + 1
    ensures Ready(OnFailed(s, cfg, w, job, 0.0), cfg, w, n + 1)
  {
    hide OnFailed, W.Decrement, C.Fail, DropCopy;
    LoneFails(cfg, n);
    NoneLeft(s.running, w, job.id);
    FailedKeeps(s, cfg, w, job, 0.0);
    StepRunning(s, cfg, Failed(w, job, 0.0));
    FailedRows(s, cfg, w, job);
    LoneFreed(s.registry, w);
  }

  lemma {:induction false} LoneFails(cfg: Config, n: nat)
    requires FailedTimes(cfg, n).state == C.Closed
    ensures C.Fail(FailedTimes(cfg, n), cfg.settings, 0.0) == FailedTimes(cfg, n + 1)
  {
  }

  lemma {:induction false} NoneLeft(c: Copies, w: string, id: string)
    requires At(c, w) == multiset{id}
    ensures At(DropCopy(c, w, id), w) == multiset{}
  {
  }

  lemma {:induction false} FailedRows(s: State, cfg: Config, w: string, job: Job)
    ensures OnFailed(s, cfg, w, job, 0.0).table.Keys == s.table.Keys
  {
    hide Add, C.Fail, DropCopy, Freed;
    FreedRows(s, w, C.Fail(C.BreakerOf(s.breakers, w), cfg.settings, 0.0));
  }

  lemma {:induction false} FreedRows(s: State, w: string, b: C.Breaker)
    ensures Freed(s, w, b).table == s.table
  {
  }

  lemma {:induction false} LoneFreed(r: W.Registry, w: string)
    requires r == W.Registry([w], map[w := W.Worker(1, 1, 0.0)])
    ensures W.Decrement(r, w) == W.Registry([w], map[w := W.Worker(1, 0, 0.0)])
  {
    assert W.Decrement(r, w).workers == map[w := W.Worker(1, 0, 0.0)];
  }

  /** One more job for the lone worker, which fails. */
  lemma {:induction false} FailOnce(cfg: Config, steps: seq<Step>, w: string, n: nat) returns (more: seq<Step>)
    requires Legal(cfg, steps) && w != "" && Ready(LastState(cfg, steps), cfg, w, n)
    requires FailedTimes(cfg, n).state == C.Closed
    ensures Legal(cfg, more) && Ready(LastState(cfg, more), cfg, w, n + 1)
  {
    hide Legal, LastState, Ready, Lone, OnSubmit, OnSelect, OnPublish, OnFailed, FailedTimes;
    var s := LastState(cfg, steps);
    SubmitLone(s, cfg, w, n);
    Continue(cfg, steps, Submit(JobNumber(n)));
    more := steps + [Submit(JobNumber(n))];
    var s1 := LastState(cfg, more);
    SelectLone(s1, cfg, w, n);
    Continue(cfg, more, Select(S.Still(0.0)));
    more := more + [Select(S.Still(0.0))];
    var s2 := LastState(cfg, more);
    PublishLone(s2, cfg, w, n);
    Continue(cfg, more, Publish);
    more := more + [Publish];
    var s3, job := LastState(cfg, more), s2.hand.value.0;
    FailLone(s3, cfg, w, n, job);
    Continue(cfg, more, Failed(w, job, 0.0));
    more := more + [Failed(w, job, 0.0)];
  }

  /** Enough failures to open the breaker. */
  lemma {:induction false} FailTimes(cfg: Config, w: string, n: nat) returns (steps: seq<Step>)
    requires w != "" && (n == 0 || FailedTimes(cfg, n - 1).state == C.Closed)
    ensures Legal(cfg, steps) && Ready(LastState(cfg, steps), cfg, w, n)
  {
    if n == 0 {
      steps := FirstRegister(cfg, w);
    } else {
      hide Legal, LastState, Ready;
      steps := FailTimes(cfg, w, n - 1);
      steps := FailOnce(cfg, steps, w, n - 1);
    }
  }

  lemma {:induction false} FirstRegister(cfg: Config, w: string) returns (steps: seq<Step>)
    requires w != ""
    ensures Legal(cfg, steps) && Ready(LastState(cfg, steps), cfg, w, 0)
  {
    steps := [Register(w, 1, 0.0)];
    assert steps[0] == Register(w, 1, 0.0) && StateAt(cfg, steps, 0) == INIT;
    assert LastState(cfg, steps) == OnRegister(INIT, w, 1, 0.0);
    assert [] + [w] == [w];
  }

  /** A larger worker registers: the next selection spends the permit of the first in vain. */
  lemma {:induction false} LargerOutdoes(s: State, cfg: Config, v: string, w: string, n: nat)
    requires s.registry == W.Registry([w, v], map[w := W.Worker(1, 0, 0.0), v := W.Worker(2, 0, 0.0)])
    requires v != w && v != "" && w != "" && s.hand == None && At(s.running, w) == multiset{}
    requires s.queue.entries != [] && s.breakers.Keys <= {w} && C.BreakerOf(s.breakers, w) == FailedTimes(cfg, n)
    requires FailedTimes(cfg, n).state == C.Open
    ensures WellNamed(s) && Idle(OnSelect(s, cfg, S.Still(cfg.settings.recoveryTimeout)), w)
  {
    hide OnSelect;
    var clock := S.Still(cfg.settings.recoveryTimeout);
    assert S.Permitted(s.registry, s.breakers, cfg.settings, clock, v);
    assert Outdone(s, cfg, clock, w);
    SelectMakesIdle(s, cfg, clock, w);
  }

  /**
   This happens under every configuration: there is a run, of failures of one worker until its
   breaker opens and then the registration of a larger one, that leaves the first idle for good.
   */
  lemma {:induction false} PassedOverHappens(cfg: Config, v: string, w: string) returns (steps: seq<Step>)
    requires w != "" && v != "" && v != w
    ensures Legal(cfg, steps) && Idle(LastState(cfg, steps), w)
  {
    hide Legal, LastState, Ready, OnSubmit, OnSelect, OnRegister, Idle, Lone;
    var n := if cfg.settings.failureThreshold >= 1 then cfg.settings.failureThreshold else 1;
    steps := FailTimes(cfg, w, n);
    var s := LastState(cfg, steps);
    SubmitLone(s, cfg, w, n);
    Continue(cfg, steps, Submit(JobNumber(n)));
    steps := steps + [Submit(JobNumber(n))];
    var s1 := LastState(cfg, steps);
    LargerJoins(s1, cfg, v, w, n);
    Continue(cfg, steps, Register(v, 2, 0.0));
    steps := steps + [Register(v, 2, 0.0)];
    var s2 := LastState(cfg, steps);
    LargerOutdoes(s2, cfg, v, w, n);
    Continue(cfg, steps, Select(S.Still(cfg.settings.recoveryTimeout)));
    steps := steps + [Select(S.Still(cfg.settings.recoveryTimeout))];
  }

  lemma {:induction false} LargerJoins(s1: State, cfg: Config, v: string, w: string, n: nat)
    requires Lone(s1, w, 0, FailedTimes(cfg, n)) && v != w && v != "" && w != ""
    ensures var s2 := OnRegister(s1, v, 2, 0.0);
      && s2.registry == W.Registry([w, v], map[w := W.Worker(1, 0, 0.0), v := W.Worker(2, 0, 0.0)])
      && s2 == s1.(registry := s2.registry)
      && s2.breakers.Keys <= {w} && C.BreakerOf(s2.breakers, w) == FailedTimes(cfg, n)
  {
    assert [w] + [v] == [w, v];
  }
}
