/**
 The circuit breakers as the scheduler uses them: in a run of the coordinator each worker's breaker
 is the breaker of that worker's own history, and what follows for who is given a job when.
 */
module BreakerRuns {
  import opened Wrappers
  import opened JobQueue
  import opened Coordinator
  import opened CoordinatorRuns
  import C = CircuitBreaker
  import S = Scheduler
  import T = TaskRepository
  import W = WorkerRegistry

  /** The breakers after a step, by themselves. */
  function BreakersAfter(s: State, cfg: Config, step: Step): C.Breakers {
    match step
    case Select(clock) => S.Select(s.registry, s.breakers, s.queue, cfg.settings, clock).breakers
    case Complete(w, _) => if w != "" then s.breakers[w := C.Succeed(C.BreakerOf(s.breakers, w))] else s.breakers
    case Failed(w, _, now) =>
      if w != "" then s.breakers[w := C.Fail(C.BreakerOf(s.breakers, w), cfg.settings, now)] else s.breakers
    case WorkerFailed(w, _) => if w != "" then s.breakers - {w} else s.breakers
    case _ => s.breakers
  }

  lemma {:induction false} StepBreakers(s: State, cfg: Config, step: Step)
    ensures Next(s, cfg, step).breakers == BreakersAfter(s, cfg, step)
  {
    hide OnFailed, RequeueAll, S.Select, Add, AddCopy, DropCopy, T.UpdateRow, C.Fail, C.Succeed;
    match step
    case Failed(w, job, now) => FailedKeeps(s, cfg, w, job, now);
    case WorkerFailed(w, found) =>
      RequeueAllKeeps(s.(registry := W.Remove(s.registry, w), breakers := s.breakers - {w}), found);
    case _ =>
  }

  // ---- Each breaker runs on its worker's own history ----

  /** What the breaker of `w` sees of a step: a report, a request for a permit, or the end of its lifetime. */
  function Seen(s: State, step: Step, w: string, h: seq<C.Event>): seq<C.Event> {
    match step
    case Complete(v, _) => if v == w then h + [C.Success] else h
    case Failed(v, _, now) => if v == w then h + [C.Failure(now)] else h
    case Select(clock) =>
      if s.queue.entries != [] && W.HasRoom(s.registry, w) then h + [C.Request(clock(w))] else h
    case WorkerFailed(v, _) => if v == w then [] else h
    case _ => h
  }

  function History(cfg: Config, steps: seq<Step>, i: nat, w: string): seq<C.Event>
    requires i <= |steps|
  {
    if i == 0 then [] else Seen(StateAt(cfg, steps, i - 1), steps[i - 1], w, History(cfg, steps, i - 1, w))
  }

  function Run(st: C.Settings, h: seq<C.Event>): C.Breaker { C.RunTo(st, h, |h|) }

  lemma {:induction false} RunPrefix(st: C.Settings, h: seq<C.Event>, e: C.Event, i: nat)
    requires i <= |h|
    ensures C.RunTo(st, h + [e], i) == C.RunTo(st, h, i)
  {
    if i > 0 {
      RunPrefix(st, h, e, i - 1);
      assert (h + [e])[i - 1] == h[i - 1];
    }
  }

  lemma {:induction false} RunOneMore(st: C.Settings, h: seq<C.Event>, e: C.Event)
    ensures Run(st, h + [e]) == C.Next(Run(st, h), st, e)
  {
    RunPrefix(st, h, e, |h|);
  }

  lemma {:induction false} SelectAsks(s: State, cfg: Config, clock: S.Clock, w: string)
    requires WellNamed(s)
    ensures C.BreakerOf(S.Select(s.registry, s.breakers, s.queue, cfg.settings, clock).breakers, w) ==
            if s.queue.entries != [] && W.HasRoom(s.registry, w)
            then C.Ask(C.BreakerOf(s.breakers, w), cfg.settings, clock(w))
            else C.BreakerOf(s.breakers, w)
  {
    hide C.Ask;
    if s.queue.entries != [] {
      S.SelectBreakers(s.registry, s.breakers, s.queue, cfg.settings, clock, w);
    }
  }

  lemma {:induction false} SeenByBreaker(s: State, cfg: Config, step: Step, w: string, h: seq<C.Event>)
    requires WellNamed(s) && w != "" && C.BreakerOf(s.breakers, w) == Run(cfg.settings, h)
    ensures C.BreakerOf(BreakersAfter(s, cfg, step), w) == Run(cfg.settings, Seen(s, step, w, h))
  {
    hide S.Select, WellNamed, C.Fail, C.Succeed, C.Ask, Run;
    assert Run(cfg.settings, []) == C.NEW_BREAKER by { EmptyRun(cfg.settings); }
    match step
    case Complete(v, _) => RunOneMore(cfg.settings, h, C.Success);
    case Failed(v, _, now) => RunOneMore(cfg.settings, h, C.Failure(now));
    case Select(clock) =>
      SelectAsks(s, cfg, clock, w);
      RunOneMore(cfg.settings, h, C.Request(clock(w)));
    case _ =>
  }

  lemma {:induction false} EmptyRun(st: C.Settings)
    ensures Run(st, []) == C.NEW_BREAKER
  {
  }

  /** The simulation: in every run, the breaker of a worker is the breaker of what it saw since it was last purged. */
  lemma {:induction false} BreakerRunsOnHistory(cfg: Config, steps: seq<Step>, i: nat, w: string)
    requires Legal(cfg, steps) && i <= |steps| && w != ""
    ensures C.BreakerOf(StateAt(cfg, steps, i).breakers, w) == Run(cfg.settings, History(cfg, steps, i, w))
  {
    hide Next, Legal, WellNamed, Enabled, Seen, Run, BreakersAfter;
    if i == 0 {
      EmptyRun(cfg.settings);
    } else {
      BreakerRunsOnHistory(cfg, steps, i - 1, w);
      RunStep(cfg, steps, i - 1);
      StepBreakers(StateAt(cfg, steps, i - 1), cfg, steps[i - 1]);
      SeenByBreaker(StateAt(cfg, steps, i - 1), cfg, steps[i - 1], w, History(cfg, steps, i - 1, w));
    }
  }

  // ---- Who is given a job ----

  /** Step `i` is a selection that chose `w`. */
  ghost predicate Chooses(cfg: Config, steps: seq<Step>, i: nat, w: string) {
    && i < |steps| && steps[i].Select?
    && StateAt(cfg, steps, i + 1).hand.Some? && StateAt(cfg, steps, i + 1).hand.value.1 == w
  }

  function BreakerAt(cfg: Config, steps: seq<Step>, i: nat, w: string): C.Breaker
    requires i <= |steps|
  {
    C.BreakerOf(StateAt(cfg, steps, i).breakers, w)
  }

  lemma {:induction false} ChosenIsPermitted(s: State, cfg: Config, clock: S.Clock, w: string)
    requires WellNamed(s) && OnSelect(s, cfg, clock).hand.Some? && OnSelect(s, cfg, clock).hand.value.1 == w
    ensures s.queue.entries != [] && W.HasRoom(s.registry, w)
    ensures C.Permits(C.BreakerOf(s.breakers, w), cfg.settings, clock(w))
  {
    S.SelectSpec(s.registry, s.breakers, s.queue, cfg.settings, clock);
  }

  lemma {:induction false} ChoiceIsPermitted(cfg: Config, steps: seq<Step>, i: nat, w: string)
    requires Legal(cfg, steps) && Chooses(cfg, steps, i, w)
    ensures StateAt(cfg, steps, i).queue.entries != [] && W.HasRoom(StateAt(cfg, steps, i).registry, w) && w != ""
    ensures C.Permits(BreakerAt(cfg, steps, i, w), cfg.settings, steps[i].clock(w))
  {
    hide OnSelect, Legal, W.HasRoom;
    RunStep(cfg, steps, i);
    ChosenIsPermitted(StateAt(cfg, steps, i), cfg, steps[i].clock, w);
    NamedAlways(cfg, steps, i + 1);
  }

  /**
   No worker is given a job while its breaker is HALF_OPEN, or OPEN for less than the recovery
   timeout since its last failure. In terms of its history: with a threshold of at least 1, its
   failures since the last success heeded are below the threshold, or the last is a timeout ago.
   */
  lemma {:induction false} GivenOnlyWhenPermitted(cfg: Config, steps: seq<Step>, i: nat, w: string)
    requires Legal(cfg, steps) && Chooses(cfg, steps, i, w)
    ensures var b, now := BreakerAt(cfg, steps, i, w), steps[i].clock(w);
      b.state == C.Closed || (b.state == C.Open && now - b.lastFailure >= cfg.settings.recoveryTimeout)
    ensures cfg.settings.failureThreshold >= 1 ==>
      var h := History(cfg, steps, i, w);
      var r := C.RecordTo(cfg.settings, h, |h|);
      r.failures < cfg.settings.failureThreshold || steps[i].clock(w) - r.lastFailure >= cfg.settings.recoveryTimeout
  {
    hide StateAt, Legal, History, W.HasRoom;
    var h := History(cfg, steps, i, w);
    ChoiceIsPermitted(cfg, steps, i, w);
    BreakerRunsOnHistory(cfg, steps, i, w);
    C.TrialIffHalfOpen(cfg.settings, h, |h|, steps[i].clock(w));
    if cfg.settings.failureThreshold >= 1 {
      C.BreakerMeansItsHistory(cfg.settings, h, |h|);
    }
  }

  /** A report from `w`, or its purge. */
  predicate Touches(step: Step, w: string) {
    match step
    case Complete(v, _) => v == w
    case Failed(v, _, _) => v == w
    case WorkerFailed(v, _) => v == w
    case _ => false
  }

  lemma {:induction false} UntouchedStep(cfg: Config, steps: seq<Step>, i: nat, w: string)
    requires Legal(cfg, steps) && i < |steps| && w != "" && BreakerAt(cfg, steps, i, w).state == C.HalfOpen
    requires !Touches(steps[i], w)
    ensures BreakerAt(cfg, steps, i + 1, w).state == C.HalfOpen && !Chooses(cfg, steps, i, w)
  {
    var h := History(cfg, steps, i, w);
    BreakerRunsOnHistory(cfg, steps, i, w);
    if steps[i].Select? {
      C.TrialIffHalfOpen(cfg.settings, h, |h|, steps[i].clock(w));
      if Chooses(cfg, steps, i, w) {
        ChoiceIsPermitted(cfg, steps, i, w);
      }
      BreakerAsked(cfg, steps, i, w);
    } else {
      hide Next;
      RunStep(cfg, steps, i);
      StepBreakers(StateAt(cfg, steps, i), cfg, steps[i]);
    }
  }

  lemma {:induction false} BreakerAsked(cfg: Config, steps: seq<Step>, i: nat, w: string)
    requires Legal(cfg, steps) && i < |steps| && steps[i].Select?
    ensures var b := BreakerAt(cfg, steps, i, w);
      BreakerAt(cfg, steps, i + 1, w) in {b, C.Ask(b, cfg.settings, steps[i].clock(w))}
  {
    hide C.Ask;
    RunStep(cfg, steps, i);
    SelectAsks(StateAt(cfg, steps, i), cfg, steps[i].clock, w);
  }

  /**
   A HALF_OPEN worker is given nothing until it reports or is purged, whether or not it was the
   worker chosen when its trial permit was spent.
   */
  lemma {:induction false} HalfOpenIsPassedOver(cfg: Config, steps: seq<Step>, k: nat, i: nat, w: string)
    requires Legal(cfg, steps) && k <= i <= |steps| && w != "" && BreakerAt(cfg, steps, k, w).state == C.HalfOpen
    requires forall j :: k <= j < i ==> !Touches(steps[j], w)
    ensures BreakerAt(cfg, steps, i, w).state == C.HalfOpen && forall j :: k <= j < i ==> !Chooses(cfg, steps, j, w)
  {
    hide BreakerAt, Legal, Chooses, Touches;
    if k < i {
      HalfOpenIsPassedOver(cfg, steps, k, i - 1, w);
      UntouchedStep(cfg, steps, i - 1, w);
    }
  }

  /**
   At most one job per HALF_OPEN episode: between two choices of a worker, the first a trial, comes
   a report or a purge.
   */
  lemma {:induction false} OneJobPerTrial(cfg: Config, steps: seq<Step>, i: nat, j: nat, w: string)
    requires Legal(cfg, steps) && i < j && Chooses(cfg, steps, i, w) && Chooses(cfg, steps, j, w)
    requires BreakerAt(cfg, steps, i, w).state == C.Open
    ensures exists m :: i < m < j && Touches(steps[m], w)
  {
    hide StateAt, Legal, Touches, W.HasRoom;
    ChoiceIsPermitted(cfg, steps, i, w);
    ChoiceIsTrial(cfg, steps, i, w);
    if forall m :: i + 1 <= m < j ==> !Touches(steps[m], w) {
      HalfOpenIsPassedOver(cfg, steps, i + 1, j, w);
      GivenOnlyWhenPermitted(cfg, steps, j, w);
    }
  }

  lemma {:induction false} ChoiceIsTrial(cfg: Config, steps: seq<Step>, i: nat, w: string)
    requires Legal(cfg, steps) && Chooses(cfg, steps, i, w) && BreakerAt(cfg, steps, i, w).state == C.Open
    ensures BreakerAt(cfg, steps, i + 1, w).state == C.HalfOpen
  {
    hide OnSelect, Legal, W.HasRoom;
    ChoiceIsPermitted(cfg, steps, i, w);
    RunStep(cfg, steps, i);
    SelectAsks(StateAt(cfg, steps, i), cfg, steps[i].clock, w);
    StepBreakers(StateAt(cfg, steps, i), cfg, steps[i]);
  }

  // ---- The spacing of trials ----

  /** Step `i` grants the worker a trial, whether or not it is chosen. */
  ghost predicate GrantsTrial(cfg: Config, steps: seq<Step>, i: nat, w: string) {
    && i < |steps| && steps[i].Select?
    && BreakerAt(cfg, steps, i, w).state == C.Open && BreakerAt(cfg, steps, i + 1, w).state == C.HalfOpen
  }

  /** Number of trials granted in steps [i, j). */
  ghost function TrialsGranted(cfg: Config, steps: seq<Step>, w: string, i: nat, j: nat): nat
    decreases j
  {
    if j <= i then 0 else TrialsGranted(cfg, steps, w, i, j - 1) + Count(GrantsTrial(cfg, steps, j - 1, w))
  }

  /** The time of a step as the breaker of `w` reads it, if it reads the clock in that step. */
  function TimeOf(step: Step, w: string): Option<real> {
    match step
    case Select(clock) => Some(clock(w))
    case Failed(v, _, now) => if v == w then Some(now) else None
    case _ => None
  }

  ghost predicate ClockForward(steps: seq<Step>, w: string) {
    forall i, j :: 0 <= i < j < |steps| && TimeOf(steps[i], w).Some? && TimeOf(steps[j], w).Some? ==>
      TimeOf(steps[i], w).value <= TimeOf(steps[j], w).value
  }

  ghost predicate NotPurged(steps: seq<Step>, w: string, i: nat, j: nat) {
    forall k :: i <= k < j && k < |steps| ==> !(steps[k].WorkerFailed? && steps[k].worker == w)
  }

  lemma {:induction false} BreakerStep(cfg: Config, steps: seq<Step>, i: nat, w: string)
    requires Legal(cfg, steps) && i < |steps| && w != "" && !(steps[i].WorkerFailed? && steps[i].worker == w)
    ensures var b, b' := BreakerAt(cfg, steps, i, w), BreakerAt(cfg, steps, i + 1, w);
      || b' == b
      || b' == C.Succeed(b)
      || (steps[i].Failed? && steps[i].worker == w && b' == C.Fail(b, cfg.settings, steps[i].now))
      || (steps[i].Select? && b' == C.Ask(b, cfg.settings, steps[i].clock(w)))
  {
    hide Next, C.Ask, C.Fail, C.Succeed, S.Select, WellNamed;
    RunStep(cfg, steps, i);
    StepBreakers(StateAt(cfg, steps, i), cfg, steps[i]);
    if steps[i].Select? {
      SelectAsks(StateAt(cfg, steps, i), cfg, steps[i].clock, w);
    }
  }

  /** Once a trial was granted, an OPEN state must come from a later failure. */
  lemma {:induction false} OpenAfterTrial(cfg: Config, steps: seq<Step>, i: nat, m: nat, w: string)
    requires Legal(cfg, steps) && w != "" && ClockForward(steps, w) && GrantsTrial(cfg, steps, i, w)
    requires i < m <= |steps| && NotPurged(steps, w, i, m)
    ensures var b := BreakerAt(cfg, steps, m, w); b.state == C.Open ==> b.lastFailure >= steps[i].clock(w)
    decreases m
  {
    hide BreakerAt, Legal;
    if m > i + 1 {
      OpenAfterTrial(cfg, steps, i, m - 1, w);
      BreakerStep(cfg, steps, m - 1, w);
      assert TimeOf(steps[i], w) == Some(steps[i].clock(w));
    }
  }

  lemma {:induction false} TrialIsDue(cfg: Config, steps: seq<Step>, i: nat, w: string)
    requires Legal(cfg, steps) && w != "" && GrantsTrial(cfg, steps, i, w)
    ensures steps[i].clock(w) - BreakerAt(cfg, steps, i, w).lastFailure >= cfg.settings.recoveryTimeout
  {
    hide BreakerAt, Legal;
    BreakerStep(cfg, steps, i, w);
  }

  /**
   Trials are spaced in every run: whatever workers report and the scheduler chooses in between,
   while the worker is not purged the next k trials it is granted come at least k recovery timeouts
   after the first. `p` is the last of them before step `j`.
   */
  lemma {:induction false} TrialsSpaced(cfg: Config, steps: seq<Step>, i: nat, j: nat, w: string) returns (p: nat)
    requires Legal(cfg, steps) && w != "" && ClockForward(steps, w) && GrantsTrial(cfg, steps, i, w)
    requires i < j <= |steps| && NotPurged(steps, w, i, j)
    ensures i <= p < j && GrantsTrial(cfg, steps, p, w)
    ensures steps[p].clock(w) - steps[i].clock(w)
         >= C.Times(TrialsGranted(cfg, steps, w, i + 1, j), cfg.settings.recoveryTimeout)
    ensures forall q :: p < q < j ==> !GrantsTrial(cfg, steps, q, w)
    decreases j
  {
    hide BreakerAt, Legal;
    if j == i + 1 {
      p := i;
      assert TrialsGranted(cfg, steps, w, i + 1, j) == 0;
    } else {
      p := TrialsSpaced(cfg, steps, i, j - 1, w);
      if GrantsTrial(cfg, steps, j - 1, w) {
        OpenAfterTrial(cfg, steps, p, j - 1, w);
        TrialIsDue(cfg, steps, j - 1, w);
        p := j - 1;
      }
    }
  }
}
