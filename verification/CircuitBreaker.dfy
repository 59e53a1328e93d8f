/**
 The per-worker circuit breaker of coordinator/circuit_breaker.py: a three-state machine with a
 clock, the map of breakers, and what its state means in terms of the history of reports.
 */
module CircuitBreaker {
  import opened Wrappers

  datatype BreakerState = Closed | Open | HalfOpen

  datatype Settings = Settings(failureThreshold: int, recoveryTimeout: real)

  datatype Breaker = Breaker(state: BreakerState, failures: nat, lastFailure: real, trial: bool)

  const NEW_BREAKER := Breaker(Closed, 0, 0.0, false)

  function Succeed(b: Breaker): Breaker {
    match b.state
    case HalfOpen => b.(state := Closed, failures := 0, trial := false)
    case Closed => b.(failures := 0)
    case Open => b
  }

  function Fail(b: Breaker, st: Settings, now: real): Breaker {
    var b' := b.(failures := b.failures + 1, lastFailure := now);
    match b.state
    case HalfOpen => b'.(state := Open, trial := false)
    case Closed => if b'.failures >= st.failureThreshold then b'.(state := Open) else b'
    case Open => b'
  }

  predicate Permits(b: Breaker, st: Settings, now: real) {
    match b.state
    case Open => now - b.lastFailure >= st.recoveryTimeout
    case HalfOpen => !b.trial
    case Closed => true
  }

  /** The breaker after it was asked for a permit. */
  function Ask(b: Breaker, st: Settings, now: real): Breaker {
    if !Permits(b, st, now) then b
    else
      match b.state
      case Open => b.(state := HalfOpen, trial := true)
      case HalfOpen => b.(trial := true)
      case Closed => b
  }

  class WorkerCircuitBreaker {
    const settings: Settings
    var state: BreakerState
    var consecutiveFailures: nat
    var lastFailureTime: real
    var trialTaskAssigned: bool

    ghost function View(): Breaker
      reads this
    {
      Breaker(state, consecutiveFailures, lastFailureTime, trialTaskAssigned)
    }

    constructor (settings: Settings)
      ensures View() == NEW_BREAKER && this.settings == settings
    {
      this.settings := settings;
      state, consecutiveFailures, lastFailureTime, trialTaskAssigned := Closed, 0, 0.0, false;
    }

    method RecordSuccess()
      modifies this
      ensures View() == Succeed(old(View()))
    {
      if state == HalfOpen {
        state, consecutiveFailures, trialTaskAssigned := Closed, 0, false;
      } else if state == Closed {
        consecutiveFailures := 0;
      }
    }

    method RecordFailure(now: real)
      modifies this
      ensures View() == Fail(old(View()), settings, now)
    {
      consecutiveFailures := consecutiveFailures + 1;
      lastFailureTime := now;
      if state == HalfOpen {
        state, trialTaskAssigned := Open, false;
      } else if state == Closed && consecutiveFailures >= settings.failureThreshold {
        state := Open;
      }
    }

    method CanAssignTask(now: real) returns (allowed: bool)
      modifies this
      ensures allowed == Permits(old(View()), settings, now)
      ensures allowed <==>
        || old(state) == Closed || (old(state) == HalfOpen && !old(trialTaskAssigned))
        || (old(state) == Open && now - old(lastFailureTime) >= settings.recoveryTimeout)
      ensures View() == Ask(old(View()), settings, now)
    {
      if state == Open {
        if now - lastFailureTime >= settings.recoveryTimeout {
          state, trialTaskAssigned := HalfOpen, true;
          return true;
        }
        return false;
      } else if state == HalfOpen {
        if trialTaskAssigned {
          return false;
        }
        trialTaskAssigned := true;
        return true;
      }
      return true;
    }
  }

  // ---- The map of breakers ----

  type Breakers = map<string, Breaker>

  function BreakerOf(m: Breakers, worker: string): Breaker {
    if worker in m then m[worker] else NEW_BREAKER
  }

  class CircuitBreakerManager {
    const settings: Settings
    var breakers: map<string, WorkerCircuitBreaker>
    ghost var model: Breakers                   // what the breaker objects hold
    ghost var Repr: set<WorkerCircuitBreaker>

    ghost predicate Valid()
      reads this, Repr
    {
      && (forall v, w :: v in breakers && w in breakers && v != w ==> breakers[v] != breakers[w])
      && model.Keys == breakers.Keys
      && (forall w :: w in breakers ==> breakers[w] in Repr)
      && (forall w :: w in breakers ==> breakers[w].settings == settings && breakers[w].View() == model[w])
    }

    /** Valid but for what the model says of one worker. */
    ghost predicate ValidBut(worker: string)
      reads this, Repr
    {
      && (forall v, w :: v in breakers && w in breakers && v != w ==> breakers[v] != breakers[w])
      && model.Keys == breakers.Keys
      && (forall w :: w in breakers ==> breakers[w] in Repr && breakers[w].settings == settings)
      && (forall w :: w in breakers && w != worker ==> breakers[w].View() == model[w])
    }

    ghost method Record(worker: string)
      requires ValidBut(worker) && worker in breakers
      modifies this`model
      ensures Valid() && model == old(model)[worker := breakers[worker].View()]
    {
      model := model[worker := breakers[worker].View()];
    }

    constructor (settings: Settings)
      ensures Valid() && model == map[] && Repr == {} && this.settings == settings
    {
      this.settings := settings;
      breakers, model, Repr := map[], map[], {};
    }

    method GetBreaker(worker: string) returns (b: WorkerCircuitBreaker)
      requires Valid()
      modifies this
      ensures Valid() && fresh(Repr - old(Repr))
      ensures worker in breakers && breakers[worker] == b && b in Repr
      ensures model == old(model)[worker := BreakerOf(old(model), worker)]
    {
      if worker !in breakers {
        b := new WorkerCircuitBreaker(settings);
        breakers := breakers[worker := b];
        model, Repr := model[worker := NEW_BREAKER], Repr + {b};
      }
      b := breakers[worker];
    }

    // Each operation is done on the breaker that GetBreaker found or made; `alert` is the state
    // change to be published, if any.

    method RecordSuccessKnown(worker: string)
      returns (alert: Option<(BreakerState, BreakerState)>)
      requires Valid() && worker in breakers
      modifies this`model, breakers[worker]
      ensures Valid()
      ensures model == old(model)[worker := Succeed(old(model)[worker])]
      ensures alert == if old(model)[worker].state == model[worker].state then None
                       else Some((old(model)[worker].state, model[worker].state))
    {
      var b := breakers[worker];
      var before := b.state;
      b.RecordSuccess();
      Record(worker);
      alert := if before != b.state then Some((before, b.state)) else None;
    }

    method RecordSuccess(worker: string)
      returns (alert: Option<(BreakerState, BreakerState)>)
      requires Valid()
      modifies this, Repr
      ensures Valid() && fresh(Repr - old(Repr))
      ensures model == old(model)[worker := Succeed(BreakerOf(old(model), worker))]
      ensures alert == if BreakerOf(old(model), worker).state == model[worker].state then None
                       else Some((BreakerOf(old(model), worker).state, model[worker].state))
    {
      hide Succeed, BreakerOf;
      ghost var before := model;
      ghost var made := BreakerOf(before, worker);
      var b := GetBreaker(worker);
      assert before[worker := made][worker := Succeed(made)] == before[worker := Succeed(made)];
      alert := RecordSuccessKnown(worker);
    }

    method RecordFailureKnown(worker: string, now: real)
      returns (alert: Option<(BreakerState, BreakerState)>)
      requires Valid() && worker in breakers
      modifies this`model, breakers[worker]
      ensures Valid()
      ensures model == old(model)[worker := Fail(old(model)[worker], settings, now)]
      ensures alert == if old(model)[worker].state == model[worker].state then None
                       else Some((old(model)[worker].state, model[worker].state))
    {
      var b := breakers[worker];
      var before := b.state;
      b.RecordFailure(now);
      Record(worker);
      alert := if before != b.state then Some((before, b.state)) else None;
    }

    method RecordFailure(worker: string, now: real)
      returns (alert: Option<(BreakerState, BreakerState)>)
      requires Valid()
      modifies this, Repr
      ensures Valid() && fresh(Repr - old(Repr))
      ensures model == old(model)[worker := Fail(BreakerOf(old(model), worker), settings, now)]
      ensures alert == if BreakerOf(old(model), worker).state == model[worker].state then None
                       else Some((BreakerOf(old(model), worker).state, model[worker].state))
    {
      hide Fail, BreakerOf;
      ghost var before := model;
      ghost var made := BreakerOf(before, worker);
      var b := GetBreaker(worker);
      assert before[worker := made][worker := Fail(made, settings, now)] == before[worker := Fail(made, settings, now)];
      alert := RecordFailureKnown(worker, now);
    }

    method CanAssignTaskKnown(worker: string, now: real)
      returns (allowed: bool, alert: Option<(BreakerState, BreakerState)>)
      requires Valid() && worker in breakers
      modifies this`model, breakers[worker]
      ensures Valid()
      ensures model == old(model)[worker := Ask(old(model)[worker], settings, now)]
      ensures allowed == Permits(old(model)[worker], settings, now)
      ensures alert == if old(model)[worker].state == model[worker].state then None
                       else Some((old(model)[worker].state, model[worker].state))
    {
      var b := breakers[worker];
      var before := b.state;
      allowed := b.CanAssignTask(now);
      Record(worker);
      alert := if before != b.state then Some((before, b.state)) else None;
    }

    method CanAssignTask(worker: string, now: real)
      returns (allowed: bool, alert: Option<(BreakerState, BreakerState)>)
      requires Valid()
      modifies this, Repr
      ensures Valid() && fresh(Repr - old(Repr))
      ensures model == old(model)[worker := Ask(BreakerOf(old(model), worker), settings, now)]
      ensures allowed == Permits(BreakerOf(old(model), worker), settings, now)
      ensures alert == if BreakerOf(old(model), worker).state == model[worker].state then None
                       else Some((BreakerOf(old(model), worker).state, model[worker].state))
    {
      hide Ask, Permits, BreakerOf;
      ghost var before := model;
      ghost var made := BreakerOf(before, worker);
      var b := GetBreaker(worker);
      assert before[worker := made][worker := Ask(made, settings, now)] == before[worker := Ask(made, settings, now)];
      allowed, alert := CanAssignTaskKnown(worker, now);
    }

    method RemoveWorker(worker: string)
      requires Valid()
      modifies this
      ensures Valid() && Repr == old(Repr)
      ensures model == old(model) - {worker}
    {
      breakers, model := breakers - {worker}, model - {worker};
    }
  }

  // ---- Histories ----

  datatype Event = Success | Failure(now: real) | Request(now: real)

  function Next(b: Breaker, st: Settings, e: Event): Breaker {
    match e
    case Success => Succeed(b)
    case Failure(now) => Fail(b, st, now)
    case Request(now) => Ask(b, st, now)
  }

  function RunTo(st: Settings, events: seq<Event>, i: nat): Breaker
    requires i <= |events|
  {
    if i == 0 then NEW_BREAKER else Next(RunTo(st, events, i - 1), st, events[i - 1])
  }

  /**
   What a history amounts to, without any stored state: the failures since creation or the last
   success that was heeded, the time of the last failure, and whether a trial was granted since.
   The worker is cut off when the failures reach the threshold and no trial is out.
   */
  datatype Record = Record(failures: nat, lastFailure: real, trial: bool) {
    predicate CutOff(st: Settings) { failures >= st.failureThreshold && !trial }
  }

  function RecordTo(st: Settings, events: seq<Event>, i: nat): Record
    requires i <= |events|
  {
    if i == 0 then Record(0, 0.0, false)
    else
      var r := RecordTo(st, events, i - 1);
      match events[i - 1]
      case Success => if r.CutOff(st) then r else Record(0, r.lastFailure, false)
      case Failure(now) => Record(r.failures + 1, now, false)
      case Request(now) =>
        if r.CutOff(st) && now - r.lastFailure >= st.recoveryTimeout then r.(trial := true) else r
  }

  /** The state machine means its history: the state is CLOSED iff the counted failures are below the threshold. */
  ghost predicate MeansItsHistory(st: Settings, events: seq<Event>, i: nat)
    requires i <= |events|
  {
    var b, r := RunTo(st, events, i), RecordTo(st, events, i);
    && b.failures == r.failures && b.lastFailure == r.lastFailure && b.trial == r.trial
    && (b.state == Closed <==> r.failures < st.failureThreshold)
    && (b.state == Open <==> r.CutOff(st))
    && (b.state == HalfOpen <==> r.trial)
  }

  lemma {:induction false} BreakerMeansItsHistory(st: Settings, events: seq<Event>, i: nat)
    requires i <= |events| && st.failureThreshold >= 1
    ensures MeansItsHistory(st, events, i)
  {
    if i > 0 {
      BreakerMeansItsHistory(st, events, i - 1);
    }
  }

  /** The reading of the state by its history holds of every history iff the threshold is at least 1. */
  lemma {:induction false} HistoryNeedsThreshold(st: Settings)
    ensures (forall events: seq<Event>, i: nat :: i <= |events| ==> MeansItsHistory(st, events, i))
            <==> st.failureThreshold >= 1
  {
    if st.failureThreshold >= 1 {
      forall events: seq<Event>, i: nat | i <= |events| ensures MeansItsHistory(st, events, i) {
        BreakerMeansItsHistory(st, events, i);
      }
    } else {
      var none: seq<Event> := [];
      assert !MeansItsHistory(st, none, 0);
    }
  }

  /** A threshold below 1 works as 1: the first failure opens the breaker, and nothing else does. */
  function Effective(st: Settings): Settings {
    if st.failureThreshold < 1 then st.(failureThreshold := 1) else st
  }

  lemma {:induction false} EffectiveRun(st: Settings, events: seq<Event>, i: nat)
    requires i <= |events|
    ensures RunTo(st, events, i) == RunTo(Effective(st), events, i)
    ensures RunTo(st, events, i).state == Closed && st.failureThreshold < 1 ==> RunTo(st, events, i).failures == 0
  {
    if i > 0 {
      EffectiveRun(st, events, i - 1);
    }
  }

  /** By its history, the worker may be given a job: not cut off, or a trial is due. */
  predicate MayTry(st: Settings, r: Record, now: real) {
    || r.failures < st.failureThreshold
    || (r.failures >= st.failureThreshold && !r.trial && now - r.lastFailure >= st.recoveryTimeout)
  }

  /**
   The verdict, exactly, for every threshold: a request after any history is granted iff the counted
   failures are below the threshold, or no trial is out and the last failure is a recovery timeout ago.
   */
  lemma {:induction false} VerdictByHistory(st: Settings, events: seq<Event>, i: nat, now: real)
    requires i <= |events|
    ensures Permits(RunTo(st, events, i), st, now) <==> MayTry(Effective(st), RecordTo(Effective(st), events, i), now)
  {
    EffectiveRun(st, events, i);
    BreakerMeansItsHistory(Effective(st), events, i);
  }

  /** A trial is out exactly in HALF_OPEN, so a permit asked for there is always refused. */
  lemma {:induction false} TrialIffHalfOpen(st: Settings, events: seq<Event>, i: nat, now: real)
    requires i <= |events|
    ensures var b := RunTo(st, events, i);
      (b.trial <==> b.state == HalfOpen) && (b.state == HalfOpen ==> !Permits(b, st, now))
  {
    if i > 0 {
      TrialIffHalfOpen(st, events, i - 1, now);
    }
  }

  // ---- Trial spacing ----

  /** Event `i` is granted as a trial. */
  predicate Trial(st: Settings, events: seq<Event>, i: nat) {
    && i < |events| && events[i].Request?
    && RunTo(st, events, i).state == Open && Permits(RunTo(st, events, i), st, events[i].now)
  }

  /** Number of trials with index in [i, j). */
  function Trials(st: Settings, events: seq<Event>, i: nat, j: nat): nat
    decreases j
  {
    if j <= i then 0 else Trials(st, events, i, j - 1) + (if Trial(st, events, j - 1) then 1 else 0)
  }

  ghost predicate ClockMovesForward(events: seq<Event>) {
    forall i, j :: 0 <= i < j < |events| && !events[i].Success? && !events[j].Success? ==>
      events[i].now <= events[j].now
  }

  /** Once a trial was granted, an OPEN state must come from a later failure. */
  lemma {:induction false} OpenAfterTrial(st: Settings, events: seq<Event>, i: nat, m: nat)
    requires ClockMovesForward(events) && Trial(st, events, i) && i < m <= |events|
    ensures RunTo(st, events, m).state == Open ==> RunTo(st, events, m).lastFailure >= events[i].now
    decreases m
  {
    if m > i + 1 {
      OpenAfterTrial(st, events, i, m - 1);
    }
  }

  /** `n` times `t`, by addition. */
  function Times(n: nat, t: real): (r: real)
    ensures r == n as real * t
  {
    if n == 0 then 0.0 else Times(n - 1, t) + t
  }

  /**
   Trials are spaced: whatever is reported in between, the next k trials after a trial come at
   least k recovery timeouts later. `p` is the last trial before `j`.
   */
  lemma {:induction false} TrialSpacing(st: Settings, events: seq<Event>, i: nat, j: nat) returns (p: nat)
    requires ClockMovesForward(events) && Trial(st, events, i) && i < j <= |events|
    ensures i <= p < j && Trial(st, events, p)
    ensures events[p].now - events[i].now >= Times(Trials(st, events, i + 1, j), st.recoveryTimeout)
    ensures forall q :: p < q < j ==> !Trial(st, events, q)
    decreases j
  {
    if j == i + 1 {
      p := i;
      assert Trials(st, events, i + 1, j) == 0;
    } else {
      p := TrialSpacing(st, events, i, j - 1);
      if Trial(st, events, j - 1) {
        OpenAfterTrial(st, events, p, j - 1);
        p := j - 1;
      }
    }
  }
}
