/**
 Runs of the coordinator: no submitted job is lost, failures are counted and bounded, and the
 number of assignments is bounded.
 */
module CoordinatorRuns {
  import opened Wrappers
  import opened JobQueue
  import opened RetryQueue
  import opened Coordinator
  import opened Ledger
  import C = CircuitBreaker
  import S = Scheduler
  import T = TaskRepository
  import W = WorkerRegistry

  function StateAt(cfg: Config, steps: seq<Step>, i: nat): State
    requires i <= |steps|
  {
    if i == 0 then INIT else Next(StateAt(cfg, steps, i - 1), cfg, steps[i - 1])
  }

  /** Every step is taken where it is enabled. */
  ghost predicate Legal(cfg: Config, steps: seq<Step>) {
    forall i :: 0 <= i < |steps| ==> Enabled(StateAt(cfg, steps, i), steps[i])
  }

  // ---- The coordinator moves as its ledger does ----

  function DeadIds(dlq: seq<Job>): multiset<string> {
    if dlq == [] then multiset{} else DeadIds(dlq[..|dlq| - 1]) + multiset{dlq[|dlq| - 1].id}
  }

  function HandOf(s: State): Option<(string, string)> {
    match s.hand
    case Some((job, w)) => Some((job.id, w))
    case None => None
  }

  function LedgerOf(s: State): Ledger {
    Ledger(Ids(s.queue.entries), HandOf(s), s.table, s.retries, DeadIds(s.dlq), s.out, s.running, s.done)
  }

  function MoveOf(s: State, cfg: Config, step: Step): Move {
    match step
    case Submit(job) => Enter(job.id, NewRow(job))
    case Select(clock) =>
      (match HandOf(OnSelect(s, cfg, clock))
       case Some((id, w)) => Pick(id, w)
       case None => Skip)
    case Publish => Assign
    case Complete(w, id) => Finish(w, id)
    case Failed(w, job, _) => Break(w, job.id)
    case WorkerFailed(w, _) => if w != "" then Purge(w) else Skip
    case Crash(w) => Drop(w)
    case _ => Skip
  }

  /** Well formed, and without the empty name. */
  ghost predicate NamedRegistry(r: W.Registry) { r.Valid() && "" !in r.workers }

  /** The registry is well formed, and the empty name is nowhere. */
  ghost predicate WellNamed(s: State) {
    NamedRegistry(s.registry) && (s.hand.Some? ==> s.hand.value.1 != "")
  }

  lemma {:induction false} DeadIdsAppend(dlq: seq<Job>, job: Job)
    ensures DeadIds(dlq + [job]) == DeadIds(dlq) + multiset{job.id}
  {
    assert (dlq + [job])[..|dlq|] == dlq;
  }

  // ---- WellNamed is kept ----

  lemma {:induction false} SelectNamed(s: State, cfg: Config, clock: S.Clock)
    requires WellNamed(s)
    ensures WellNamed(OnSelect(s, cfg, clock))
  {
    S.SelectSpec(s.registry, s.breakers, s.queue, cfg.settings, clock);
  }

  /** Requeueing is a matter of the table and the queue. */
  lemma {:induction false} RequeueAllKeeps(s: State, found: seq<string>)
    ensures RequeueAll(s, found).registry == s.registry && RequeueAll(s, found).hand == s.hand
    ensures RequeueAll(s, found).breakers == s.breakers
    ensures LedgerOf(RequeueAll(s, found)).(queued := multiset{}, table := map[])
            == LedgerOf(s).(queued := multiset{}, table := map[])
    decreases |found|
  {
    if found != [] {
      RequeueAllKeeps(s, found[..|found| - 1]);
    }
  }

  lemma {:induction false} RetryKeeps(s: State, maxRetries: nat, job: Job)
    ensures var s' := Retry(s, maxRetries, job);
      s' == s.(retries := s'.retries, table := s'.table, queue := s'.queue, dlq := s'.dlq)
  {
    hide Add;
  }

  lemma {:induction false} FailedKeeps(s: State, cfg: Config, w: string, job: Job, now: real)
    ensures OnFailed(s, cfg, w, job, now).hand == s.hand
    ensures OnFailed(s, cfg, w, job, now).registry == if w != "" then W.Decrement(s.registry, w) else s.registry
    ensures OnFailed(s, cfg, w, job, now).breakers ==
            if w != "" then s.breakers[w := C.Fail(C.BreakerOf(s.breakers, w), cfg.settings, now)] else s.breakers
  {
    hide Retry;
    var b := C.Fail(C.BreakerOf(s.breakers, w), cfg.settings, now);
    RetryKeeps(Unheld(Freed(s, w, b), w, job.id), cfg.maxRetries, job);
  }

  /** The registry after a step, by itself. */
  function RegistryAfter(s: State, step: Step): W.Registry {
    match step
    case Register(w, capacity, now) => if w != "" then W.Register(s.registry, w, capacity, now) else s.registry
    case Beat(w, now) => if w != "" then W.Heartbeat(s.registry, w, now) else s.registry
    case Publish => if s.hand.Some? then W.Increment(s.registry, s.hand.value.1) else s.registry
    case Complete(w, _) => if w != "" then W.Decrement(s.registry, w) else s.registry
    case Failed(w, _, _) => if w != "" then W.Decrement(s.registry, w) else s.registry
    case WorkerFailed(w, _) => if w != "" then W.Remove(s.registry, w) else s.registry
    case _ => s.registry
  }

  lemma {:induction false} StepRegistry(s: State, cfg: Config, step: Step)
    ensures Next(s, cfg, step).registry == RegistryAfter(s, step)
    ensures !step.Select? ==> Next(s, cfg, step).hand == if step.Publish? then None else s.hand
  {
    hide OnFailed, RequeueAll;
    match step
    case Failed(w, job, now) => FailedKeeps(s, cfg, w, job, now);
    case WorkerFailed(w, found) =>
      RequeueAllKeeps(s.(registry := W.Remove(s.registry, w), breakers := s.breakers - {w}), found);
    case _ =>
  }

  lemma {:induction false} OperationsNamed(r: W.Registry, w: string, capacity: int, now: real)
    requires NamedRegistry(r) && w != ""
    ensures NamedRegistry(W.Register(r, w, capacity, now)) && NamedRegistry(W.Heartbeat(r, w, now))
    ensures NamedRegistry(W.Increment(r, w)) && NamedRegistry(W.Decrement(r, w)) && NamedRegistry(W.Remove(r, w))
  {
    W.RegistryKept(r, w, capacity, now);
  }

  lemma {:induction false} StepNamed(s: State, cfg: Config, step: Step)
    requires WellNamed(s) && Enabled(s, step)
    ensures WellNamed(Next(s, cfg, step))
  {
    if step.Select? {
      SelectNamed(s, cfg, step.clock);
    } else {
      OtherNamed(s, cfg, step);
    }
  }

  lemma {:induction false} OtherNamed(s: State, cfg: Config, step: Step)
    requires WellNamed(s) && !step.Select? && (step.Publish? ==> s.hand.Some?)
    ensures WellNamed(Next(s, cfg, step))
  {
    hide Next, NamedRegistry, W.Register, W.Heartbeat, W.Increment, W.Decrement, W.Remove;
    StepRegistry(s, cfg, step);
    match step
    case Register(w, capacity, now) => if w != "" { OperationsNamed(s.registry, w, capacity, now); }
    case Beat(w, now) => if w != "" { OperationsNamed(s.registry, w, 0, now); }
    case Publish => OperationsNamed(s.registry, s.hand.value.1, 0, 0.0);
    case Complete(w, _) => if w != "" { OperationsNamed(s.registry, w, 0, 0.0); }
    case Failed(w, _, _) => if w != "" { OperationsNamed(s.registry, w, 0, 0.0); }
    case WorkerFailed(w, _) => if w != "" { OperationsNamed(s.registry, w, 0, 0.0); }
    case _ =>
  }

  lemma {:induction false} NamedAlways(cfg: Config, steps: seq<Step>, i: nat)
    requires Legal(cfg, steps) && i <= |steps|
    ensures WellNamed(StateAt(cfg, steps, i))
  {
    if i > 0 {
      NamedAlways(cfg, steps, i - 1);
      StepNamed(StateAt(cfg, steps, i - 1), cfg, steps[i - 1]);
    }
  }

  lemma {:induction false} RunStep(cfg: Config, steps: seq<Step>, i: nat)
    requires Legal(cfg, steps) && i < |steps|
    ensures WellNamed(StateAt(cfg, steps, i)) && Enabled(StateAt(cfg, steps, i), steps[i])
    ensures StateAt(cfg, steps, i + 1) == Next(StateAt(cfg, steps, i), cfg, steps[i])
  {
    hide WellNamed, Next, Enabled;
    NamedAlways(cfg, steps, i);
  }

  // ---- Every step is a move ----

  lemma {:induction false} SelectLedger(s: State, cfg: Config, clock: S.Clock)
    ensures var s' := OnSelect(s, cfg, clock);
      LedgerOf(s') == LedgerOf(s).(queued := Ids(s'.queue.entries), hand := HandOf(s'))
    ensures LedgerOf(s).queued == Ids(s.queue.entries) && LedgerOf(s).hand == HandOf(s)
  {
    hide S.Select, Ids, DeadIds;
  }

  lemma {:induction false} SelectMoves(s: State, cfg: Config, clock: S.Clock)
    requires WellNamed(s) && s.hand == None
    ensures match HandOf(OnSelect(s, cfg, clock))
      case Some((id, w)) => id in Ids(s.queue.entries) && w != "" &&
        LedgerOf(OnSelect(s, cfg, clock)) == Picked(LedgerOf(s), id, w)
      case None => LedgerOf(OnSelect(s, cfg, clock)) == LedgerOf(s)
  {
    hide S.Select, S.Permitted, LedgerOf, W.Precedes, W.HasRoom;
    SelectLedger(s, cfg, clock);
    S.SelectSpec(s.registry, s.breakers, s.queue, cfg.settings, clock);
  }

  lemma {:induction false} RetryMoves(s: State, maxRetries: nat, job: Job)
    ensures LedgerOf(Retry(s, maxRetries, job)) == Tried(LedgerOf(s), maxRetries, job.id)
  {
    hide Ids, DeadIds, Add, T.UpdateRow, T.RetryRow;
    if TriesOf(s.retries, job.id) + 1 <= maxRetries {
      AddIds(s.queue, job);
    } else {
      DeadIdsAppend(s.dlq, job);
    }
  }

  lemma {:induction false} FailureMoves(s: State, cfg: Config, w: string, job: Job, now: real)
    ensures LedgerOf(OnFailed(s, cfg, w, job, now)) == Broken(LedgerOf(s), cfg.maxRetries, w, job.id)
  {
    hide LedgerOf, Retry, Tried, Broken, Unheld, Freed;
    var b := C.Fail(C.BreakerOf(s.breakers, w), cfg.settings, now);
    FreedLedger(s, w, b, job.id);
    RetryMoves(Unheld(Freed(s, w, b), w, job.id), cfg.maxRetries, job);
    LedgerFields(s);
    BrokenIsTried(LedgerOf(s), cfg.maxRetries, w, job.id);
  }

  lemma {:induction false} LedgerFields(s: State)
    ensures LedgerOf(s).out == s.out && LedgerOf(s).running == s.running
  {
  }

  lemma {:induction false} FreedLedger(s: State, w: string, b: C.Breaker, id: string)
    ensures LedgerOf(Unheld(Freed(s, w, b), w, id))
            == LedgerOf(s).(out := DropCopy(s.out, w, id), running := DropCopy(s.running, w, id))
  {
  }

  lemma {:induction false} CompletionMoves(s: State, w: string, id: string)
    ensures LedgerOf(OnComplete(s, w, id)) == Finished(LedgerOf(s), w, id)
  {
    FreedLedger(s, w, C.Succeed(C.BreakerOf(s.breakers, w)), id);
  }

  lemma {:induction false} RequeueAllTable(s: State, found: seq<string>, id: string)
    requires id in s.table
    requires forall i, j :: 0 <= i < j < |found| ==> found[i] != found[j]
    ensures var t := RequeueAll(s, found).table;
      t.Keys == s.table.Keys && t[id] == if id in found then T.Updated(s.table[id], T.Pending, None) else s.table[id]
    decreases |found|
  {
    if found != [] {
      var last := |found| - 1;
      RequeueAllTable(s, found[..last], id);
      assert found == found[..last] + [found[last]] && found[last] !in found[..last];
    }
  }

  function IdsOf(found: seq<string>): multiset<string> {
    if found == [] then multiset{} else IdsOf(found[..|found| - 1]) + multiset{found[|found| - 1]}
  }

  lemma {:induction false} IdsOfDistinct(found: seq<string>)
    requires forall i, j :: 0 <= i < j < |found| ==> found[i] != found[j]
    ensures IdsOf(found) == multiset(set id | id in found)
    decreases |found|
  {
    if found != [] {
      var last := |found| - 1;
      IdsOfDistinct(found[..last]);
      assert found == found[..last] + [found[last]] && found[last] !in found[..last];
    }
  }

  lemma {:induction false} RequeueAllQueue(s: State, found: seq<string>)
    requires forall id :: id in found ==> id in s.table
    ensures RequeueAll(s, found).table.Keys == s.table.Keys
    ensures Ids(RequeueAll(s, found).queue.entries) == Ids(s.queue.entries) + IdsOf(found)
    decreases |found|
  {
    if found != [] {
      var last := |found| - 1;
      var s1 := RequeueAll(s, found[..last]);
      RequeueAllQueue(s, found[..last]);
      AddIds(s1.queue, JobOfRow(found[last], s1.table[found[last]]));
    }
  }

  lemma {:induction false} RequeuedTable(s: State, w: string, found: seq<string>)
    requires T.Lists(s.table, w, found)
    ensures RequeueAll(s, found).table == Unassigned(s.table, w)
  {
    var t := RequeueAll(s, found).table;
    RequeueAllQueue(s, found);
    forall id | id in t ensures t[id] == Unassigned(s.table, w)[id] {
      RequeueAllTable(s, found, id);
    }
  }

  lemma {:induction false} PurgeMoves(s: State, w: string, found: seq<string>)
    requires T.Lists(s.table, w, found) && w != ""
    ensures LedgerOf(OnWorkerFailed(s, w, found)) == Purged(LedgerOf(s), w)
  {
    var s1 := s.(registry := W.Remove(s.registry, w), breakers := s.breakers - {w});
    RequeueAllKeeps(s1, found);
    RequeueAllQueue(s1, found);
    IdsOfDistinct(found);
    RequeuedTable(s1, w, found);
    assert (set id | id in found) == AssignedIds(s.table, w);
  }

  lemma {:induction false} StepCanMove(s: State, cfg: Config, step: Step)
    requires WellNamed(s) && Enabled(s, step)
    ensures CanMove(LedgerOf(s), MoveOf(s, cfg, step))
  {
    if step.Select? {
      SelectMoves(s, cfg, step.clock);
    }
  }

  lemma {:induction false} OtherMoves(s: State, w: string, capacity: int, now: real)
    ensures LedgerOf(OnRegister(s, w, capacity, now)) == LedgerOf(s)
    ensures LedgerOf(OnBeat(s, w, now)) == LedgerOf(s)
    ensures LedgerOf(OnCrash(s, w)) == Dropped(LedgerOf(s), w)
  {
  }

  lemma {:induction false} SubmitMoves(s: State, job: Job)
    ensures LedgerOf(OnSubmit(s, job)) == Entered(LedgerOf(s), job.id, NewRow(job))
  {
    AddIds(s.queue, job);
  }

  lemma {:induction false} PublishMoves(s: State)
    requires s.hand.Some?
    ensures LedgerOf(s).hand == Some((s.hand.value.0.id, s.hand.value.1))
    ensures LedgerOf(OnPublish(s)) == Handed(LedgerOf(s), s.hand.value.0.id, s.hand.value.1)
  {
  }

  /** The steps that no other part of the state decides. */
  lemma {:induction false} LocalStepMoves(s: State, cfg: Config, step: Step)
    requires !step.Select? && !step.WorkerFailed? && (step.Publish? ==> s.hand.Some?)
    ensures LedgerOf(Next(s, cfg, step)) == Moved(LedgerOf(s), cfg.maxRetries, MoveOf(s, cfg, step))
  {
    hide LedgerOf, OnRegister, OnBeat, OnSubmit, OnPublish, OnComplete, OnFailed, OnCrash;
    hide Entered, Handed, Finished, Broken, Dropped;
    match step
    case Register(w, capacity, now) => OtherMoves(s, w, capacity, now);
    case Beat(w, now) => OtherMoves(s, w, 0, now);
    case Submit(job) => SubmitMoves(s, job);
    case Publish => PublishMoves(s);
    case Complete(w, id) => CompletionMoves(s, w, id);
    case Failed(w, job, now) => FailureMoves(s, cfg, w, job, now);
    case Crash(w) => OtherMoves(s, w, 0, 0.0);
  }

  /** Every step of the coordinator is a move of its ledger. */
  lemma {:induction false} StepMoves(s: State, cfg: Config, step: Step)
    requires WellNamed(s) && Enabled(s, step)
    ensures CanMove(LedgerOf(s), MoveOf(s, cfg, step))
    ensures LedgerOf(Next(s, cfg, step)) == Moved(LedgerOf(s), cfg.maxRetries, MoveOf(s, cfg, step))
  {
    StepCanMove(s, cfg, step);
    hide LedgerOf, CanMove, OnSelect, OnWorkerFailed, Picked, Purged;
    if step.Select? {
      SelectMoves(s, cfg, step.clock);
    } else if step.WorkerFailed? {
      if step.worker != "" {
        PurgeMoves(s, step.worker, step.found);
      } else {
        UnnamedFails(s, step.found);
      }
    } else {
      LocalStepMoves(s, cfg, step);
    }
  }

  lemma {:induction false} UnnamedFails(s: State, found: seq<string>)
    ensures OnWorkerFailed(s, "", found) == s
  {
  }

  // ---- Runs of the coordinator are runs of its ledger ----

  function LedgerAt(cfg: Config, steps: seq<Step>, i: nat): Ledger
    requires i <= |steps|
  {
    LedgerOf(StateAt(cfg, steps, i))
  }

  function MoveAt(cfg: Config, steps: seq<Step>, i: nat): Move
    requires i < |steps|
  {
    MoveOf(StateAt(cfg, steps, i), cfg, steps[i])
  }

  lemma {:induction false} LedgerStep(cfg: Config, steps: seq<Step>, i: nat)
    requires Legal(cfg, steps) && i < |steps|
    ensures CanMove(LedgerAt(cfg, steps, i), MoveAt(cfg, steps, i))
    ensures LedgerAt(cfg, steps, i + 1) == Moved(LedgerAt(cfg, steps, i), cfg.maxRetries, MoveAt(cfg, steps, i))
  {
    hide LedgerOf, MoveOf, CanMove, Moved, Next, Enabled;
    NamedAlways(cfg, steps, i);
    StepMoves(StateAt(cfg, steps, i), cfg, steps[i]);
    assert StateAt(cfg, steps, i + 1) == Next(StateAt(cfg, steps, i), cfg, steps[i]);
  }

  function MovesTo(cfg: Config, steps: seq<Step>, i: nat): seq<Move>
    requires i <= |steps|
  {
    if i == 0 then [] else MovesTo(cfg, steps, i - 1) + [MoveAt(cfg, steps, i - 1)]
  }

  lemma {:induction false} MovesPrefix(cfg: Config, steps: seq<Step>, k: nat, i: nat)
    requires k <= i <= |steps|
    ensures |MovesTo(cfg, steps, i)| == i && MovesTo(cfg, steps, i)[..k] == MovesTo(cfg, steps, k)
  {
    hide MoveAt;
    if k < i {
      MovesPrefix(cfg, steps, k, i - 1);
    } else if i > 0 {
      MovesPrefix(cfg, steps, i - 1, i - 1);
    }
  }

  lemma {:induction false} RefinesStep(cfg: Config, steps: seq<Step>, i: nat)
    requires Legal(cfg, steps) && i < |steps|
    requires LegalMoves(cfg.maxRetries, MovesTo(cfg, steps, i))
    requires Replay(cfg.maxRetries, MovesTo(cfg, steps, i)) == LedgerAt(cfg, steps, i)
    ensures LegalMoves(cfg.maxRetries, MovesTo(cfg, steps, i + 1))
    ensures Replay(cfg.maxRetries, MovesTo(cfg, steps, i + 1)) == LedgerAt(cfg, steps, i + 1)
  {
    hide Moved, CanMove, Legal, MoveAt, LedgerAt, Replay, LegalMoves;
    LedgerStep(cfg, steps, i);
    OneMore(cfg.maxRetries, MovesTo(cfg, steps, i), MoveAt(cfg, steps, i));
  }

  /** The refinement: seen through its ledger, a run of the coordinator is a legal run of the ledger. */
  lemma {:induction false} Refines(cfg: Config, steps: seq<Step>, i: nat)
    requires Legal(cfg, steps) && i <= |steps|
    ensures LegalMoves(cfg.maxRetries, MovesTo(cfg, steps, i))
    ensures Replay(cfg.maxRetries, MovesTo(cfg, steps, i)) == LedgerAt(cfg, steps, i)
  {
    hide LedgerAt, MoveAt, Legal;
    if i == 0 {
      LedgerStarts(cfg, steps);
    } else {
      Refines(cfg, steps, i - 1);
      RefinesStep(cfg, steps, i - 1);
    }
  }

  lemma {:induction false} LedgerStarts(cfg: Config, steps: seq<Step>)
    ensures LedgerAt(cfg, steps, 0) == EMPTY_LEDGER
  {
  }

  // ---- No job is lost ----

  /** Waiting, completed, in the dead letter queue, or assigned to a worker that has not reported it. */
  ghost predicate Accounted(s: State, id: string) {
    || id in Ids(s.queue.entries)
    || (s.hand.Some? && s.hand.value.0.id == id)
    || id in s.done
    || id in DeadIds(s.dlq)
    || (exists w :: T.AssignedTo(s.table, id, w) && id in At(s.out, w))
  }

  lemma {:induction false} SubmittedRow(cfg: Config, steps: seq<Step>, k: nat, i: nat)
    requires Legal(cfg, steps) && k < i <= |steps| && steps[k].Submit?
    ensures steps[k].job.id in Replay(cfg.maxRetries, MovesTo(cfg, steps, i)).table
  {
    hide StateAt, Legal, Replay;
    var moves, before := MovesTo(cfg, steps, i), MovesTo(cfg, steps, k + 1);
    MovesPrefix(cfg, steps, k + 1, i);
    MovesPrefix(cfg, steps, k, k + 1);
    assert moves[k] == before[k] == MoveAt(cfg, steps, k);
    EnteredStays(cfg.maxRetries, moves, k);
  }

  lemma {:induction false} AccountedIf(s: State, id: string)
    requires id in LedgerOf(s).table && Kept(LedgerOf(s), id)
    ensures Accounted(s, id)
  {
  }

  /**
   No submitted job is lost: at every moment after its submission it is accounted for, whatever
   workers crashed, were purged, rightly or not, or reported late.
   */
  lemma {:induction false} NoJobLost(cfg: Config, steps: seq<Step>, k: nat, i: nat)
    requires Legal(cfg, steps) && k < i <= |steps| && steps[k].Submit?
    ensures Accounted(StateAt(cfg, steps, i), steps[k].job.id)
  {
    SubmittedRow(cfg, steps, k, i);
    Refines(cfg, steps, i);
    AllKept(cfg.maxRetries, MovesTo(cfg, steps, i));
    AccountedIf(StateAt(cfg, steps, i), steps[k].job.id);
  }

  /** Only a crash makes a worker hold less than it has not reported. */
  lemma {:induction false} HeldUnlessCrashed(cfg: Config, steps: seq<Step>, i: nat, w: string)
    requires Legal(cfg, steps) && i <= |steps| && forall k :: 0 <= k < i ==> steps[k] != Crash(w)
    ensures At(StateAt(cfg, steps, i).running, w) == At(StateAt(cfg, steps, i).out, w)
  {
    NoDrops(cfg, steps, i, w);
    Refines(cfg, steps, i);
    HeldUnlessDropped(cfg.maxRetries, MovesTo(cfg, steps, i), w);
  }

  lemma {:induction false} NoDrops(cfg: Config, steps: seq<Step>, i: nat, w: string)
    requires i <= |steps| && forall k :: 0 <= k < i ==> steps[k] != Crash(w)
    ensures Drop(w) !in MovesTo(cfg, steps, i)
  {
    if i > 0 {
      NoDrops(cfg, steps, i - 1, w);
    }
  }

  // ---- Fail-stop workers ----

  /** A worker is purged only when it works on nothing any more. */
  ghost predicate FailStopRun(cfg: Config, steps: seq<Step>) {
    forall i :: 0 <= i < |steps| && steps[i].WorkerFailed? ==>
      At(StateAt(cfg, steps, i).running, steps[i].worker) == multiset{}
  }

  lemma {:induction false} FailStopMove(cfg: Config, steps: seq<Step>, i: nat)
    requires i < |steps| && FailStopRun(cfg, steps)
    ensures FailStop(LedgerAt(cfg, steps, i), MoveAt(cfg, steps, i))
  {
  }

  lemma {:induction false} NoMoves(maxRetries: nat)
    ensures FailStopMoves(maxRetries, [])
  {
  }

  lemma {:induction false} FailStopRefines(cfg: Config, steps: seq<Step>, i: nat)
    requires Legal(cfg, steps) && FailStopRun(cfg, steps) && i <= |steps|
    ensures FailStopMoves(cfg.maxRetries, MovesTo(cfg, steps, i))
  {
    hide LedgerAt, MoveAt, FailStop, Legal, Replay, FailStopMoves, StateAt;
    if i == 0 {
      NoMoves(cfg.maxRetries);
    } else {
      FailStopRefines(cfg, steps, i - 1);
      Refines(cfg, steps, i - 1);
      FailStopMove(cfg, steps, i - 1);
      OneMoreFailStop(cfg.maxRetries, MovesTo(cfg, steps, i - 1), MoveAt(cfg, steps, i - 1));
    }
  }

  function Count(b: bool): nat { if b then 1 else 0 }

  /** Assigned by its row to a worker that has not reported it. */
  ghost predicate InFlight(s: State, id: string) { exists w :: T.AssignedTo(s.table, id, w) && id in At(s.out, w) }

  /**
   In exactly one place exactly once: queued, in hand, in flight, completed or dead-lettered; and
   held by at most one worker.
   */
  ghost predicate OnePlace(s: State, id: string) {
    && Ids(s.queue.entries)[id] + Count(s.hand.Some? && s.hand.value.0.id == id) + Count(InFlight(s, id))
       + Count(id in s.done) + DeadIds(s.dlq)[id] == 1
    && (forall v, w :: id in At(s.running, v) && id in At(s.running, w) ==> v == w && At(s.running, v)[id] == 1)
  }

  lemma {:induction false} OnePlaceIf(s: State, id: string)
    requires id in LedgerOf(s).table && Kept(LedgerOf(s), id) && Exact(LedgerOf(s), id)
    ensures OnePlace(s, id)
  {
    assert Waiting(LedgerOf(s))[id] == Ids(s.queue.entries)[id] + Count(s.hand.Some? && s.hand.value.0.id == id);
  }

  /**
   With fail-stop workers a submitted job is at every later moment in exactly one place, exactly
   once, and no two workers, nor one worker twice, work on it at the same time.
   */
  lemma {:induction false} ExactlyOnePlace(cfg: Config, steps: seq<Step>, k: nat, i: nat)
    requires Legal(cfg, steps) && FailStopRun(cfg, steps) && k < i <= |steps| && steps[k].Submit?
    ensures OnePlace(StateAt(cfg, steps, i), steps[k].job.id)
  {
    hide LedgerOf, OnePlace, Legal, StateAt, MovesTo, Kept, Exact;
    var moves, id := MovesTo(cfg, steps, i), steps[k].job.id;
    SubmittedRow(cfg, steps, k, i);
    Refines(cfg, steps, i);
    FailStopRefines(cfg, steps, i);
    AllKept(cfg.maxRetries, moves);
    AllExact(cfg.maxRetries, moves, id);
    OnePlaceIf(StateAt(cfg, steps, i), id);
  }
}
