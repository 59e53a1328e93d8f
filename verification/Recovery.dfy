/**
 What declaring a worker failed recovers, and the job it cannot recover: one that was assigned in
 the gap between the scheduler's choice and the publication of the assignment.
 */
module Recovery {
  import opened Wrappers
  import opened JobQueue
  import opened Coordinator
  import opened Ledger
  import opened CoordinatorRuns
  import C = CircuitBreaker
  import S = Scheduler
  import T = TaskRepository
  import W = WorkerRegistry

  /**
   Declaring a worker failed puts every job assigned to it back in the queue, once, and leaves no
   row assigned to it; nothing else enters the queue.
   */
  lemma {:induction false} PurgeRecovers(s: State, cfg: Config, w: string, found: seq<string>, id: string)
    requires w != "" && Enabled(s, WorkerFailed(w, found))
    ensures var s' := Next(s, cfg, WorkerFailed(w, found));
      && !T.AssignedTo(s'.table, id, w) && w !in s'.registry.workers
      && Ids(s'.queue.entries)[id] == Ids(s.queue.entries)[id] + Count(T.AssignedTo(s.table, id, w))
  {
    hide OnWorkerFailed, Ids;
    PurgeMoves(s, w, found);
    StepRegistry(s, cfg, WorkerFailed(w, found));
    PurgedLedger(LedgerOf(s), w, id);
  }

  lemma {:induction false} PurgedLedger(l: Ledger, w: string, id: string)
    ensures !T.AssignedTo(Purged(l, w).table, id, w)
    ensures Purged(l, w).queued[id] == l.queued[id] + Count(T.AssignedTo(l.table, id, w))
  {
    assert id in AssignedIds(l.table, w) <==> T.AssignedTo(l.table, id, w);
  }

  // ---- Orphans ----

  /** The row says `id` is assigned to `w`, but it waits nowhere and nobody works on it. */
  ghost predicate Orphan(l: Ledger, id: string, w: string) {
    && T.AssignedTo(l.table, id, w) && Waiting(l)[id] == 0
    && (forall v :: id !in At(l.running, v))
  }

  lemma {:induction false} HandedOrphan(l: Ledger, x: string, v: string, id: string, w: string)
    requires l.hand == Some((x, v)) && Orphan(l, id, w)
    ensures Orphan(Handed(l, x, v), id, w)
  {
    AddCopyAt(l.running, v, x);
  }

  lemma {:induction false} FinishedOrphan(l: Ledger, v: string, x: string, id: string, w: string)
    requires x in At(l.running, v) && Orphan(l, id, w)
    ensures Orphan(Finished(l, v, x), id, w)
  {
    DropCopyAt(l.running, v, x);
  }

  lemma {:induction false} PurgedOrphan(l: Ledger, v: string, id: string, w: string)
    requires Orphan(l, id, w) && v != w
    ensures Orphan(Purged(l, v), id, w)
  {
    assert id !in AssignedIds(l.table, v);
  }

  lemma {:induction false} EnteredOrphan(l: Ledger, x: string, row: T.Row, id: string, w: string)
    requires Orphan(l, id, w) && x !in l.table
    ensures Orphan(Entered(l, x, row), id, w)
  {
  }

  lemma {:induction false} PickedOrphan(l: Ledger, x: string, v: string, id: string, w: string)
    requires Orphan(l, id, w) && l.hand == None && x in l.queued
    ensures Orphan(Picked(l, x, v), id, w)
  {
    assert id != x;
  }

  lemma {:induction false} DroppedOrphan(l: Ledger, v: string, id: string, w: string)
    requires Orphan(l, id, w)
    ensures Orphan(Dropped(l, v), id, w)
  {
    assert forall u :: At(Dropped(l, v).running, u) == if u == v then multiset{} else At(l.running, u);
  }

  lemma {:induction false} OrphanMoves(l: Ledger, maxRetries: nat, m: Move, id: string, w: string)
    requires CanMove(l, m) && Orphan(l, id, w) && m != Purge(w)
    ensures Orphan(Moved(l, maxRetries, m), id, w)
  {
    hide Handed, Broken, Finished, Purged, Dropped, Entered, Picked, Orphan;
    match m
    case Enter(x, row) => EnteredOrphan(l, x, row, id, w);
    case Pick(x, v) => PickedOrphan(l, x, v, id, w);
    case Assign => HandedOrphan(l, l.hand.value.0, l.hand.value.1, id, w);
    case Finish(v, x) => FinishedOrphan(l, v, x, id, w);
    case Break(v, x) => BrokenOrphan(l, maxRetries, v, x, id, w);
    case Purge(v) => PurgedOrphan(l, v, id, w);
    case Drop(v) => DroppedOrphan(l, v, id, w);
    case Skip =>
  }

  lemma {:induction false} BrokenOrphan(l: Ledger, maxRetries: nat, v: string, x: string, id: string, w: string)
    requires x in At(l.running, v) && Orphan(l, id, w)
    ensures Orphan(Broken(l, maxRetries, v, x), id, w)
  {
    DropCopyAt(l.running, v, x);
    FailedRowAt(l.table, x, T.Retrying);
    FailedRowAt(l.table, x, T.Dead);
    assert Waiting(Broken(l, maxRetries, v, x))[id] == Waiting(l)[id];
  }

  lemma {:induction false} NotPurged(cfg: Config, steps: seq<Step>, i: nat, w: string)
    requires i < |steps| && !(steps[i].WorkerFailed? && steps[i].worker == w)
    ensures MoveAt(cfg, steps, i) != Purge(w)
  {
  }

  /**
   An orphan stays one, in every continuation, until its worker is declared failed: it is never
   queued, assigned, completed or dead-lettered.
   */
  lemma {:induction false} OrphanStays(cfg: Config, steps: seq<Step>, k: nat, i: nat, id: string, w: string)
    requires Legal(cfg, steps) && k <= i <= |steps| && w != ""
    requires Orphan(LedgerAt(cfg, steps, k), id, w)
    requires forall j :: k <= j < i ==> !(steps[j].WorkerFailed? && steps[j].worker == w)
    ensures Orphan(LedgerAt(cfg, steps, i), id, w)
  {
    hide LedgerAt, MoveAt, Orphan, CanMove, Moved, Legal, StateAt;
    if k < i {
      OrphanStays(cfg, steps, k, i - 1, id, w);
      LedgerStep(cfg, steps, i - 1);
      NotPurged(cfg, steps, i - 1, w);
      OrphanMoves(LedgerAt(cfg, steps, i - 1), cfg.maxRetries, MoveAt(cfg, steps, i - 1), id, w);
    }
  }

  /** The monitor declares a worker failed only when it is registered. */
  ghost predicate Monitored(cfg: Config, steps: seq<Step>) {
    forall j :: 0 <= j < |steps| && steps[j].WorkerFailed? ==>
      steps[j].worker in StateAt(cfg, steps, j).registry.workers
  }

  lemma {:induction false} StaysUnregistered(cfg: Config, steps: seq<Step>, i: nat, w: string)
    requires i < |steps| && w !in StateAt(cfg, steps, i).registry.workers
    requires !(steps[i].Register? && steps[i].worker == w)
    ensures w !in StateAt(cfg, steps, i + 1).registry.workers
  {
    hide Next;
    StepRegistry(StateAt(cfg, steps, i), cfg, steps[i]);
  }

  /** So an orphan of a worker that is not registered, and does not register again, is there for good. */
  lemma {:induction false} OrphanForever(cfg: Config, steps: seq<Step>, k: nat, i: nat, id: string, w: string)
    requires Legal(cfg, steps) && Monitored(cfg, steps) && k <= i <= |steps| && w != ""
    requires Orphan(LedgerAt(cfg, steps, k), id, w) && w !in StateAt(cfg, steps, k).registry.workers
    requires forall j :: k <= j < i ==> !(steps[j].Register? && steps[j].worker == w)
    ensures Orphan(LedgerAt(cfg, steps, i), id, w) && w !in StateAt(cfg, steps, i).registry.workers
  {
    hide LedgerAt, MoveAt, Orphan, CanMove, Moved, Legal, StateAt;
    if k < i {
      OrphanForever(cfg, steps, k, i - 1, id, w);
      StaysUnregistered(cfg, steps, i - 1, w);
      LedgerStep(cfg, steps, i - 1);
      NotPurged(cfg, steps, i - 1, w);
      OrphanMoves(LedgerAt(cfg, steps, i - 1), cfg.maxRetries, MoveAt(cfg, steps, i - 1), id, w);
    }
  }

  // ---- The gap ----

  /** One worker registers, one job is submitted, and the scheduler chooses: not yet published. */
  function Opening(w: string, capacity: int, job: Job): seq<Step> {
    [Register(w, capacity, 0.0), Submit(job), Select(S.Still(0.0))]
  }

  function Opened(w: string, capacity: int, job: Job): State {
    State(W.Registry([w], map[w := W.Worker(capacity, 0, 0.0)]), Queue([], 1), map[w := C.NEW_BREAKER], map[], [],
          map[job.id := NewRow(job)], Some((job, w)), map[], map[], {})
  }

  lemma {:induction false} OnlyChoice(w: string, capacity: int, st: C.Settings, q: Queue)
    requires w != "" && capacity >= 1 && q.entries != []
    ensures S.Select(W.Registry([w], map[w := W.Worker(capacity, 0, 0.0)]), map[], q, st, S.Still(0.0))
         == S.Selection(map[w := C.NEW_BREAKER], q.(entries := q.entries[1..]), Some((q.entries[0].job, w)))
  {
    var r := W.Registry([w], map[w := W.Worker(capacity, 0, 0.0)]);
    assert W.Available(r) == [w] by { assert W.Filter([w][1..], v => W.HasRoom(r, v)) == []; }
    var none: C.Breakers := map[];
    assert S.AskAll([w][..0], none, st, S.Still(0.0)) == ([], none);
    var nobody: seq<string> := [];
    assert nobody + [w] == [w] && C.BreakerOf(none, w) == C.NEW_BREAKER;
    assert none[w := C.Ask(C.NEW_BREAKER, st, 0.0)] == map[w := C.NEW_BREAKER];
    assert S.AskAll([w], none, st, S.Still(0.0)) == ([w], map[w := C.NEW_BREAKER]);
    assert S.Best(r, [w]) == (Some(w), capacity);
  }

  lemma {:induction false} OpeningLegal(cfg: Config, w: string, capacity: int, job: Job, more: seq<Step>)
    requires w != "" && capacity >= 1
    ensures var steps := Opening(w, capacity, job) + more;
      && StateAt(cfg, steps, 3) == Opened(w, capacity, job)
      && (forall i :: 0 <= i < 3 ==> Enabled(StateAt(cfg, steps, i), steps[i]))
  {
    var steps := Opening(w, capacity, job) + more;
    var s1 := StateAt(cfg, steps, 1);
    assert steps[0] == Register(w, capacity, 0.0) && StateAt(cfg, steps, 0) == INIT;
    assert s1 == OnRegister(INIT, w, capacity, 0.0);
    assert s1 == INIT.(registry := W.Registry([w], map[w := W.Worker(capacity, 0, 0.0)]));
    var s2 := StateAt(cfg, steps, 2);
    assert s2 == OnSubmit(s1, job) && |s2.queue.entries| == 1 && s2.queue.entries[0].job == job;
    OnlyChoice(w, capacity, cfg.settings, s2.queue);
  }

  lemma {:induction false} GapClosed(cfg: Config, s: State, w: string, job: Job)
    requires w != "" && s == Opened(w, 1, job)
    ensures var s1 := OnWorkerFailed(s, w, []); var s2 := OnPublish(s1); var s3 := OnCrash(s2, w);
      && T.Lists(s.table, w, []) && s1.hand.Some? && w in s.registry.workers && w !in s3.registry.workers
      && T.AssignedTo(s3.table, job.id, w) && Ids(s3.queue.entries) == multiset{} && s3.hand == None
      && (forall v :: At(s3.running, v) == multiset{})
  {
    var s1 := OnWorkerFailed(s, w, []);
    assert s1 == s.(registry := W.Remove(s.registry, w), breakers := s.breakers - {w});
  }

  /**
   The worker is declared failed in the gap, the assignment is published all the same, and then the
   worker is gone.
   */
  function InTheGap(w: string, job: Job): seq<Step> {
    Opening(w, 1, job) + [WorkerFailed(w, []), Publish, Crash(w)]
  }

  /**
   A job can be lost in the gap: whatever the settings, this run ends with its only job an orphan of
   a worker that is no longer registered.
   */
  lemma {:induction false} LostInTheGap(cfg: Config, w: string, job: Job)
    requires w != ""
    ensures var steps := InTheGap(w, job);
      && Legal(cfg, steps) && Monitored(cfg, steps)
      && Orphan(LedgerAt(cfg, steps, |steps|), job.id, w)
      && w !in StateAt(cfg, steps, |steps|).registry.workers
  {
    var steps := InTheGap(w, job);
    hide StateAt, OnWorkerFailed, OnPublish, OnCrash, Opened, Ids;
    OpeningLegal(cfg, w, 1, job, [WorkerFailed(w, []), Publish, Crash(w)]);
    InTheGapStates(cfg, w, job);
    GapClosed(cfg, StateAt(cfg, steps, 3), w, job);
  }

  lemma {:induction false} InTheGapStates(cfg: Config, w: string, job: Job)
    ensures var steps := InTheGap(w, job);
      && steps[3] == WorkerFailed(w, []) && steps[4] == Publish && steps[5] == Crash(w)
      && StateAt(cfg, steps, 4) == OnWorkerFailed(StateAt(cfg, steps, 3), w, [])
      && StateAt(cfg, steps, 5) == OnPublish(StateAt(cfg, steps, 4))
      && StateAt(cfg, steps, 6) == OnCrash(StateAt(cfg, steps, 5), w)
  {
    hide OnWorkerFailed, OnPublish, OnCrash;
  }

  // ---- Exactly when assigned jobs can be recovered ----

  /** Every assigned job is assigned to a registered worker, which the monitor may report. */
  ghost predicate AssignedAreRegistered(s: State) {
    forall id, w :: T.AssignedTo(s.table, id, w) ==> w in s.registry.workers
  }

  /** The worker in hand is still registered. */
  predicate HandRegistered(s: State) { s.hand.Some? && s.hand.value.1 in s.registry.workers }

  /** Whenever an assignment is published, its worker is still registered. */
  ghost predicate PublishesGuarded(cfg: Config, steps: seq<Step>) {
    forall i :: 0 <= i < |steps| && steps[i].Publish? ==> HandRegistered(StateAt(cfg, steps, i))
  }

  /** Only the publication of an assignment makes a row ASSIGNED. */
  lemma {:induction false} MovedAssigned(l: Ledger, maxRetries: nat, m: Move, id: string, w: string)
    requires CanMove(l, m) && T.AssignedTo(Moved(l, maxRetries, m).table, id, w)
    requires l.hand.Some? ==> l.hand.value.1 != ""
    ensures (T.AssignedTo(l.table, id, w) && m != Purge(w)) || (m == Assign && l.hand == Some((id, w)))
  {
    hide AddCopy, DropCopy, FailedRow;
    if m.Break? {
      FailedRowAt(l.table, m.id, T.Retrying);
      FailedRowAt(l.table, m.id, T.Dead);
    }
  }

  lemma {:induction false} RegisteredStays(s: State, cfg: Config, step: Step, w: string)
    requires w in s.registry.workers && !(step.WorkerFailed? && step.worker == w)
    ensures w in Next(s, cfg, step).registry.workers
  {
    hide Next;
    StepRegistry(s, cfg, step);
  }

  lemma {:induction false} GuardedStep(cfg: Config, steps: seq<Step>, i: nat)
    requires Legal(cfg, steps) && i < |steps| && AssignedAreRegistered(StateAt(cfg, steps, i))
    requires steps[i].Publish? ==> HandRegistered(StateAt(cfg, steps, i))
    ensures AssignedAreRegistered(StateAt(cfg, steps, i + 1))
  {
    hide Legal, StateAt, Next, Moved, LedgerOf, CanMove, Enabled;
    var s, s' := StateAt(cfg, steps, i), StateAt(cfg, steps, i + 1);
    RunStep(cfg, steps, i);
    LedgerStep(cfg, steps, i);
    LedgerRows(s);
    LedgerRows(s');
    forall id, w | T.AssignedTo(s'.table, id, w) ensures w in s'.registry.workers {
      MovedAssigned(LedgerAt(cfg, steps, i), cfg.maxRetries, MoveAt(cfg, steps, i), id, w);
      RegisteredWorkerStays(cfg, s, steps[i], id, w);
    }
  }

  lemma {:induction false} LedgerRows(s: State)
    ensures LedgerOf(s).table == s.table && LedgerOf(s).hand == HandOf(s)
  {
  }

  lemma {:induction false} RegisteredWorkerStays(cfg: Config, s: State, step: Step, id: string, w: string)
    requires (w in s.registry.workers && MoveOf(s, cfg, step) != Purge(w))
          || (MoveOf(s, cfg, step) == Assign && HandOf(s) == Some((id, w)) && HandRegistered(s))
    requires "" !in s.registry.workers
    ensures w in Next(s, cfg, step).registry.workers
  {
    hide Next, OnSelect;
    RegisteredStays(s, cfg, step, w);
  }

  lemma {:induction false} GuardedRun(cfg: Config, steps: seq<Step>, i: nat)
    requires Legal(cfg, steps) && PublishesGuarded(cfg, steps) && i <= |steps|
    ensures AssignedAreRegistered(StateAt(cfg, steps, i))
  {
    hide Legal, Next;
    if i > 0 {
      GuardedRun(cfg, steps, i - 1);
      GuardedStep(cfg, steps, i - 1);
    }
  }

  /** A publication for a worker no longer registered makes a row that names it. */
  lemma {:induction false} UnguardedPublish(cfg: Config, steps: seq<Step>, i: nat)
    requires Legal(cfg, steps) && i < |steps| && steps[i].Publish? && !HandRegistered(StateAt(cfg, steps, i))
    ensures !AssignedAreRegistered(StateAt(cfg, steps, i + 1))
  {
    hide Legal, StateAt, Kept;
    var s := StateAt(cfg, steps, i);
    RunStep(cfg, steps, i);
    Refines(cfg, steps, i);
    AllKept(cfg.maxRetries, MovesTo(cfg, steps, i));
    var (job, w) := s.hand.value;
    assert job.id in s.table by { HandHasRow(s); }
    assert T.AssignedTo(OnPublish(s).table, job.id, w);
  }

  lemma {:induction false} HandHasRow(s: State)
    requires s.hand.Some? && Kept(LedgerOf(s), s.hand.value.0.id)
    ensures s.hand.value.0.id in s.table
  {
    assert s.hand.value.0.id in Waiting(LedgerOf(s));
  }

  /**
   Recovery, exactly: in every legal run, every assigned job is at every moment assigned to a
   registered worker, so that the monitor can have it recovered, iff whenever an assignment is
   published its worker is still registered. That is the check the assigner does not make.
   */
  lemma {:induction false} AssignedRecoverable(cfg: Config, steps: seq<Step>)
    requires Legal(cfg, steps)
    ensures (forall i :: 0 <= i <= |steps| ==> AssignedAreRegistered(StateAt(cfg, steps, i)))
            <==> PublishesGuarded(cfg, steps)
  {
    hide Legal, StateAt, AssignedAreRegistered, HandRegistered;
    if PublishesGuarded(cfg, steps) {
      forall i | 0 <= i <= |steps| ensures AssignedAreRegistered(StateAt(cfg, steps, i)) {
        GuardedRun(cfg, steps, i);
      }
    } else {
      var i :| 0 <= i < |steps| && steps[i].Publish? && !HandRegistered(StateAt(cfg, steps, i));
      UnguardedPublish(cfg, steps, i);
    }
  }

  /**
   With that check, whatever is assigned is put back in the queue when its worker is reported,
   which the monitor may do.
   */
  lemma {:induction false} AssignedIsRecovered(cfg: Config, steps: seq<Step>, i: nat, id: string, w: string,
                                        found: seq<string>)
    requires Legal(cfg, steps) && PublishesGuarded(cfg, steps) && i <= |steps|
    requires T.AssignedTo(StateAt(cfg, steps, i).table, id, w) && T.Lists(StateAt(cfg, steps, i).table, w, found)
    ensures var s := StateAt(cfg, steps, i); var s' := Next(s, cfg, WorkerFailed(w, found));
      && w in s.registry.workers && Enabled(s, WorkerFailed(w, found))
      && id in Ids(s'.queue.entries) && !T.AssignedTo(s'.table, id, w)
  {
    hide Legal, StateAt, Next, Ids;
    GuardedRun(cfg, steps, i);
    NamedAlways(cfg, steps, i);
    PurgeRecovers(StateAt(cfg, steps, i), cfg, w, found, id);
  }
}
