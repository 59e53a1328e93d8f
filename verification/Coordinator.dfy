/**
 The coordinator as a transition system: the event handlers of coordinator/coordinator.py and the
 two halves of the assigner's loop, each one atomic step on the whole state.
 */
module Coordinator {
  import opened Wrappers
  import opened JobQueue
  import opened RetryQueue
  import C = CircuitBreaker
  import S = Scheduler
  import T = TaskRepository
  import W = WorkerRegistry
  import L = LruStore

  /** For each worker, the ids of the job copies handed to it. */
  type Copies = map<string, multiset<string>>

  function At(c: Copies, w: string): multiset<string> { if w in c then c[w] else multiset{} }

  function AddCopy(c: Copies, w: string, id: string): Copies { c[w := At(c, w) + multiset{id}] }

  function DropCopy(c: Copies, w: string, id: string): Copies { c[w := At(c, w) - multiset{id}] }

  datatype Config = Config(settings: C.Settings, maxRetries: nat)

  /**
   `hand` is what the assigner holds between selecting and publishing. `out` are the copies
   assigned and not yet reported, `running` those of them a worker still works on, `done` the ids
   reported completed at some time; these three are history, not data of the service.
   */
  datatype State = State(
    registry: W.Registry,
    queue: Queue,
    breakers: C.Breakers,
    retries: map<string, nat>,
    dlq: seq<Job>,
    table: T.Table,
    hand: Option<(Job, string)>,
    out: Copies,
    running: Copies,
    done: set<string>)

  const INIT := State(W.EMPTY, JobQueue.EMPTY, map[], map[], [], map[], None, map[], map[], {})

  datatype Step =
    | Register(worker: string, capacity: int, now: real)
    | Beat(worker: string, now: real)
    | Submit(job: Job)
    | Select(clock: S.Clock)
    | Publish
    | Complete(worker: string, id: string)
    | Failed(worker: string, job: Job, now: real)
    | WorkerFailed(worker: string, found: seq<string>)
    | Crash(worker: string)    // the worker silently drops everything it was working on

  /** Fresh ids; reports only of copies a worker holds, each once; the listing is the table's. */
  ghost predicate Enabled(s: State, step: Step) {
    match step
    case Submit(job) => job.id !in s.table
    case Select(_) => s.hand == None
    case Publish => s.hand.Some?
    case Complete(w, id) => id in At(s.running, w)
    case Failed(w, job, _) => job.id in At(s.running, w)
    case WorkerFailed(w, found) => T.Lists(s.table, w, found)
    case _ => true
  }

  /** A JOB_SUBMITTED event, with or without an id. */
  datatype Submission = Submission(id: Option<string>, jobType: string, priority: Priority, payload: Option<string>)

  function NewRow(job: Job): T.Row { T.Row(job.jobType, Shown(job.priority), T.Pending, 0, None) }

  /** The job as it is rebuilt from its table row: the payload is gone. */
  function JobOfRow(id: string, row: T.Row): Job { Job(id, row.jobType, Named(row.priority), None) }

  function Requeue(s: State, id: string): State {
    if id in s.table then
      s.(table := T.UpdateRow(s.table, id, T.Pending, None), queue := Add(s.queue, JobOfRow(id, s.table[id])))
    else s
  }

  function RequeueAll(s: State, found: seq<string>): State {
    if found == [] then s else Requeue(RequeueAll(s, found[..|found| - 1]), found[|found| - 1])
  }

  function OnRegister(s: State, w: string, capacity: int, now: real): State {
    if w != "" then s.(registry := W.Register(s.registry, w, capacity, now)) else s
  }

  function OnBeat(s: State, w: string, now: real): State {
    if w != "" then s.(registry := W.Heartbeat(s.registry, w, now)) else s
  }

  function OnSubmit(s: State, job: Job): State {
    s.(queue := Add(s.queue, job), table := s.table[job.id := NewRow(job)])
  }

  function OnSelect(s: State, cfg: Config, clock: S.Clock): State {
    var r := S.Select(s.registry, s.breakers, s.queue, cfg.settings, clock);
    s.(breakers := r.breakers, queue := r.queue, hand := r.chosen)
  }

  function OnPublish(s: State): State {
    match s.hand
    case None => s
    case Some((job, w)) =>
      s.(hand := None, registry := W.Increment(s.registry, w),
         table := T.UpdateRow(s.table, job.id, T.Assigned, Some(w)),
         out := AddCopy(s.out, w, job.id), running := AddCopy(s.running, w, job.id))
  }

  /** A report frees a slot of the worker and reaches its breaker. */
  function Freed(s: State, w: string, b: C.Breaker): State {
    if w != "" then s.(registry := W.Decrement(s.registry, w), breakers := s.breakers[w := b]) else s
  }

  function Unheld(s: State, w: string, id: string): State {
    s.(out := DropCopy(s.out, w, id), running := DropCopy(s.running, w, id))
  }

  function WithStatus(s: State, id: string, status: T.Status, worker: Option<string>): State {
    s.(table := T.UpdateRow(s.table, id, status, worker))
  }

  function OnComplete(s: State, w: string, id: string): State {
    var s' := Unheld(Freed(s, w, C.Succeed(C.BreakerOf(s.breakers, w))), w, id);
    WithStatus(s', id, T.Completed, None).(done := s.done + {id})
  }

  /** The handling of a failed job by the retry engine. */
  function Retry(s: State, maxRetries: nat, job: Job): State {
    var tries := TriesOf(s.retries, job.id) + 1;
    var t := T.RetryRow(s.table, job.id);
    if tries <= maxRetries then
      s.(retries := s.retries[job.id := tries], table := T.UpdateRow(t, job.id, T.Retrying, None),
         queue := Add(s.queue, job))
    else
      s.(retries := s.retries[job.id := tries], table := T.UpdateRow(t, job.id, T.Dead, None), dlq := s.dlq + [job])
  }

  function OnFailed(s: State, cfg: Config, w: string, job: Job, now: real): State {
    Retry(Unheld(Freed(s, w, C.Fail(C.BreakerOf(s.breakers, w), cfg.settings, now)), w, job.id), cfg.maxRetries, job)
  }

  function OnWorkerFailed(s: State, w: string, found: seq<string>): State {
    if w != "" then RequeueAll(s.(registry := W.Remove(s.registry, w), breakers := s.breakers - {w}), found) else s
  }

  function OnCrash(s: State, w: string): State { s.(running := s.running[w := multiset{}]) }

  function Next(s: State, cfg: Config, step: Step): State {
    match step
    case Register(w, capacity, now) => OnRegister(s, w, capacity, now)
    case Beat(w, now) => OnBeat(s, w, now)
    case Submit(job) => OnSubmit(s, job)
    case Select(clock) => OnSelect(s, cfg, clock)
    case Publish => OnPublish(s)
    case Complete(w, id) => OnComplete(s, w, id)
    case Failed(w, job, now) => OnFailed(s, cfg, w, job, now)
    case WorkerFailed(w, found) => OnWorkerFailed(s, w, found)
    case Crash(w) => OnCrash(s, w)
  }

  // ---- The service object ----

  class CoordinatorService {
    const cfg: Config
    const registry: W.WorkerRegistry
    const breakers: C.CircuitBreakerManager
    const scheduler: S.Scheduler
    const repo: T.TaskRepository
    const dlq: DeadLetterQueue
    const retryEngine: RetryQueue
    var hand: Option<(Job, string)>
    ghost var out: Copies
    ghost var running: Copies
    ghost var done: set<string>

    ghost predicate Valid()
      reads this, breakers, breakers.Repr
    {
      && breakers.Valid() && breakers.settings == cfg.settings
      && scheduler.registry == registry && scheduler.breakers == breakers
      && retryEngine.scheduler == scheduler && retryEngine.repo == repo && retryEngine.maxRetries == cfg.maxRetries
      && dlq.repo == repo
    }

    ghost function View(): State
      reads this, registry, breakers, scheduler.jobQueue, repo, dlq, retryEngine
    {
      State(registry.View(), scheduler.jobQueue.View(), breakers.model, retryEngine.retriesTracker, dlq.dlq,
            repo.table, hand, out, running, done)
    }

    constructor (cfg: Config, cacheCapacity: L.Capacity)
      ensures Valid() && View() == INIT && this.cfg == cfg
    {
      var registry := new W.WorkerRegistry();
      var breakers := new C.CircuitBreakerManager(cfg.settings);
      var scheduler := new S.Scheduler(registry, breakers);
      var repo := new T.TaskRepository(cacheCapacity);
      this.cfg, this.registry, this.breakers, this.scheduler, this.repo := cfg, registry, breakers, scheduler, repo;
      dlq := new DeadLetterQueue(repo);
      retryEngine := new RetryQueue(scheduler, repo, cfg.maxRetries);
      hand, out, running, done := None, map[], map[], {};
    }

    /** A status update as the table sees it. */
    method UpdateTable(id: string, status: T.Status, worker: Option<string>, result: Option<string>)
      requires Valid()
      modifies repo
      ensures Valid() && View() == WithStatus(old(View()), id, status, worker)
    {
      repo.Update(id, status, worker, result, None);
    }

    ghost method NoteReport(worker: string, id: string)
      requires Valid()
      modifies this`out, this`running
      ensures Valid() && View() == Unheld(old(View()), worker, id)
    {
      out, running := DropCopy(out, worker, id), DropCopy(running, worker, id);
    }

    ghost method NoteDone(id: string)
      requires Valid()
      modifies this`done
      ensures Valid() && View() == old(View()).(done := old(done) + {id})
    {
      done := done + {id};
    }

    /** The retry engine's part, as the table, the queue and the dead letter queue see it. */
    method RetryTask(job: Job, error: Option<string>)
      requires Valid()
      modifies repo, dlq, retryEngine, scheduler.jobQueue
      ensures Valid() && View() == Retry(old(View()), cfg.maxRetries, job)
    {
      retryEngine.HandleTaskFailed(job, error, dlq);
    }

    method HandleRegister(worker: string, capacity: int, now: real)
      requires Valid()
      modifies registry
      ensures Valid() && View() == OnRegister(old(View()), worker, capacity, now)
    {
      if worker != "" {
        registry.RegisterWorker(worker, capacity, now);
      }
    }

    method HandleHeartbeat(worker: string, now: real)
      requires Valid()
      modifies registry
      ensures Valid() && View() == OnBeat(old(View()), worker, now)
    {
      if worker != "" {
        registry.UpdateHeartbeat(worker, now);
      }
    }

    /** `uuid` is the id made for a submission without one. */
    method HandleJobSubmitted(event: Submission, uuid: string)
      requires Valid()
      modifies scheduler.jobQueue, repo
      ensures Valid()
      ensures var id := match event.id case Some(given) => given case None => uuid;
        View() == OnSubmit(old(View()), Job(id, event.jobType, event.priority, event.payload))
    {
      var id := uuid;
      if event.id.Some? {
        id := event.id.value;
      }
      var job := Job(id, event.jobType, event.priority, event.payload);
      scheduler.QueueJob(job);
      repo.Save(job.id, job.jobType, Shown(job.priority), T.Pending, 0, None);
    }

    /** First half of the assigner's loop. */
    method SelectNext(clock: S.Clock)
      requires Valid() && hand == None
      modifies this`hand, breakers, breakers.Repr, scheduler.jobQueue
      ensures Valid() && View() == OnSelect(old(View()), cfg, clock)
    {
      hand := scheduler.GetNextJobAndWorker(clock);
    }

    /** Second half: count the load, then publish the assignment, which is persisted and sent. */
    method PublishAssignment()
      requires Valid() && hand.Some?
      modifies this, registry, repo
      ensures Valid() && View() == OnPublish(old(View()))
    {
      var (job, worker) := hand.value;
      registry.IncrementLoad(worker);
      UpdateTable(job.id, T.Assigned, Some(worker), None);
      hand := None;
      out, running := AddCopy(out, worker, job.id), AddCopy(running, worker, job.id);
    }

    /** The worker's slot is freed and its breaker hears of the success. */
    method FreeAfterSuccess(worker: string)
      requires Valid()
      modifies registry, breakers, breakers.Repr
      ensures Valid() && fresh(breakers.Repr - old(breakers.Repr))
      ensures View() == Freed(old(View()), worker, C.Succeed(C.BreakerOf(old(breakers.model), worker)))
    {
      if worker != "" {
        registry.DecrementLoad(worker);
        var alert := breakers.RecordSuccess(worker);
      }
    }

    method FreeAfterFailure(worker: string, now: real)
      requires Valid()
      modifies registry, breakers, breakers.Repr
      ensures Valid() && fresh(breakers.Repr - old(breakers.Repr))
      ensures View() == Freed(old(View()), worker, C.Fail(C.BreakerOf(old(breakers.model), worker), cfg.settings, now))
    {
      if worker != "" {
        registry.DecrementLoad(worker);
        var alert := breakers.RecordFailure(worker, now);
      }
    }

    method HandleJobCompleted(worker: string, id: string, result: Option<string>)
      requires Valid()
      modifies this`out, this`running, this`done, registry, breakers, breakers.Repr, repo
      ensures Valid() && View() == OnComplete(old(View()), worker, id)
    {
      FreeAfterSuccess(worker);
      NoteReport(worker, id);
      UpdateTable(id, T.Completed, None, result);
      NoteDone(id);
    }

    method HandleTaskFailed(worker: string, job: Job, error: Option<string>, now: real)
      requires Valid()
      modifies this`out, this`running, registry, breakers, breakers.Repr, repo, dlq, retryEngine, scheduler.jobQueue
      ensures Valid() && View() == OnFailed(old(View()), cfg, worker, job, now)
    {
      FreeAfterFailure(worker, now);
      NoteReport(worker, job.id);
      RetryTask(job, error);
    }

    /** The worker is purged and its assigned tasks, in the order the database lists them, go back to the queue. */
    method HandleWorkerFailed(worker: string) returns (found: seq<string>)
      requires Valid()
      modifies registry, breakers, scheduler.jobQueue, repo
      ensures Valid() && T.Lists(old(repo.table), worker, found)
      ensures View() == OnWorkerFailed(old(View()), worker, found)
    {
      found := repo.GetAssignedTasksForWorker(worker);
      if worker != "" {
        registry.RemoveWorker(worker);
        breakers.RemoveWorker(worker);
        RequeueTasks(found);
      }
    }

    method RequeueTasks(found: seq<string>)
      requires Valid() && forall id :: id in found ==> id in repo.table
      modifies scheduler.jobQueue, repo
      ensures Valid() && View() == RequeueAll(old(View()), found)
    {
      for i := 0 to |found|
        invariant Valid() && View() == RequeueAll(old(View()), found[..i])
        invariant repo.table.Keys == old(repo.table.Keys)
      {
        assert found[..i + 1][..i] == found[..i];
        var id := found[i];
        var job := JobOfRow(id, repo.table[id]);
        UpdateTable(id, T.Pending, None, None);
        scheduler.QueueJob(job);
      }
      assert found[..|found|] == found;
    }
  }
}
