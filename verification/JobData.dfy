/**
 What becomes of the data of a job: its row in the table after every step, and that every copy of it
 in queue, hand and dead letter queue is the job submitted, or that job as its row shows it.
 */
module JobData {
  import opened Wrappers
  import opened JobQueue
  import opened RetryQueue
  import opened Coordinator
  import opened CoordinatorRuns
  import opened JobOrder
  import C = CircuitBreaker
  import S = Scheduler
  import T = TaskRepository
  import Text
  import W = WorkerRegistry

  // ---- Rows ----

  /** The row of `id` after a step, from the row before. */
  function RowAfter(s: State, cfg: Config, step: Step, id: string): T.Row
    requires id in s.table || (step.Submit? && step.job.id == id)
  {
    match step
    case Submit(job) =>
      if job.id == id then T.Row(job.jobType, Shown(job.priority), T.Pending, 0, None) else s.table[id]
    case Publish =>
      if s.hand.Some? && s.hand.value.0.id == id && s.hand.value.1 != "" then
        s.table[id].(status := T.Assigned, worker := Some(s.hand.value.1))
      else s.table[id]
    case Complete(_, x) => if x == id then s.table[id].(status := T.Completed) else s.table[id]
    case Failed(_, job, _) =>
      if job.id != id then s.table[id]
      else if TriesOf(s.retries, id) < cfg.maxRetries then
        s.table[id].(status := T.Retrying, retries := s.table[id].retries + 1)
      else s.table[id].(status := T.Dead, retries := s.table[id].retries + 1)
    case WorkerFailed(w, found) => if w != "" && id in found then s.table[id].(status := T.Pending) else s.table[id]
    case _ => s.table[id]
  }

  /** The table changes in this way only. */
  lemma {:induction false} StepRow(s: State, cfg: Config, step: Step, id: string)
    requires WellNamed(s) && Enabled(s, step)
    ensures var t := Next(s, cfg, step).table;
      && (id in t <==> id in s.table || (step.Submit? && step.job.id == id))
      && (id in t ==> t[id] == RowAfter(s, cfg, step, id))
  {
    hide Add, S.Select, C.Fail, C.Succeed, DropCopy, AddCopy, W.Remove, W.Increment, W.Decrement;
    match step
    case Failed(w, job, now) => FailedRow(s, cfg, w, job, now, id);
    case Complete(w, x) => CompletedRow(s, w, x, id);
    case WorkerFailed(w, found) =>
      if w != "" {
        RecoveredRow(s.(registry := W.Remove(s.registry, w), breakers := s.breakers - {w}), found, id);
      }
    case _ =>
  }

  lemma {:induction false} FailedRow(s: State, cfg: Config, w: string, job: Job, now: real, id: string)
    ensures var t := OnFailed(s, cfg, w, job, now).table;
      && t.Keys == s.table.Keys && (id in t ==> t[id] == RowAfter(s, cfg, Failed(w, job, now), id))
  {
    hide Add, C.Fail, DropCopy, W.Decrement;
  }

  lemma {:induction false} CompletedRow(s: State, w: string, x: string, id: string)
    ensures var t := OnComplete(s, w, x).table;
      t.Keys == s.table.Keys && (id in t && id in s.table ==>
        t[id] == if x == id then s.table[id].(status := T.Completed) else s.table[id])
  {
    hide C.Succeed, DropCopy, W.Decrement;
  }

  lemma {:induction false} RecoveredRow(s: State, found: seq<string>, id: string)
    requires forall x :: x in found ==> x in s.table
    requires forall i, j :: 0 <= i < j < |found| ==> found[i] != found[j]
    ensures var t := RequeueAll(s, found).table;
      t.Keys == s.table.Keys && (id in t && id in s.table ==>
        t[id] == if id in found then s.table[id].(status := T.Pending) else s.table[id])
  {
    hide Add;
    RequeueAllQueue(s, found);
    if id in s.table {
      RequeueAllTable(s, found, id);
    }
  }

  // ---- Copies ----

  /** The entry may be new in the queue after the step: the job submitted or reported, or rebuilt from its row. */
  ghost predicate NewEntry(s: State, step: Step, e: Entry) {
    && e.priority == 11 - Urgency(e.job.priority)
    && match step
       case Submit(job) => e.job == job
       case Failed(_, job, _) => e.job == job
       case WorkerFailed(_, found) =>
         && e.job.id in found && e.job.id in s.table && e.job.payload == None
         && e.job.jobType == s.table[e.job.id].jobType && e.job.priority == Named(s.table[e.job.id].priority)
       case _ => false
  }

  lemma {:induction false} AddMembers(q: Queue, job: Job)
    ensures forall e :: e in Add(q, job).entries ==>
      e in q.entries || (e.job == job && e.priority == 11 - Urgency(job.priority))
  {
    hide Urgency, Rank;
    InsertSpec(q.entries, Entry(Rank(job.priority), q.counter + 1, job));
    RankIsUrgency(job.priority);
  }

  lemma {:induction false} RequeuedMembers(s: State, w: string, found: seq<string>)
    requires forall id :: id in found ==> id in s.table
    requires forall i, j :: 0 <= i < j < |found| ==> found[i] != found[j]
    ensures forall e :: e in RequeueAll(s, found).queue.entries ==>
      e in s.queue.entries || NewEntry(s, WorkerFailed(w, found), e)
    decreases |found|
  {
    hide Urgency, Add;
    if found != [] {
      var last := |found| - 1;
      var s1 := RequeueAll(s, found[..last]);
      RequeuedMembers(s, w, found[..last]);
      RequeueAllQueue(s, found[..last]);
      assert found == found[..last] + [found[last]] && found[last] !in found[..last];
      RequeueAllTable(s, found[..last], found[last]);
      AddMembers(s1.queue, JobOfRow(found[last], s1.table[found[last]]));
    }
  }

  lemma {:induction false} StepQueue(s: State, cfg: Config, step: Step)
    requires WellNamed(s) && Enabled(s, step)
    ensures forall e :: e in Next(s, cfg, step).queue.entries ==> e in s.queue.entries || NewEntry(s, step, e)
  {
    hide Urgency, Add, S.Select, S.Permitted, C.Fail, C.Succeed, DropCopy, AddCopy, W.Remove, W.Increment, W.Decrement;
    match step
    case Submit(job) => AddMembers(s.queue, job);
    case Select(clock) => S.SelectSpec(s.registry, s.breakers, s.queue, cfg.settings, clock);
    case Failed(w, job, now) => AddMembers(s.queue, job);
    case WorkerFailed(w, found) =>
      RequeuedMembers(s.(registry := W.Remove(s.registry, w), breakers := s.breakers - {w}), w, found);
    case _ =>
  }

  lemma {:induction false} StepHand(s: State, cfg: Config, step: Step)
    requires WellNamed(s) && Enabled(s, step)
    ensures var s' := Next(s, cfg, step);
      && (s'.hand.Some? ==> s'.hand == s.hand || exists e :: e in s.queue.entries && e.job == s'.hand.value.0)
      && (forall job :: job in s'.dlq ==> job in s.dlq || (step.Failed? && job == step.job))
  {
    hide Add, S.Select, S.Permitted, C.Fail, C.Succeed, DropCopy, AddCopy, W.Remove, W.Increment, W.Decrement;
    hide RequeueAll;
    match step
    case Select(clock) => S.SelectSpec(s.registry, s.breakers, s.queue, cfg.settings, clock);
    case WorkerFailed(w, found) =>
      RequeuedHand(s.(registry := W.Remove(s.registry, w), breakers := s.breakers - {w}), found);
    case _ =>
  }

  lemma {:induction false} RequeuedHand(s: State, found: seq<string>)
    ensures RequeueAll(s, found).hand == s.hand && RequeueAll(s, found).dlq == s.dlq
    decreases |found|
  {
    if found != [] {
      RequeuedHand(s, found[..|found| - 1]);
    }
  }

  // ---- Over whole runs ----

  /** The job submitted under `id`. */
  function Submitted(steps: seq<Step>, i: nat, id: string): Option<Job>
    requires i <= |steps|
  {
    if i == 0 then None
    else if steps[i - 1].Submit? && steps[i - 1].job.id == id then Some(steps[i - 1].job)
    else Submitted(steps, i - 1, id)
  }

  /** The job as submitted, or as its row shows it: the priority as text, and no payload. */
  predicate Version(job: Job, original: Job) {
    && job.id == original.id && job.jobType == original.jobType
    && ((job.priority == original.priority && job.payload == original.payload)
        || (job.priority == Named(Shown(original.priority)) && job.payload == None))
  }

  predicate IsCopy(steps: seq<Step>, i: nat, job: Job)
    requires i <= |steps|
  {
    Submitted(steps, i, job.id).Some? && Version(job, Submitted(steps, i, job.id).value)
  }

  /** Workers that report a failure send the job along as it is. */
  ghost predicate ReportedAsGiven(steps: seq<Step>) {
    forall i :: 0 <= i < |steps| && steps[i].Failed? ==> IsCopy(steps, i, steps[i].job)
  }

  ghost predicate RowsShow(s: State, steps: seq<Step>, i: nat)
    requires i <= |steps|
  {
    forall id :: (id in s.table <==> Submitted(steps, i, id).Some?) && (id in s.table ==>
      var job := Submitted(steps, i, id).value;
      job.id == id && s.table[id].jobType == job.jobType && s.table[id].priority == Shown(job.priority))
  }

  ghost predicate CopiesKept(s: State, steps: seq<Step>, i: nat)
    requires i <= |steps|
  {
    && (forall e :: e in s.queue.entries ==> IsCopy(steps, i, e.job) && e.priority == 11 - Urgency(e.job.priority))
    && (s.hand.Some? ==> IsCopy(steps, i, s.hand.value.0))
    && (forall job :: job in s.dlq ==> IsCopy(steps, i, job))
  }

  lemma {:induction false} RowsStep(cfg: Config, steps: seq<Step>, i: nat)
    requires Legal(cfg, steps) && i < |steps| && RowsShow(StateAt(cfg, steps, i), steps, i)
    ensures RowsShow(StateAt(cfg, steps, i + 1), steps, i + 1)
  {
    hide Legal, StateAt, Next, Enabled, WellNamed;
    var s, s' := StateAt(cfg, steps, i), StateAt(cfg, steps, i + 1);
    RunStep(cfg, steps, i);
    forall id ensures (id in s'.table <==> Submitted(steps, i + 1, id).Some?) && (id in s'.table ==>
      var job := Submitted(steps, i + 1, id).value;
      job.id == id && s'.table[id].jobType == job.jobType && s'.table[id].priority == Shown(job.priority))
    {
      StepRow(s, cfg, steps[i], id);
    }
  }

  /** In every run each row shows the type and the priority its job was submitted with. */
  lemma {:induction false} RowsAlwaysShow(cfg: Config, steps: seq<Step>, i: nat)
    requires Legal(cfg, steps) && i <= |steps|
    ensures RowsShow(StateAt(cfg, steps, i), steps, i)
  {
    hide RowsShow, Next, Legal;
    if i == 0 {
      NoRows(steps);
    } else {
      RowsAlwaysShow(cfg, steps, i - 1);
      RowsStep(cfg, steps, i - 1);
    }
  }

  lemma {:induction false} NoRows(steps: seq<Step>)
    ensures RowsShow(INIT, steps, 0) && CopiesKept(INIT, steps, 0)
  {
  }

  lemma {:induction false} CopyStays(cfg: Config, steps: seq<Step>, i: nat, job: Job)
    requires Legal(cfg, steps) && i < |steps| && IsCopy(steps, i, job)
    ensures IsCopy(steps, i + 1, job)
  {
    hide StateAt, Version, WellNamed, Next;
    RowsAlwaysShow(cfg, steps, i);
    assert Enabled(StateAt(cfg, steps, i), steps[i]);
    assert Submitted(steps, i, job.id).Some? ==> job.id in StateAt(cfg, steps, i).table;
  }

  lemma {:induction false} NewIsCopy(cfg: Config, steps: seq<Step>, i: nat, e: Entry)
    requires Legal(cfg, steps) && i < |steps| && ReportedAsGiven(steps)
    requires NewEntry(StateAt(cfg, steps, i), steps[i], e)
    ensures IsCopy(steps, i + 1, e.job)
  {
    hide StateAt, Urgency, Legal;
    RowsAlwaysShow(cfg, steps, i);
    if steps[i].Failed? {
      CopyStays(cfg, steps, i, e.job);
    }
  }

  lemma {:induction false} CopiesStep(cfg: Config, steps: seq<Step>, i: nat)
    requires Legal(cfg, steps) && i < |steps| && ReportedAsGiven(steps) && CopiesKept(StateAt(cfg, steps, i), steps, i)
    ensures CopiesKept(StateAt(cfg, steps, i + 1), steps, i + 1)
  {
    hide StateAt, Legal, Next, Enabled, WellNamed, Urgency, IsCopy;
    var s, s' := StateAt(cfg, steps, i), StateAt(cfg, steps, i + 1);
    RunStep(cfg, steps, i);
    StepQueue(s, cfg, steps[i]);
    StepHand(s, cfg, steps[i]);
    forall e | e in s'.queue.entries ensures IsCopy(steps, i + 1, e.job) && e.priority == 11 - Urgency(e.job.priority) {
      if e in s.queue.entries {
        CopyStays(cfg, steps, i, e.job);
      } else {
        NewIsCopy(cfg, steps, i, e);
      }
    }
    if s'.hand.Some? {
      CopyStays(cfg, steps, i, s'.hand.value.0);
    }
    forall job | job in s'.dlq ensures IsCopy(steps, i + 1, job) {
      CopyStays(cfg, steps, i, job);
    }
  }

  /**
   In every run in which workers report jobs as they were given, every copy in the queue, in hand
   and in the dead letter queue is the job submitted under its id, or that job as its row shows it;
   and it stands in the queue by its urgency.
   */
  lemma {:induction false} CopiesAlwaysKept(cfg: Config, steps: seq<Step>, i: nat)
    requires Legal(cfg, steps) && ReportedAsGiven(steps) && i <= |steps|
    ensures CopiesKept(StateAt(cfg, steps, i), steps, i)
  {
    hide CopiesKept, Next, Legal, ReportedAsGiven;
    if i == 0 {
      NoRows(steps);
    } else {
      CopiesAlwaysKept(cfg, steps, i - 1);
      CopiesStep(cfg, steps, i - 1);
    }
  }

  /** What a row shows of a priority: its name, MEDIUM for none, a number in digits. */
  lemma {:induction false} ShownIs(p: Priority)
    ensures match p
      case Absent => Shown(p) == "MEDIUM"
      case Named(name) => Shown(p) == name
      case Number(n) => Text.PyInt(Shown(p)) == Some(n)
      case Other(shown) => Shown(p) == shown
  {
    hide Text.PyInt, Text.PrintInt;
    if p.Number? {
      NumberShown(p.n);
    }
  }

  lemma {:induction false} NumberShown(n: int)
    ensures Text.PyInt(Text.PrintInt(n)) == Some(n)
  {
    hide Text.PyInt, Text.PrintNat;
    if n >= 0 {
      Text.IntRoundTrip(n);
    } else {
      Text.NegativeRoundTrip(-n);
      assert Text.PrintInt(n) == ['-'] + Text.PrintNat(-n);
    }
  }
}
