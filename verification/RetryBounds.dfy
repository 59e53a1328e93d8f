/**
 Counting over runs of the coordinator: how often a job failed, was queued again, was assigned and
 was given up, and hence how many assignments a number of submissions can cause.
 */
module RetryBounds {
  import opened JobQueue
  import opened RetryQueue
  import opened Coordinator
  import opened Ledger
  import opened CoordinatorRuns
  import T = TaskRepository

  function Min(a: nat, b: nat): nat { if a <= b then a else b }

  // ---- Counting in the ledger ----

  function Failures(moves: seq<Move>, id: string): nat {
    if moves == [] then 0
    else
      var m := moves[|moves| - 1];
      Failures(moves[..|moves| - 1], id) + Count(m.Break? && m.id == id)
  }

  function Entries(moves: seq<Move>, id: string): nat {
    if moves == [] then 0
    else
      var m := moves[|moves| - 1];
      Entries(moves[..|moves| - 1], id) + Count(m.Enter? && m.id == id)
  }

  function PickOf(m: Move): multiset<string> { if m.Pick? then multiset{m.id} else multiset{} }

  function Picks(moves: seq<Move>): multiset<string> {
    if moves == [] then multiset{} else Picks(moves[..|moves| - 1]) + PickOf(moves[|moves| - 1])
  }

  predicate Recovers(l: Ledger, m: Move, id: string) { m.Purge? && T.AssignedTo(l.table, id, m.w) }

  /** How often a purge put `id` back in the queue. */
  function Recoveries(maxRetries: nat, moves: seq<Move>, id: string): nat {
    if moves == [] then 0
    else
      var before := moves[..|moves| - 1];
      Recoveries(maxRetries, before, id) + Count(Recovers(Replay(maxRetries, before), moves[|moves| - 1], id))
  }

  /**
   The ledger's figures for `id` after `entered` submissions, `failed` failures, `picked`
   assignments, `recovered` recoveries.
   */
  ghost predicate Counted(l: Ledger, maxRetries: nat, id: string,
                          entered: nat, failed: nat, picked: nat, recovered: nat) {
    && TriesOf(l.retries, id) == failed
    && l.dead[id] == failed - Min(failed, maxRetries)
    && l.queued[id] + picked == entered + Min(failed, maxRetries) + recovered
    && entered == Count(id in l.table)
  }

  lemma {:induction false} BrokenCounted(l: Ledger, maxRetries: nat, w: string, x: string, id: string, e: nat, f: nat,
                                        p: nat, r: nat)
    requires Counted(l, maxRetries, id, e, f, p, r)
    ensures Counted(Broken(l, maxRetries, w, x), maxRetries, id, e, f + Count(x == id), p, r)
  {
    FailedRowAt(l.table, x, T.Retrying);
    FailedRowAt(l.table, x, T.Dead);
  }

  lemma {:induction false} PurgedCounted(l: Ledger, maxRetries: nat, w: string, id: string, e: nat, f: nat, p: nat,
                                        r: nat)
    requires Counted(l, maxRetries, id, e, f, p, r)
    ensures Counted(Purged(l, w), maxRetries, id, e, f, p, r + Count(T.AssignedTo(l.table, id, w)))
  {
  }

  lemma {:induction false} EnteredCounted(l: Ledger, maxRetries: nat, x: string, row: T.Row, id: string, e: nat,
                                        f: nat, p: nat, r: nat)
    requires Counted(l, maxRetries, id, e, f, p, r) && x !in l.table
    ensures Counted(Entered(l, x, row), maxRetries, id, e + Count(x == id), f, p, r)
  {
  }

  lemma {:induction false} PickedCounted(l: Ledger, maxRetries: nat, x: string, w: string, id: string, e: nat, f: nat,
                                        p: nat, r: nat)
    requires Counted(l, maxRetries, id, e, f, p, r) && x in l.queued
    ensures Counted(Picked(l, x, w), maxRetries, id, e, f, p + multiset{x}[id], r)
  {
  }

  lemma {:induction false} SameCounted(l: Ledger, l': Ledger, maxRetries: nat, id: string, e: nat, f: nat, p: nat,
                                       r: nat)
    requires Counted(l, maxRetries, id, e, f, p, r)
    requires l'.queued == l.queued && l'.dead == l.dead && l'.retries == l.retries && l'.table.Keys == l.table.Keys
    ensures Counted(l', maxRetries, id, e, f, p, r)
  {
  }

  lemma {:induction false} MovedCounted(l: Ledger, maxRetries: nat, m: Move, id: string, e: nat, f: nat, p: nat, r: nat)
    requires Counted(l, maxRetries, id, e, f, p, r) && CanMove(l, m)
    ensures Counted(Moved(l, maxRetries, m), maxRetries, id, e + Count(m.Enter? && m.id == id),
                    f + Count(m.Break? && m.id == id),
                    p + PickOf(m)[id], r + Count(Recovers(l, m, id)))
  {
    hide Counted, Entered, Picked, Broken, Purged, AddCopy, DropCopy, T.AssignedTo;
    match m
    case Break(w, x) => BrokenCounted(l, maxRetries, w, x, id, e, f, p, r);
    case Purge(w) => PurgedCounted(l, maxRetries, w, id, e, f, p, r);
    case Enter(x, row) => EnteredCounted(l, maxRetries, x, row, id, e, f, p, r);
    case Pick(x, w) => PickedCounted(l, maxRetries, x, w, id, e, f, p, r);
    case _ => SameCounted(l, Moved(l, maxRetries, m), maxRetries, id, e, f, p, r);
  }

  lemma {:induction false} AllCounted(maxRetries: nat, moves: seq<Move>, id: string)
    requires LegalMoves(maxRetries, moves)
    ensures Counted(Replay(maxRetries, moves), maxRetries, id, Entries(moves, id), Failures(moves, id),
                    Picks(moves)[id],
                    Recoveries(maxRetries, moves, id))
    decreases |moves|
  {
    if moves != [] {
      hide Moved, Counted;
      var before := moves[..|moves| - 1];
      AllCounted(maxRetries, before, id);
      MovedCounted(Replay(maxRetries, before), maxRetries, moves[|moves| - 1], id, Entries(before, id),
                   Failures(before, id),
                   Picks(before)[id], Recoveries(maxRetries, before, id));
    }
  }

  // ---- Counting in the coordinator ----

  function FailuresTo(steps: seq<Step>, i: nat, id: string): nat
    requires i <= |steps|
  {
    if i == 0 then 0 else FailuresTo(steps, i - 1, id) + Count(steps[i - 1].Failed? && steps[i - 1].job.id == id)
  }

  function SubmissionsTo(steps: seq<Step>, i: nat, id: string): nat
    requires i <= |steps|
  {
    if i == 0 then 0 else SubmissionsTo(steps, i - 1, id) + Count(steps[i - 1].Submit? && steps[i - 1].job.id == id)
  }

  /** The ids of the jobs the scheduler gave out, as a bag. */
  function AssignmentsTo(cfg: Config, steps: seq<Step>, i: nat): multiset<string>
    requires i <= |steps|
  {
    if i == 0 then multiset{}
    else AssignmentsTo(cfg, steps, i - 1) + GivenOut(StateAt(cfg, steps, i - 1), cfg, steps[i - 1])
  }

  function GivenOut(s: State, cfg: Config, step: Step): multiset<string> {
    if step.Select? then
      match OnSelect(s, cfg, step.clock).hand
      case Some((job, _)) => multiset{job.id}
      case None => multiset{}
    else multiset{}
  }

  predicate PutBack(s: State, step: Step, id: string) {
    step.WorkerFailed? && step.worker != "" && T.AssignedTo(s.table, id, step.worker)
  }

  /** How often `id` was put back because its worker was declared failed. */
  function PutBacksTo(cfg: Config, steps: seq<Step>, i: nat, id: string): nat
    requires i <= |steps|
  {
    if i == 0 then 0
    else PutBacksTo(cfg, steps, i - 1, id) + Count(PutBack(StateAt(cfg, steps, i - 1), steps[i - 1], id))
  }

  lemma {:induction false} SameCounts(s: State, cfg: Config, step: Step, id: string)
    ensures var m := MoveOf(s, cfg, step);
      && Count(m.Break? && m.id == id) == Count(step.Failed? && step.job.id == id)
      && Count(m.Enter? && m.id == id) == Count(step.Submit? && step.job.id == id)
      && PickOf(m) == GivenOut(s, cfg, step)
  {
    hide OnSelect;
  }

  lemma {:induction false} SameRecovery(s: State, cfg: Config, step: Step, id: string)
    ensures Recovers(LedgerOf(s), MoveOf(s, cfg, step), id) == PutBack(s, step, id)
  {
    hide OnSelect, LedgerOf;
    LedgerTable(s);
  }

  lemma {:induction false} LedgerTable(s: State)
    ensures LedgerOf(s).table == s.table
  {
  }

  lemma {:induction false} CountsRefine(cfg: Config, steps: seq<Step>, i: nat, id: string)
    requires i <= |steps|
    ensures var moves := MovesTo(cfg, steps, i);
      && Failures(moves, id) == FailuresTo(steps, i, id) && Entries(moves, id) == SubmissionsTo(steps, i, id)
      && Picks(moves) == AssignmentsTo(cfg, steps, i)
  {
    hide MoveOf, Next, GivenOut, PickOf, PutBack, Recovers, Moved, Count, StateAt;
    if i > 0 {
      CountsRefine(cfg, steps, i - 1, id);
      MovesPrefix(cfg, steps, i - 1, i);
      SameCounts(StateAt(cfg, steps, i - 1), cfg, steps[i - 1], id);
    }
  }

  lemma {:induction false} PutBacksRefine(cfg: Config, steps: seq<Step>, i: nat, id: string)
    requires Legal(cfg, steps) && i <= |steps|
    ensures Recoveries(cfg.maxRetries, MovesTo(cfg, steps, i), id) == PutBacksTo(cfg, steps, i, id)
  {
    hide MoveOf, Next, PutBack, Recovers, Moved, Count, Legal, Enabled, StateAt, LedgerOf;
    if i > 0 {
      PutBacksRefine(cfg, steps, i - 1, id);
      MovesPrefix(cfg, steps, i - 1, i);
      Refines(cfg, steps, i - 1);
      SameRecovery(StateAt(cfg, steps, i - 1), cfg, steps[i - 1], id);
    }
  }

  /**
   The exact account of a job. After f failures the tracker and the table row say f; the job is in
   the dead letter queue max(0, f - maxRetries) times; and what went into the queue, that is what is
   in it and what was assigned from it, is the submission, min(f, maxRetries) retries, and one for
   each time its worker was declared failed while the row said it was assigned there.
   */
  lemma {:induction false} RetryAccounting(cfg: Config, steps: seq<Step>, i: nat, id: string)
    requires Legal(cfg, steps) && i <= |steps|
    ensures var s, f := StateAt(cfg, steps, i), FailuresTo(steps, i, id);
      && TriesOf(s.retries, id) == f && (if id in s.table then s.table[id].retries == f else f == 0)
      && DeadIds(s.dlq)[id] == f - Min(f, cfg.maxRetries)
      && Ids(s.queue.entries)[id] + AssignmentsTo(cfg, steps, i)[id]
         == SubmissionsTo(steps, i, id) + Min(f, cfg.maxRetries) + PutBacksTo(cfg, steps, i, id)
      && SubmissionsTo(steps, i, id) == Count(id in s.table)
  {
    hide StateAt, Legal, MovesTo, Count, Min;
    var moves := MovesTo(cfg, steps, i);
    Refines(cfg, steps, i);
    AllCounted(cfg.maxRetries, moves, id);
    AllKept(cfg.maxRetries, moves);
    assert Kept(LedgerOf(StateAt(cfg, steps, i)), id);
    CountsRefine(cfg, steps, i, id);
    PutBacksRefine(cfg, steps, i, id);
  }

  lemma {:induction false} NoPutBacks(cfg: Config, steps: seq<Step>, i: nat, id: string)
    requires i <= |steps| && forall k :: 0 <= k < i ==> !steps[k].WorkerFailed?
    ensures PutBacksTo(cfg, steps, i, id) == 0
  {
    if i > 0 {
      NoPutBacks(cfg, steps, i - 1, id);
    }
  }

  lemma {:induction false} JobBound(cfg: Config, steps: seq<Step>, i: nat, id: string)
    requires Legal(cfg, steps) && i <= |steps| && forall k :: 0 <= k < i ==> !steps[k].WorkerFailed?
    ensures AssignmentsTo(cfg, steps, i)[id] <= cfg.maxRetries + 1
    ensures id in AssignmentsTo(cfg, steps, i) ==> id in StateAt(cfg, steps, i).table
  {
    hide StateAt, Legal, AssignmentsTo, Ids, DeadIds;
    RetryAccounting(cfg, steps, i, id);
    NoPutBacks(cfg, steps, i, id);
  }

  /** A bag of at most `n` of each of the elements of `s` has at most n * |s| elements. */
  lemma {:induction false} BagBound(bag: multiset<string>, s: set<string>, n: nat)
    requires forall x :: bag[x] <= n && (x in bag ==> x in s)
    ensures |bag| <= n * |s|
    decreases |s|
  {
    if s == {} {
      assert bag == multiset{};
    } else {
      var x :| x in s;
      BagBound(bag[x := 0], s - {x}, n);
      assert bag == bag[x := 0][x := bag[x]];
      assert n * |s| == n * (|s| - 1) + n;
    }
  }

  /** The number of submissions. */
  function Submissions(steps: seq<Step>, i: nat): nat
    requires i <= |steps|
  {
    if i == 0 then 0 else Submissions(steps, i - 1) + Count(steps[i - 1].Submit?)
  }

  function KeysAfter(keys: set<string>, m: Move): set<string> { if m.Enter? then keys + {m.id} else keys }

  lemma {:induction false} MovedKeys(l: Ledger, maxRetries: nat, m: Move)
    ensures Moved(l, maxRetries, m).table.Keys == KeysAfter(l.table.Keys, m)
  {
    hide AddCopy, DropCopy, FailedRow;
    if m.Break? {
      FailedRowAt(l.table, m.id, T.Retrying);
      FailedRowAt(l.table, m.id, T.Dead);
    }
  }

  /** Each submission makes one row, and nothing else does. */
  lemma {:induction false} OneRowEach(cfg: Config, steps: seq<Step>, i: nat)
    requires Legal(cfg, steps) && i <= |steps|
    ensures |LedgerAt(cfg, steps, i).table.Keys| == Submissions(steps, i)
  {
    hide Moved, Legal, LedgerAt;
    if i == 0 {
      LedgerStarts(cfg, steps);
    } else {
      OneRowEach(cfg, steps, i - 1);
      LedgerStep(cfg, steps, i - 1);
      MovedKeys(LedgerAt(cfg, steps, i - 1), cfg.maxRetries, MoveAt(cfg, steps, i - 1));
      EntersAsSubmitted(cfg, steps, i - 1);
    }
  }

  lemma {:induction false} EntersAsSubmitted(cfg: Config, steps: seq<Step>, i: nat)
    requires i < |steps|
    ensures MoveAt(cfg, steps, i).Enter? <==> steps[i].Submit?
  {
  }

  /**
   As long as no worker is declared failed, each job is assigned at most maxRetries + 1 times, so n
   submitted jobs cause at most (maxRetries + 1) * n assignments.
   */
  lemma {:induction false} AssignmentBound(cfg: Config, steps: seq<Step>, i: nat)
    requires Legal(cfg, steps) && i <= |steps| && forall k :: 0 <= k < i ==> !steps[k].WorkerFailed?
    ensures forall id :: AssignmentsTo(cfg, steps, i)[id] <= cfg.maxRetries + 1
    ensures |AssignmentsTo(cfg, steps, i)| <= (cfg.maxRetries + 1) * Submissions(steps, i)
  {
    hide StateAt, Legal, AssignmentsTo;
    OneRowEach(cfg, steps, i);
    LedgerTable(StateAt(cfg, steps, i));
    var s, bag := StateAt(cfg, steps, i), AssignmentsTo(cfg, steps, i);
    forall id ensures bag[id] <= cfg.maxRetries + 1 && (id in bag ==> id in s.table.Keys) {
      JobBound(cfg, steps, i, id);
    }
    BagBound(bag, s.table.Keys, cfg.maxRetries + 1);
  }
}
