/**
 Where the jobs are: the coordinator with its queue order, registry and breakers forgotten. What
 is left is which ids wait, which are assigned to whom, and what their rows say.
 */
module Ledger {
  import opened Wrappers
  import opened Coordinator
  import opened RetryQueue
  import T = TaskRepository

  datatype Ledger = Ledger(
    queued: multiset<string>,
    hand: Option<(string, string)>,
    table: T.Table,
    retries: map<string, nat>,
    dead: multiset<string>,
    out: Copies,
    running: Copies,
    done: set<string>)

  const EMPTY_LEDGER := Ledger(multiset{}, None, map[], map[], multiset{}, map[], map[], {})

  datatype Move =
    | Enter(id: string, row: T.Row)
    | Pick(id: string, w: string)
    | Assign
    | Finish(w: string, id: string)
    | Break(w: string, id: string)
    | Purge(w: string)
    | Drop(w: string)
    | Skip

  ghost predicate CanMove(l: Ledger, m: Move) {
    match m
    case Enter(id, row) => id !in l.table && row.status == T.Pending && row.retries == 0 && row.worker == None
    case Pick(id, w) => l.hand == None && id in l.queued && w != ""
    case Assign => l.hand.Some?
    case Finish(w, id) => id in At(l.running, w)
    case Break(w, id) => id in At(l.running, w)
    case _ => true
  }

  function AssignedIds(t: T.Table, w: string): set<string> { set id | id in t && T.AssignedTo(t, id, w) }

  function Unassigned(t: T.Table, w: string): T.Table {
    map id | id in t :: if T.AssignedTo(t, id, w) then T.Updated(t[id], T.Pending, None) else t[id]
  }

  function Entered(l: Ledger, id: string, row: T.Row): Ledger {
    l.(queued := l.queued + multiset{id}, table := l.table[id := row])
  }

  function Picked(l: Ledger, id: string, w: string): Ledger {
    l.(queued := l.queued - multiset{id}, hand := Some((id, w)))
  }

  function Handed(l: Ledger, id: string, w: string): Ledger {
    l.(hand := None, table := T.UpdateRow(l.table, id, T.Assigned, Some(w)),
       out := AddCopy(l.out, w, id), running := AddCopy(l.running, w, id))
  }

  function Finished(l: Ledger, w: string, id: string): Ledger {
    l.(table := T.UpdateRow(l.table, id, T.Completed, None), done := l.done + {id},
       out := DropCopy(l.out, w, id), running := DropCopy(l.running, w, id))
  }

  /** The row after one more failure. */
  function FailedRow(t: T.Table, id: string, status: T.Status): T.Table {
    T.UpdateRow(T.RetryRow(t, id), id, status, None)
  }

  function Reported(l: Ledger, w: string, id: string, status: T.Status): Ledger {
    l.(retries := l.retries[id := TriesOf(l.retries, id) + 1], table := FailedRow(l.table, id, status),
       out := DropCopy(l.out, w, id), running := DropCopy(l.running, w, id))
  }

  function Retried(l: Ledger, w: string, id: string): Ledger {
    Reported(l, w, id, T.Retrying).(queued := l.queued + multiset{id})
  }

  function Buried(l: Ledger, w: string, id: string): Ledger {
    Reported(l, w, id, T.Dead).(dead := l.dead + multiset{id})
  }

  function Broken(l: Ledger, maxRetries: nat, w: string, id: string): Ledger {
    if TriesOf(l.retries, id) + 1 <= maxRetries then Retried(l, w, id) else Buried(l, w, id)
  }

  function Purged(l: Ledger, w: string): Ledger {
    l.(table := Unassigned(l.table, w), queued := l.queued + multiset(AssignedIds(l.table, w)))
  }

  function Dropped(l: Ledger, w: string): Ledger { l.(running := l.running[w := multiset{}]) }

  function Moved(l: Ledger, maxRetries: nat, m: Move): Ledger {
    match m
    case Enter(id, row) => Entered(l, id, row)
    case Pick(id, w) => Picked(l, id, w)
    case Assign => (match l.hand case None => l case Some((id, w)) => Handed(l, id, w))
    case Finish(w, id) => Finished(l, w, id)
    case Break(w, id) => Broken(l, maxRetries, w, id)
    case Purge(w) => Purged(l, w)
    case Drop(w) => Dropped(l, w)
    case Skip => l
  }

  /** Ids waiting to be assigned: in the queue, or already in the assigner's hand. */
  function Waiting(l: Ledger): multiset<string> {
    match l.hand
    case Some((id, _)) => l.queued + multiset{id}
    case None => l.queued
  }

  // ---- What every move keeps, for each id ----

  /** `id` waits, was completed, is in the dead letter queue, or is assigned to a worker that has not reported it. */
  ghost predicate Somewhere(l: Ledger, id: string) {
    || id in Waiting(l) || id in l.done || id in l.dead
    || (exists w :: T.AssignedTo(l.table, id, w) && id in At(l.out, w))
  }

  /**
   Whatever is known of `id` anywhere, it has a row; copies held are copies unreported; its row
   counts the retries the tracker counts; and once it has a row it stays somewhere.
   */
  ghost predicate Kept(l: Ledger, id: string) {
    && (id in Waiting(l) || id in l.dead || id in l.retries ==> id in l.table)
    && (forall w :: At(l.running, w)[id] <= At(l.out, w)[id])
    && (forall w :: id in At(l.out, w) ==> id in l.table)
    && (id in l.table ==> l.table[id].retries == TriesOf(l.retries, id) && Somewhere(l, id))
  }

  /** A failure, once the copy is no longer held. */
  function Tried(l: Ledger, maxRetries: nat, id: string): Ledger {
    var tries := TriesOf(l.retries, id) + 1;
    if tries <= maxRetries then
      l.(retries := l.retries[id := tries], table := FailedRow(l.table, id, T.Retrying),
         queued := l.queued + multiset{id})
    else
      l.(retries := l.retries[id := tries], table := FailedRow(l.table, id, T.Dead), dead := l.dead + multiset{id})
  }

  lemma {:induction false} BrokenIsTried(l: Ledger, maxRetries: nat, w: string, id: string)
    ensures Broken(l, maxRetries, w, id)
         == Tried(l.(out := DropCopy(l.out, w, id), running := DropCopy(l.running, w, id)), maxRetries, id)
  {
    hide DropCopy, FailedRow;
  }

  lemma {:induction false} AddCopyAt(c: Copies, w: string, x: string)
    ensures forall v, id :: At(AddCopy(c, w, x), v)[id] == At(c, v)[id] + if v == w && id == x then 1 else 0
  {
  }

  lemma {:induction false} DropCopyAt(c: Copies, w: string, x: string)
    requires x in At(c, w)
    ensures forall v, id :: At(DropCopy(c, w, x), v)[id] == At(c, v)[id] - if v == w && id == x then 1 else 0
  {
  }

  lemma {:induction false} HandedKept(l: Ledger, x: string, w: string, id: string)
    requires Kept(l, id) && l.hand == Some((x, w)) && w != ""
    ensures Kept(Handed(l, x, w), id)
  {
    AddCopyAt(l.out, w, x);
    AddCopyAt(l.running, w, x);
    var l' := Handed(l, x, w);
    if id in l.table {
      if id == x {
        assert T.AssignedTo(l'.table, id, w) && id in At(l'.out, w);
      } else if id !in Waiting(l) && id !in l.done && id !in l.dead {
        var v :| T.AssignedTo(l.table, id, v) && id in At(l.out, v);
        assert T.AssignedTo(l'.table, id, v) && id in At(l'.out, v);
      }
    }
  }

  lemma {:induction false} CopiesDropped(l: Ledger, w: string, x: string, id: string)
    requires Kept(l, id) && Kept(l, x) && x in At(l.running, w)
    ensures forall v :: At(DropCopy(l.running, w, x), v)[id] <= At(DropCopy(l.out, w, x), v)[id]
    ensures forall v :: id in At(DropCopy(l.out, w, x), v) ==> id in l.table
    ensures x in At(l.out, w) && x in l.table
  {
    DropCopyAt(l.out, w, x);
    DropCopyAt(l.running, w, x);
  }

  lemma {:induction false} ReportedElsewhere(l: Ledger, l': Ledger, w: string, x: string, id: string)
    requires id != x && x in At(l.out, w) && l'.out == DropCopy(l.out, w, x)
    requires id in l.table && id in l'.table && l'.table[id] == l.table[id]
    ensures forall v :: T.AssignedTo(l.table, id, v) && id in At(l.out, v) ==>
            T.AssignedTo(l'.table, id, v) && id in At(l'.out, v)
  {
    DropCopyAt(l.out, w, x);
  }

  lemma {:induction false} FinishedKept(l: Ledger, w: string, x: string, id: string)
    requires Kept(l, id) && Kept(l, x) && x in At(l.running, w)
    ensures Kept(Finished(l, w, x), id)
  {
    DropCopyAt(l.out, w, x);
    DropCopyAt(l.running, w, x);
    if id in l.table && id != x {
      ReportedElsewhere(l, Finished(l, w, x), w, x, id);
    }
  }

  lemma {:induction false} FailedRowAt(t: T.Table, x: string, status: T.Status)
    ensures FailedRow(t, x, status).Keys == t.Keys
    ensures forall id :: id in t && id != x ==> FailedRow(t, x, status)[id] == t[id]
    ensures x in t ==> FailedRow(t, x, status)[x] == t[x].(status := status, retries := t[x].retries + 1)
  {
  }

  lemma {:induction false} RetriedKept(l: Ledger, w: string, x: string, id: string)
    requires Kept(l, id) && Kept(l, x) && x in At(l.running, w)
    ensures Kept(Retried(l, w, x), id)
  {
    CopiesDropped(l, w, x, id);
    FailedRowAt(l.table, x, T.Retrying);
    var l' := Retried(l, w, x);
    assert Waiting(l') == Waiting(l) + multiset{x};
    if id in l.table && id != x {
      ReportedElsewhere(l, l', w, x, id);
      assert Somewhere(l', id);
    }
  }

  lemma {:induction false} BuriedKept(l: Ledger, w: string, x: string, id: string)
    requires Kept(l, id) && Kept(l, x) && x in At(l.running, w)
    ensures Kept(Buried(l, w, x), id)
  {
    CopiesDropped(l, w, x, id);
    FailedRowAt(l.table, x, T.Dead);
    var l' := Buried(l, w, x);
    assert Waiting(l') == Waiting(l);
    if id in l.table && id != x {
      ReportedElsewhere(l, l', w, x, id);
      assert Somewhere(l', id);
    }
  }

  lemma {:induction false} PurgedKept(l: Ledger, w: string, id: string)
    requires Kept(l, id)
    ensures Kept(Purged(l, w), id)
  {
    var l' := Purged(l, w);
    if id in l.table && id !in Waiting(l) && id !in l.done && id !in l.dead {
      var v :| T.AssignedTo(l.table, id, v) && id in At(l.out, v);
      if v == w {
        assert id in AssignedIds(l.table, w);
      } else {
        assert T.AssignedTo(l'.table, id, v) && id in At(l'.out, v);
      }
    }
  }

  lemma {:induction false} EnteredKept(l: Ledger, x: string, row: T.Row, id: string)
    requires Kept(l, id) && x !in l.table && row.retries == 0
    ensures Kept(Entered(l, x, row), id)
  {
    var l' := Entered(l, x, row);
    if id in l.table && id !in Waiting(l) && id !in l.done && id !in l.dead {
      var v :| T.AssignedTo(l.table, id, v) && id in At(l.out, v);
      assert T.AssignedTo(l'.table, id, v) && id in At(l'.out, v);
    }
  }

  lemma {:induction false} PickedKept(l: Ledger, x: string, w: string, id: string)
    requires Kept(l, id) && l.hand == None && x in l.queued
    ensures Kept(Picked(l, x, w), id)
  {
    var l' := Picked(l, x, w);
    assert Waiting(l') == Waiting(l);
    if id in l.table && id !in Waiting(l) && id !in l.done && id !in l.dead {
      var v :| T.AssignedTo(l.table, id, v) && id in At(l.out, v);
      assert T.AssignedTo(l'.table, id, v) && id in At(l'.out, v);
    }
  }

  lemma {:induction false} DroppedKept(l: Ledger, w: string, id: string)
    requires Kept(l, id)
    ensures Kept(Dropped(l, w), id)
  {
    var l' := Dropped(l, w);
    if id in l.table && id !in Waiting(l) && id !in l.done && id !in l.dead {
      var v :| T.AssignedTo(l.table, id, v) && id in At(l.out, v);
      assert T.AssignedTo(l'.table, id, v) && id in At(l'.out, v);
    }
  }

  lemma {:induction false} MovedKept(l: Ledger, maxRetries: nat, m: Move, id: string)
    requires (forall x :: Kept(l, x)) && CanMove(l, m)
    requires l.hand.Some? ==> l.hand.value.1 != ""
    ensures Kept(Moved(l, maxRetries, m), id)
  {
    match m
    case Enter(x, row) => EnteredKept(l, x, row, id);
    case Pick(x, w) => PickedKept(l, x, w, id);
    case Assign => HandedKept(l, l.hand.value.0, l.hand.value.1, id);
    case Finish(w, x) => FinishedKept(l, w, x, id);
    case Break(w, x) =>
      RetriedKept(l, w, x, id);
      BuriedKept(l, w, x, id);
    case Purge(w) => PurgedKept(l, w, id);
    case Drop(w) => DroppedKept(l, w, id);
    case Skip =>
  }

  // ---- Fail-stop workers: exactly one place ----

  /** The row says where the job is, and it is there exactly once. */
  predicate Placed(status: T.Status, waiting: nat, dead: nat) {
    match status
    case Pending => waiting == 1 && dead == 0
    case Retrying => waiting == 1 && dead == 0
    case Assigned => waiting == 0 && dead == 0
    case Completed => waiting == 0 && dead == 0
    case Dead => waiting == 0 && dead == 1
  }

  /**
   A job is where its row says, once; a row says completed iff the job was reported completed; and
   a copy held is the only one, held by the worker the row names.
   */
  ghost predicate Exact(l: Ledger, id: string) {
    && (id in l.table ==> Placed(l.table[id].status, Waiting(l)[id], l.dead[id]))
    && (id in l.table && l.table[id].status == T.Assigned ==> l.table[id].worker.Some?)
    && (id in l.done <==> id in l.table && l.table[id].status == T.Completed)
    && (forall w :: id in At(l.running, w) ==> At(l.running, w)[id] == 1 && T.AssignedTo(l.table, id, w))
  }

  /** A worker is purged only when it no longer works on anything. */
  predicate FailStop(l: Ledger, m: Move) { m.Purge? ==> At(l.running, m.w) == multiset{} }

  lemma {:induction false} EnteredExact(l: Ledger, x: string, row: T.Row, id: string)
    requires Kept(l, id) && Exact(l, id) && CanMove(l, Enter(x, row))
    ensures Exact(Entered(l, x, row), id)
  {
  }

  lemma {:induction false} HandedOnce(l: Ledger, x: string, w: string)
    requires Kept(l, x) && Exact(l, x) && l.hand == Some((x, w))
    ensures x in l.table && l.table[x].status in {T.Pending, T.Retrying}
    ensures forall v :: At(l.running, v)[x] == 0
  {
    assert x in Waiting(l);
    forall v ensures At(l.running, v)[x] == 0 {
      assert x in At(l.running, v) ==> T.AssignedTo(l.table, x, v);
    }
  }

  lemma {:induction false} HandedExact(l: Ledger, x: string, w: string, id: string)
    requires Kept(l, id) && Exact(l, id) && l.hand == Some((x, w)) && w != ""
    ensures Exact(Handed(l, x, w), id)
  {
    AddCopyAt(l.running, w, x);
    if x == id {
      HandedOnce(l, x, w);
    }
  }

  lemma {:induction false} FinishedExact(l: Ledger, w: string, x: string, id: string)
    requires Kept(l, id) && Exact(l, id) && x in At(l.running, w)
    ensures Exact(Finished(l, w, x), id)
  {
    DropCopyAt(l.running, w, x);
  }

  lemma {:induction false} RetriedExact(l: Ledger, w: string, x: string, id: string)
    requires Kept(l, id) && Exact(l, id) && x in At(l.running, w)
    ensures Exact(Retried(l, w, x), id)
  {
    DropCopyAt(l.running, w, x);
    FailedRowAt(l.table, x, T.Retrying);
  }

  lemma {:induction false} BuriedExact(l: Ledger, w: string, x: string, id: string)
    requires Kept(l, id) && Exact(l, id) && x in At(l.running, w)
    ensures Exact(Buried(l, w, x), id)
  {
    DropCopyAt(l.running, w, x);
    FailedRowAt(l.table, x, T.Dead);
  }

  lemma {:induction false} PickedExact(l: Ledger, x: string, w: string, id: string)
    requires Exact(l, id) && l.hand == None && x in l.queued
    ensures Exact(Picked(l, x, w), id)
  {
    assert Waiting(Picked(l, x, w)) == Waiting(l);
  }

  lemma {:induction false} DroppedExact(l: Ledger, w: string, id: string)
    requires Exact(l, id)
    ensures Exact(Dropped(l, w), id)
  {
    assert forall v :: At(Dropped(l, w).running, v) <= At(l.running, v);
  }

  lemma {:induction false} PurgedExact(l: Ledger, w: string, id: string)
    requires Kept(l, id) && Exact(l, id) && At(l.running, w) == multiset{}
    ensures Exact(Purged(l, w), id)
  {
    assert id in AssignedIds(l.table, w) <==> T.AssignedTo(l.table, id, w);
  }

  lemma {:induction false} MovedExact(l: Ledger, maxRetries: nat, m: Move, id: string)
    requires Kept(l, id) && Exact(l, id) && CanMove(l, m) && FailStop(l, m)
    requires l.hand.Some? ==> l.hand.value.1 != ""
    ensures Exact(Moved(l, maxRetries, m), id)
  {
    match m
    case Enter(x, row) => EnteredExact(l, x, row, id);
    case Pick(x, w) => PickedExact(l, x, w, id);
    case Assign => HandedExact(l, l.hand.value.0, l.hand.value.1, id);
    case Finish(w, x) => FinishedExact(l, w, x, id);
    case Break(w, x) =>
      RetriedExact(l, w, x, id);
      BuriedExact(l, w, x, id);
    case Purge(w) => PurgedExact(l, w, id);
    case Drop(w) => DroppedExact(l, w, id);
    case Skip =>
  }

  // ---- Runs of the ledger ----

  function Replay(maxRetries: nat, moves: seq<Move>): Ledger {
    if moves == [] then EMPTY_LEDGER
    else Moved(Replay(maxRetries, moves[..|moves| - 1]), maxRetries, moves[|moves| - 1])
  }

  ghost predicate LegalMoves(maxRetries: nat, moves: seq<Move>) {
    moves == [] ||
    (var before := moves[..|moves| - 1];
     LegalMoves(maxRetries, before) && CanMove(Replay(maxRetries, before), moves[|moves| - 1]))
  }

  lemma {:induction false} OneMore(maxRetries: nat, moves: seq<Move>, m: Move)
    requires LegalMoves(maxRetries, moves) && CanMove(Replay(maxRetries, moves), m)
    ensures LegalMoves(maxRetries, moves + [m])
    ensures Replay(maxRetries, moves + [m]) == Moved(Replay(maxRetries, moves), maxRetries, m)
  {
    hide Moved, CanMove;
    assert (moves + [m])[..|moves|] == moves;
  }

  lemma {:induction false} AllKept(maxRetries: nat, moves: seq<Move>)
    requires LegalMoves(maxRetries, moves)
    ensures var l := Replay(maxRetries, moves); (forall id :: Kept(l, id)) && (l.hand.Some? ==> l.hand.value.1 != "")
    decreases |moves|
  {
    if moves != [] {
      var before := moves[..|moves| - 1];
      AllKept(maxRetries, before);
      forall id ensures Kept(Replay(maxRetries, moves), id) {
        MovedKept(Replay(maxRetries, before), maxRetries, moves[|moves| - 1], id);
      }
    }
  }

  lemma {:induction false} RowsMoved(l: Ledger, maxRetries: nat, m: Move)
    ensures l.table.Keys <= Moved(l, maxRetries, m).table.Keys
  {
    hide AddCopy, DropCopy;
  }

  /** A row, once there, stays. */
  lemma {:induction false} RowsStay(maxRetries: nat, moves: seq<Move>, k: nat, id: string)
    requires k <= |moves| && id in Replay(maxRetries, moves[..k]).table
    ensures id in Replay(maxRetries, moves).table
    decreases |moves|
  {
    hide Moved;
    if k < |moves| {
      var before := moves[..|moves| - 1];
      assert before[..k] == moves[..k];
      RowsStay(maxRetries, before, k, id);
      RowsMoved(Replay(maxRetries, before), maxRetries, moves[|moves| - 1]);
    } else {
      assert moves[..k] == moves;
    }
  }

  lemma {:induction false} EnteredStays(maxRetries: nat, moves: seq<Move>, k: nat)
    requires k < |moves| && moves[k].Enter?
    ensures moves[k].id in Replay(maxRetries, moves).table
  {
    assert moves[..k + 1][..k] == moves[..k];
    RowsStay(maxRetries, moves, k + 1, moves[k].id);
  }

  lemma {:induction false} SameCopies(a: Copies, b: Copies, v: string, id: string, w: string)
    requires At(a, w) == At(b, w)
    ensures At(AddCopy(a, v, id), w) == At(AddCopy(b, v, id), w)
    ensures At(DropCopy(a, v, id), w) == At(DropCopy(b, v, id), w)
  {
  }

  lemma {:induction false} MovedHeld(l: Ledger, maxRetries: nat, m: Move, w: string)
    requires At(l.running, w) == At(l.out, w) && m != Drop(w)
    ensures At(Moved(l, maxRetries, m).running, w) == At(Moved(l, maxRetries, m).out, w)
  {
    hide T.UpdateRow, FailedRow, Unassigned, AssignedIds, AddCopy, DropCopy;
    match m
    case Assign =>
      if l.hand.Some? {
        SameCopies(l.running, l.out, l.hand.value.1, l.hand.value.0, w);
      }
    case Finish(v, id) => SameCopies(l.running, l.out, v, id, w);
    case Break(v, id) => SameCopies(l.running, l.out, v, id, w);
    case _ =>
  }

  /** Only a drop makes a worker hold less than it has not reported. */
  lemma {:induction false} HeldUnlessDropped(maxRetries: nat, moves: seq<Move>, w: string)
    requires LegalMoves(maxRetries, moves) && Drop(w) !in moves
    ensures At(Replay(maxRetries, moves).running, w) == At(Replay(maxRetries, moves).out, w)
    decreases |moves|
  {
    hide Moved, CanMove;
    if moves != [] {
      var before := moves[..|moves| - 1];
      HeldUnlessDropped(maxRetries, before, w);
      MovedHeld(Replay(maxRetries, before), maxRetries, moves[|moves| - 1], w);
    }
  }

  /** Workers are purged only when they work on nothing any more. */
  ghost predicate FailStopMoves(maxRetries: nat, moves: seq<Move>) {
    moves == [] ||
    (var before := moves[..|moves| - 1];
     FailStopMoves(maxRetries, before) && FailStop(Replay(maxRetries, before), moves[|moves| - 1]))
  }

  lemma {:induction false} OneMoreFailStop(maxRetries: nat, moves: seq<Move>, m: Move)
    requires FailStopMoves(maxRetries, moves) && FailStop(Replay(maxRetries, moves), m)
    ensures FailStopMoves(maxRetries, moves + [m])
  {
    assert (moves + [m])[..|moves|] == moves;
  }

  lemma {:induction false} AllExact(maxRetries: nat, moves: seq<Move>, id: string)
    requires LegalMoves(maxRetries, moves) && FailStopMoves(maxRetries, moves)
    ensures Exact(Replay(maxRetries, moves), id)
    decreases |moves|
  {
    if moves != [] {
      var before := moves[..|moves| - 1];
      AllExact(maxRetries, before, id);
      AllKept(maxRetries, before);
      MovedExact(Replay(maxRetries, before), maxRetries, moves[|moves| - 1], id);
    }
  }
}
