/**
 The job priority queue of queue_engine/priority_queue.py: the smallest (priority, arrival) leaves
 first, whatever the order in which jobs come and go.
 */
module JobQueue {
  import opened Wrappers
  import Text

  /** The "priority" field of a job event: absent, a string, an int, or anything else with its `str()`. */
  datatype Priority = Absent | Named(name: string) | Number(n: int) | Other(shown: string)

  datatype Job = Job(id: string, jobType: string, priority: Priority, payload: Option<string>)

  datatype Entry = Entry(priority: int, arrival: nat, job: Job)

  /** The entries in the order they will leave, and the arrival counter. */
  datatype Queue = Queue(entries: seq<Entry>, counter: nat)

  const EMPTY := Queue([], 0)

  function NameRank(name: string): int {
    var upper := Text.Upper(name);
    if upper == "HIGH" then 1 else if upper == "LOW" then 10 else 5
  }

  function Rank(p: Priority): int {
    match p
    case Absent => 5
    case Named(name) => NameRank(name)
    case Number(n) => 11 - n
    case Other(_) => 5
  }

  predicate Before(a: Entry, b: Entry) {
    a.priority < b.priority || (a.priority == b.priority && a.arrival < b.arrival)
  }

  function Insert(entries: seq<Entry>, e: Entry): seq<Entry> {
    if entries == [] || Before(e, entries[0]) then [e] + entries else [entries[0]] + Insert(entries[1..], e)
  }

  function Add(q: Queue, job: Job): Queue {
    Queue(Insert(q.entries, Entry(Rank(job.priority), q.counter + 1, job)), q.counter + 1)
  }

  function Ids(entries: seq<Entry>): multiset<string> {
    if entries == [] then multiset{} else multiset{entries[0].job.id} + Ids(entries[1..])
  }

  /** The entries as a bag. */
  function Bag(entries: seq<Entry>): multiset<Entry> {
    if entries == [] then multiset{} else multiset{entries[0]} + Bag(entries[1..])
  }

  ghost predicate Ordered(entries: seq<Entry>) {
    forall i, j :: 0 <= i < j < |entries| ==> Before(entries[i], entries[j])
  }

  /** In leaving order, with every arrival number already handed out. */
  ghost predicate Valid(q: Queue) {
    Ordered(q.entries) && forall e :: e in q.entries ==> e.arrival <= q.counter
  }

  class JobPriorityQueue {
    var pq: seq<Entry>
    var counter: nat

    ghost function View(): Queue
      reads this
    {
      Queue(pq, counter)
    }

    constructor ()
      ensures View() == EMPTY
    {
      pq, counter := [], 0;
    }

    method AddJob(job: Job)
      modifies this
      ensures View() == Add(old(View()), job)
    {
      var rank := Rank(job.priority);
      counter := counter + 1;
      pq := Insert(pq, Entry(rank, counter, job));
    }

    method GetNextJob() returns (job: Option<Job>)
      modifies this
      ensures old(pq) == [] ==> job == None && View() == old(View())
      ensures old(pq) != [] ==> job == Some(old(pq)[0].job) && View() == Queue(old(pq)[1..], old(counter))
    {
      if pq == [] {
        return None;
      }
      job := Some(pq[0].job);
      pq := pq[1..];
    }
  }

  // ---- Insertion ----

  lemma {:induction false} InsertSpec(entries: seq<Entry>, e: Entry)
    ensures Bag(Insert(entries, e)) == Bag(entries) + multiset{e}
    ensures forall f :: f in Insert(entries, e) <==> f == e || f in entries
  {
    if entries == [] || Before(e, entries[0]) {
      assert ([e] + entries)[1..] == entries;
    } else {
      var head, t := entries[0], entries[1..];
      InsertSpec(t, e);
      assert entries == [head] + t;
      assert ([head] + Insert(t, e))[1..] == Insert(t, e);
    }
  }

  lemma {:induction false} InsertIds(entries: seq<Entry>, e: Entry)
    ensures Ids(Insert(entries, e)) == Ids(entries) + multiset{e.job.id}
  {
    if entries == [] || Before(e, entries[0]) {
      assert ([e] + entries)[1..] == entries;
    } else {
      InsertIds(entries[1..], e);
      assert ([entries[0]] + Insert(entries[1..], e))[1..] == Insert(entries[1..], e);
    }
  }

  lemma {:induction false} BagMembers(entries: seq<Entry>)
    ensures forall e :: e in Bag(entries) <==> e in entries
    ensures entries == [] <==> Bag(entries) == multiset{}
  {
    if entries != [] {
      BagMembers(entries[1..]);
      assert entries == [entries[0]] + entries[1..];
      assert entries[0] in Bag(entries);
    }
  }

  lemma {:induction false} InsertOrdered(entries: seq<Entry>, e: Entry)
    requires Ordered(entries)
    requires forall f :: f in entries ==> f.arrival < e.arrival
    ensures Ordered(Insert(entries, e))
  {
    if entries != [] {
      var head, t := entries[0], entries[1..];
      if Before(e, head) {
        assert forall i :: 0 < i < |entries| ==> Before(head, entries[i]);
      } else {
        assert forall i :: 0 <= i < |t| ==> t[i] == entries[i + 1];
        InsertOrdered(t, e);
        InsertSpec(t, e);
        assert forall f :: f in Insert(t, e) ==> Before(head, f);
      }
    }
  }

  lemma {:induction false} InsertValid(entries: seq<Entry>, e: Entry)
    requires Ordered(entries) && forall f :: f in entries ==> f.arrival < e.arrival
    ensures Ordered(Insert(entries, e)) && forall f :: f in Insert(entries, e) ==> f.arrival <= e.arrival
  {
    InsertSpec(entries, e);
    InsertOrdered(entries, e);
  }

  lemma {:induction false} AddValid(q: Queue, job: Job)
    requires Valid(q)
    ensures Valid(Add(q, job))
  {
    InsertValid(q.entries, Entry(Rank(job.priority), q.counter + 1, job));
  }

  lemma {:induction false} AddIds(q: Queue, job: Job)
    ensures Ids(Add(q, job).entries) == Ids(q.entries) + multiset{job.id}
  {
    hide Ids, Insert;
    InsertIds(q.entries, Entry(Rank(job.priority), q.counter + 1, job));
  }

  // ---- Any interleaving of adds and gets ----

  datatype Op = Put(job: Job) | Take

  function RunTo(ops: seq<Op>, i: nat): Queue
    requires i <= |ops|
  {
    if i == 0 then EMPTY
    else
      var q := RunTo(ops, i - 1);
      match ops[i - 1]
      case Put(job) => Add(q, job)
      case Take => if q.entries == [] then q else q.(entries := q.entries[1..])
  }

  /** Everything put so far, each numbered by its arrival. */
  function PutSoFar(ops: seq<Op>, i: nat): (multiset<Entry>, nat)
    requires i <= |ops|
  {
    if i == 0 then (multiset{}, 0)
    else
      var (all, n) := PutSoFar(ops, i - 1);
      match ops[i - 1]
      case Put(job) => (all + multiset{Entry(Rank(job.priority), n + 1, job)}, n + 1)
      case Take => (all, n)
  }

  /** What the takes returned so far. */
  function TakenSoFar(ops: seq<Op>, i: nat): multiset<Entry>
    requires i <= |ops|
  {
    if i == 0 then multiset{}
    else
      var taken, q := TakenSoFar(ops, i - 1), RunTo(ops, i - 1);
      if ops[i - 1].Take? && q.entries != [] then taken + multiset{q.entries[0]} else taken
  }

  lemma {:induction false} AddContents(q: Queue, job: Job)
    ensures Bag(Add(q, job).entries) == Bag(q.entries) + multiset{Entry(Rank(job.priority), q.counter + 1, job)}
  {
    InsertSpec(q.entries, Entry(Rank(job.priority), q.counter + 1, job));
  }

  lemma {:induction false} RunValid(ops: seq<Op>, i: nat)
    requires i <= |ops|
    ensures Valid(RunTo(ops, i)) && RunTo(ops, i).counter == PutSoFar(ops, i).1
  {
    if i > 0 {
      RunValid(ops, i - 1);
      var q := RunTo(ops, i - 1);
      match ops[i - 1]
      case Put(job) => AddValid(q, job);
      case Take => assert forall k :: 0 < k < |q.entries| ==> q.entries[1..][k - 1] == q.entries[k];
    }
  }

  /** Queue contents and what was taken make up what was put. */
  ghost predicate Conserved(ops: seq<Op>, i: nat)
    requires i <= |ops|
  {
    Bag(RunTo(ops, i).entries) + TakenSoFar(ops, i) == PutSoFar(ops, i).0
  }

  lemma {:induction false} PutConserves(ops: seq<Op>, i: nat, job: Job)
    requires i < |ops| && ops[i] == Put(job) && Conserved(ops, i)
    ensures Conserved(ops, i + 1)
  {
    hide Rank, Add, Bag;
    RunValid(ops, i);
    AddContents(RunTo(ops, i), job);
    assert RunTo(ops, i + 1) == Add(RunTo(ops, i), job);
  }

  lemma {:induction false} TakeConserves(ops: seq<Op>, i: nat)
    requires i < |ops| && ops[i] == Take && Conserved(ops, i)
    ensures Conserved(ops, i + 1)
  {
  }

  lemma {:induction false} NothingYet(ops: seq<Op>)
    ensures Conserved(ops, 0)
  {
  }

  /** The queue holds exactly what was put and not yet taken, each entry once. */
  lemma {:induction false} QueueConserves(ops: seq<Op>, i: nat)
    requires i <= |ops|
    ensures Conserved(ops, i)
  {
    hide Conserved;
    if i == 0 {
      NothingYet(ops);
    } else {
      QueueConserves(ops, i - 1);
      match ops[i - 1]
      case Put(job) => PutConserves(ops, i - 1, job);
      case Take => TakeConserves(ops, i - 1);
    }
  }

  /**
   Over any interleaving of puts and takes, a take finds nothing iff everything put was taken;
   otherwise what it returns is the least, by (priority, arrival), of what is outstanding.
   */
  lemma {:induction false} LeastLeavesFirst(ops: seq<Op>, i: nat)
    requires i < |ops| && ops[i] == Take
    ensures var q, outstanding := RunTo(ops, i), PutSoFar(ops, i).0 - TakenSoFar(ops, i);
      && (q.entries == [] <==> outstanding == multiset{})
      && (q.entries != [] ==>
          && q.entries[0] in outstanding
          && (forall e :: e in outstanding && e != q.entries[0] ==> Before(q.entries[0], e))
          && TakenSoFar(ops, i + 1) == TakenSoFar(ops, i) + multiset{q.entries[0]})
  {
    QueueConserves(ops, i);
    RunValid(ops, i);
    var q, outstanding := RunTo(ops, i), PutSoFar(ops, i).0 - TakenSoFar(ops, i);
    assert outstanding == Bag(q.entries);
    BagMembers(q.entries);
    if q.entries != [] {
      forall e | e in outstanding && e != q.entries[0] ensures Before(q.entries[0], e) {
        var k :| 0 <= k < |q.entries| && q.entries[k] == e;
      }
    }
  }

  // ---- What a re-queue does to the priority ----

  /** `str(priority)` as stored in the task table; an absent priority is stored as "MEDIUM". */
  function Shown(p: Priority): string {
    match p
    case Absent => "MEDIUM"
    case Named(name) => name
    case Number(n) => Text.PrintInt(n)
    case Other(shown) => shown
  }

  /**
   A job re-queued from its table row keeps its rank iff its priority was not a number other
   than 6: the row holds text, and no digit text names a priority.
   */
  lemma {:induction false} RequeueRank(p: Priority)
    requires p.Other? ==> Text.Upper(p.shown) != "HIGH" && Text.Upper(p.shown) != "LOW"
    ensures Rank(Named(Shown(p))) == Rank(p) <==> !(p.Number? && p.n != 6)
  {
    if p.Number? {
      var s := Text.PrintInt(p.n);
      assert s[0] != 'h' && s[0] != 'H' && s[0] != 'l' && s[0] != 'L';
      assert Text.Upper(s)[0] == s[0];
    }
  }
}
