/**
 The order in which jobs leave, by what was submitted: the queue serves as a plain list would from
 which the most urgent job, the longest waiting on a tie, is taken each time.
 */
module JobOrder {
  import opened JobQueue
  import opened TextFacts

  /** A priority name, in any letter case. */
  predicate Says(p: Priority, word: string) { p.Named? && SameLetters(p.name, word) }

  /** From 10 down: HIGH is 10, LOW is 1, a number is itself, and all else is as MEDIUM, 6. */
  function Urgency(p: Priority): int {
    if p.Number? then p.n else if Says(p, "HIGH") then 10 else if Says(p, "LOW") then 1 else 6
  }

  lemma {:induction false} RankIsUrgency(p: Priority)
    ensures Rank(p) == 11 - Urgency(p)
  {
    if p.Named? {
      UpperIs(p.name, "HIGH");
      UpperIs(p.name, "LOW");
    }
  }

  // ---- The plain list ----

  /** The longest waiting of the most urgent jobs. */
  function MostUrgent(waiting: seq<Job>): (k: nat)
    requires waiting != []
    ensures k < |waiting|
    ensures forall j :: 0 <= j < k ==> Urgency(waiting[j].priority) < Urgency(waiting[k].priority)
    ensures forall j :: k <= j < |waiting| ==> Urgency(waiting[j].priority) <= Urgency(waiting[k].priority)
  {
    if |waiting| == 1 then 0
    else
      var last := |waiting| - 1;
      var k := MostUrgent(waiting[..last]);
      if Urgency(waiting[last].priority) > Urgency(waiting[k].priority) then last else k
  }

  function Drop<T>(s: seq<T>, k: nat): seq<T>
    requires k < |s|
  {
    s[..k] + s[k + 1..]
  }

  /** The jobs that wait, in the order in which they came. */
  function Waiting(ops: seq<Op>, i: nat): seq<Job>
    requires i <= |ops|
  {
    if i == 0 then []
    else
      var waiting := Waiting(ops, i - 1);
      match ops[i - 1]
      case Put(job) => waiting + [job]
      case Take => if waiting == [] then [] else Drop(waiting, MostUrgent(waiting))
  }

  /** Their arrival numbers. */
  function Numbers(ops: seq<Op>, i: nat): (numbers: seq<nat>)
    requires i <= |ops|
    ensures |numbers| == |Waiting(ops, i)|
  {
    if i == 0 then []
    else
      var waiting, numbers := Waiting(ops, i - 1), Numbers(ops, i - 1);
      match ops[i - 1]
      case Put(job) => numbers + [PutSoFar(ops, i).1]
      case Take => if waiting == [] then [] else Drop(numbers, MostUrgent(waiting))
  }

  // ---- The queue serves as the list does ----

  function EntriesOf(jobs: seq<Job>, numbers: seq<nat>): (entries: seq<Entry>)
    requires |jobs| == |numbers|
    ensures |entries| == |jobs|
  {
    seq(|jobs|, k requires 0 <= k < |jobs| => Entry(Rank(jobs[k].priority), numbers[k], jobs[k]))
  }

  ghost predicate Increasing(numbers: seq<nat>, most: nat) {
    && (forall j, k :: 0 <= j < k < |numbers| ==> numbers[j] < numbers[k])
    && (forall k :: 0 <= k < |numbers| ==> numbers[k] <= most)
  }

  /** The queue holds the waiting jobs. */
  ghost predicate Holds(ops: seq<Op>, i: nat)
    requires i <= |ops|
  {
    && Increasing(Numbers(ops, i), PutSoFar(ops, i).1)
    && Bag(RunTo(ops, i).entries) == Bag(EntriesOf(Waiting(ops, i), Numbers(ops, i)))
  }

  lemma {:induction false} BagFront(a: seq<Entry>)
    requires a != []
    ensures Bag(a) == multiset{a[0]} + Bag(a[1..])
  {
  }

  lemma {:induction false} BagNothing()
    ensures Bag([]) == multiset{}
  {
  }

  lemma {:induction false} BagAppend(a: seq<Entry>, b: seq<Entry>)
    ensures Bag(a + b) == Bag(a) + Bag(b)
  {
    hide Bag;
    if a == [] {
      BagNothing();
      assert a + b == b;
    } else {
      BagAppend(a[1..], b);
      BagFront(a);
      BagFront(a + b);
      assert (a + b)[1..] == a[1..] + b;
    }
  }

  lemma {:induction false} BagOne(e: Entry)
    ensures Bag([e]) == multiset{e}
  {
    BagFront([e]);
    BagNothing();
    assert [e][1..] == [];
  }

  lemma {:induction false} BagDrop(s: seq<Entry>, k: nat)
    requires k < |s|
    ensures Bag(s) == Bag(Drop(s, k)) + multiset{s[k]}
  {
    hide Bag;
    assert s == s[..k] + ([s[k]] + s[k + 1..]);
    BagAppend(s[..k], [s[k]] + s[k + 1..]);
    BagAppend([s[k]], s[k + 1..]);
    BagAppend(s[..k], s[k + 1..]);
    BagOne(s[k]);
  }

  lemma {:induction false} EntriesDrop(jobs: seq<Job>, numbers: seq<nat>, k: nat)
    requires |jobs| == |numbers| && k < |jobs|
    ensures EntriesOf(Drop(jobs, k), Drop(numbers, k)) == Drop(EntriesOf(jobs, numbers), k)
  {
    hide Rank;
  }

  lemma {:induction false} EntriesAppend(jobs: seq<Job>, numbers: seq<nat>, job: Job, n: nat)
    requires |jobs| == |numbers|
    ensures EntriesOf(jobs + [job], numbers + [n]) == EntriesOf(jobs, numbers) + [Entry(Rank(job.priority), n, job)]
  {
    hide Rank;
  }

  lemma {:induction false} SameEmpty(q: seq<Entry>, entries: seq<Entry>)
    requires Bag(q) == Bag(entries)
    ensures q == [] <==> entries == []
    ensures forall e :: e in q <==> e in entries
  {
    hide Bag;
    BagMembers(q);
    BagMembers(entries);
    forall e ensures e in q <==> e in entries {
      assert e in Bag(q) <==> e in Bag(entries);
    }
  }

  /** Of the jobs in a bag, the first in leaving order is the most urgent one. */
  lemma {:induction false} FirstOfBag(q: seq<Entry>, jobs: seq<Job>, numbers: seq<nat>, most: nat)
    requires Ordered(q) && |jobs| == |numbers| && jobs != [] && Increasing(numbers, most)
    requires Bag(q) == Bag(EntriesOf(jobs, numbers))
    ensures q != [] && q[0] == EntriesOf(jobs, numbers)[MostUrgent(jobs)]
  {
    hide Bag, Rank, Urgency;
    var entries, k := EntriesOf(jobs, numbers), MostUrgent(jobs);
    SameEmpty(q, entries);
    assert entries[k] in q && q[0] in entries;
    var j :| 0 <= j < |entries| && entries[j] == q[0];
    RankIsUrgency(jobs[j].priority);
    RankIsUrgency(jobs[k].priority);
    var m :| 0 <= m < |q| && q[m] == entries[k];
    assert m > 0 ==> Before(q[0], q[m]);
  }

  /** The first of the queue is the most urgent of the list. */
  lemma {:induction false} FirstIsMostUrgent(ops: seq<Op>, i: nat)
    requires i <= |ops| && Holds(ops, i)
    ensures RunTo(ops, i).entries == [] <==> Waiting(ops, i) == []
    ensures Waiting(ops, i) != [] ==>
      var k := MostUrgent(Waiting(ops, i));
      RunTo(ops, i).entries[0] == EntriesOf(Waiting(ops, i), Numbers(ops, i))[k]
  {
    hide Bag, RunTo, Waiting, Numbers, PutSoFar, MostUrgent;
    RunValid(ops, i);
    var jobs, numbers := Waiting(ops, i), Numbers(ops, i);
    SameEmpty(RunTo(ops, i).entries, EntriesOf(jobs, numbers));
    if jobs != [] {
      FirstOfBag(RunTo(ops, i).entries, jobs, numbers, PutSoFar(ops, i).1);
    }
  }

  lemma {:induction false} PutStep(ops: seq<Op>, i: nat)
    requires i < |ops| && ops[i].Put?
    ensures Waiting(ops, i + 1) == Waiting(ops, i) + [ops[i].job]
    ensures Numbers(ops, i + 1) == Numbers(ops, i) + [PutSoFar(ops, i).1 + 1]
    ensures RunTo(ops, i + 1) == Add(RunTo(ops, i), ops[i].job) && PutSoFar(ops, i + 1).1 == PutSoFar(ops, i).1 + 1
  {
    hide Add, Rank;
  }

  lemma {:induction false} PutHolds(ops: seq<Op>, i: nat)
    requires i < |ops| && ops[i].Put? && Holds(ops, i)
    ensures Holds(ops, i + 1)
  {
    hide Rank, Add, Bag, RunTo, Waiting, Numbers, PutSoFar, EntriesOf;
    var jobs, numbers, job := Waiting(ops, i), Numbers(ops, i), ops[i].job;
    var e := Entry(Rank(job.priority), PutSoFar(ops, i).1 + 1, job);
    PutStep(ops, i);
    RunValid(ops, i);
    AddContents(RunTo(ops, i), job);
    EntriesAppend(jobs, numbers, job, PutSoFar(ops, i).1 + 1);
    BagAppend(EntriesOf(jobs, numbers), [e]);
    BagOne(e);
  }

  lemma {:induction false} TakeStep(ops: seq<Op>, i: nat)
    requires i < |ops| && ops[i] == Take && (RunTo(ops, i).entries == [] <==> Waiting(ops, i) == [])
    ensures PutSoFar(ops, i + 1) == PutSoFar(ops, i)
    ensures if Waiting(ops, i) == [] then
              && RunTo(ops, i + 1) == RunTo(ops, i) && Waiting(ops, i + 1) == Waiting(ops, i)
              && Numbers(ops, i + 1) == Numbers(ops, i)
            else
              var k := MostUrgent(Waiting(ops, i));
              && RunTo(ops, i + 1).entries == RunTo(ops, i).entries[1..]
              && Waiting(ops, i + 1) == Drop(Waiting(ops, i), k) && Numbers(ops, i + 1) == Drop(Numbers(ops, i), k)
  {
    hide MostUrgent;
  }

  lemma {:induction false} Cancel(a: multiset<Entry>, e: Entry, b: multiset<Entry>)
    requires multiset{e} + a == b + multiset{e}
    ensures a == b
  {
    assert a == (multiset{e} + a) - multiset{e};
    assert b == (b + multiset{e}) - multiset{e};
  }

  lemma {:induction false} TakeHolds(ops: seq<Op>, i: nat)
    requires i < |ops| && ops[i] == Take && Holds(ops, i)
    ensures Holds(ops, i + 1)
  {
    hide Rank, Bag, RunTo, Waiting, Numbers, PutSoFar, EntriesOf, MostUrgent;
    var q, jobs, numbers := RunTo(ops, i).entries, Waiting(ops, i), Numbers(ops, i);
    FirstIsMostUrgent(ops, i);
    TakeStep(ops, i);
    if jobs != [] {
      var k := MostUrgent(jobs);
      EntriesDrop(jobs, numbers, k);
      BagDrop(EntriesOf(jobs, numbers), k);
      BagFront(q);
      Cancel(Bag(q[1..]), q[0], Bag(Drop(EntriesOf(jobs, numbers), k)));
    }
  }

  lemma {:induction false} AlwaysHolds(ops: seq<Op>, i: nat)
    requires i <= |ops|
    ensures Holds(ops, i)
  {
    hide Holds;
    if i == 0 {
      NothingHeld(ops);
    } else {
      AlwaysHolds(ops, i - 1);
      match ops[i - 1]
      case Put(_) => PutHolds(ops, i - 1);
      case Take => TakeHolds(ops, i - 1);
    }
  }

  lemma {:induction false} NothingHeld(ops: seq<Op>)
    ensures Holds(ops, 0)
  {
  }

  /**
   Over any interleaving of puts and takes, the queue gives out what the plain list would: nothing
   iff nobody waits, and otherwise the most urgent of those waiting, the longest waiting on a tie.
   */
  lemma {:induction false} ServesMostUrgent(ops: seq<Op>, i: nat)
    requires i < |ops| && ops[i] == Take
    ensures var entries, waiting := RunTo(ops, i).entries, Waiting(ops, i);
      && (entries == [] <==> waiting == [])
      && (waiting != [] ==>
          && entries[0].job == waiting[MostUrgent(waiting)]
          && RunTo(ops, i + 1).entries == entries[1..]
          && Waiting(ops, i + 1) == Drop(waiting, MostUrgent(waiting)))
  {
    AlwaysHolds(ops, i);
    FirstIsMostUrgent(ops, i);
  }

  /**
   In the names and numbers submitted: while a HIGH job waits, nothing leaves but HIGH jobs and
   numbers of at least 10; a LOW job leaves only when nothing waits but LOW jobs and numbers of at
   most 1; of numbers the largest leaves; and of equals the one that came first.
   */
  lemma {:induction false} LeavesInOrder(ops: seq<Op>, i: nat, j: nat)
    requires i < |ops| && ops[i] == Take && j < |Waiting(ops, i)|
    ensures RunTo(ops, i).entries != []
    ensures var job, other := RunTo(ops, i).entries[0].job.priority, Waiting(ops, i)[j].priority;
      && (Says(other, "HIGH") ==> Says(job, "HIGH") || (job.Number? && job.n >= 10))
      && (Says(job, "LOW") ==> Says(other, "LOW") || (other.Number? && other.n <= 1))
      && (job.Number? && other.Number? ==> other.n <= job.n)
      && (job == other ==> j >= MostUrgent(Waiting(ops, i)))
  {
    ServesMostUrgent(ops, i);
  }
}
