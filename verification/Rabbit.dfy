/**
 The reanalysis queue: competing workers that acknowledge or requeue. Messages are durable; a broker
 restart and a lost connection both hand a worker's unacknowledged messages back to the queue.
 */
module Rabbit {
  import opened Counting

  /** A published message; seq number it, two messages may carry the same body. */
  datatype Job = Job(number: nat, parsable: bool)

  /** How far a worker is with a delivery: its reply, once sent, may still be lost. */
  datatype Phase = Waiting | Replied(ack: bool)

  datatype Delivery = Delivery(worker: nat, job: Job, phase: Phase)

  /** analysed logs the successful analyses. */
  datatype Queue =
    Queue(published: seq<Job>, ready: seq<Job>, held: seq<Delivery>, removed: seq<Job>, analysed: seq<Job>)

  datatype Step =
    | Publish(parsable: bool)
    | Deliver(i: nat, worker: nat)   // the broker takes any ready message and picks a worker
    | Work(d: nat, succeeds: bool)
    | Arrive(d: nat)                 // the broker gets the reply
    | Lose(worker: nat)              // crash, lost connection or broker restart, replies in flight included

  const EMPTY := Queue([], [], [], [], [])

  /** The worker's handler: nil for a message it can never parse, else the error of the analysis. */
  method Handler(job: Job, analysisSucceeds: bool) returns (err: bool)
    ensures err == Fails(job, analysisSucceeds)
    ensures err <==> job.parsable && !analysisSucceeds
  {
    if !job.parsable {
      return false;
    }
    if !analysisSucceeds {
      return true;
    }
    return false;
  }

  predicate Fails(job: Job, analysisSucceeds: bool)
  {
    job.parsable && !analysisSucceeds
  }

  function Without<T>(s: seq<T>, i: nat): (r: seq<T>)
    requires i < |s|
    ensures |r| == |s| - 1
  {
    s[..i] + s[i + 1..]
  }

  function Jobs(held: seq<Delivery>): (r: seq<Job>)
    ensures |r| == |held|
    ensures forall i | 0 <= i < |r| :: r[i] == held[i].job
  {
    if held == [] then [] else [held[0].job] + Jobs(held[1..])
  }

  function HeldBy(held: seq<Delivery>, worker: nat): seq<Delivery>
  {
    if held == [] then []
    else (if held[0].worker == worker then [held[0]] else []) + HeldBy(held[1..], worker)
  }

  function HeldByOthers(held: seq<Delivery>, worker: nat): seq<Delivery>
  {
    if held == [] then []
    else (if held[0].worker == worker then [] else [held[0]]) + HeldByOthers(held[1..], worker)
  }

  predicate Enabled(q: Queue, s: Step)
  {
    match s
    case Publish(_) => true
    case Deliver(i, _) => i < |q.ready|
    case Work(d, _) => d < |q.held| && q.held[d].phase.Waiting?
    case Arrive(d) => d < |q.held| && q.held[d].phase.Replied?
    case Lose(_) => true
  }

  function Do(q: Queue, s: Step): Queue
    requires Enabled(q, s)
  {
    match s
    case Publish(parsable) =>
      var job := Job(|q.published|, parsable);
      q.(published := q.published + [job], ready := q.ready + [job])
    case Deliver(i, worker) =>
      q.(ready := Without(q.ready, i), held := q.held + [Delivery(worker, q.ready[i], Waiting)])
    case Work(d, succeeds) =>
      var job := q.held[d].job;
      q.(held := q.held[d := q.held[d].(phase := Replied(!Fails(job, succeeds)))],
         analysed := if job.parsable && succeeds then q.analysed + [job] else q.analysed)
    case Arrive(d) =>
      var job := q.held[d].job;
      if q.held[d].phase.ack then q.(held := Without(q.held, d), removed := q.removed + [job])
      else q.(held := Without(q.held, d), ready := q.ready + [job])
    case Lose(worker) =>
      q.(held := HeldByOthers(q.held, worker), ready := q.ready + Jobs(HeldBy(q.held, worker)))
  }

  /** The states of a run from the empty queue. */
  ghost predicate IsRun(qs: seq<Queue>, steps: seq<Step>)
  {
    && |qs| == |steps| + 1 && qs[0] == EMPTY
    && forall i | 0 <= i < |steps| :: Enabled(qs[i], steps[i]) && qs[i + 1] == Do(qs[i], steps[i])
  }

  // ---------- the invariant

  /** Every message is ready, held or removed, and in one place only. */
  ghost predicate Conserved(q: Queue)
  {
    multiset(q.published) == multiset(q.ready) + multiset(Jobs(q.held)) + multiset(q.removed)
  }

  predicate Numbered(jobs: seq<Job>)
  {
    forall i | 0 <= i < |jobs| :: jobs[i].number == i
  }

  predicate Done(q: Queue, job: Job)
  {
    !job.parsable || job in q.analysed
  }

  ghost predicate Sound(q: Queue)
  {
    && Conserved(q) && Numbered(q.published)
    && AcksDone(q)
    && forall job <- q.removed :: Done(q, job)
  }

  lemma WithoutCounts<T>(s: seq<T>, i: nat)
    requires i < |s|
    ensures multiset(s) == multiset(Without(s, i)) + multiset{s[i]}
  {
    assert s == s[..i] + [s[i]] + s[i + 1..];
  }

  lemma {:induction false} JobsAppend(a: seq<Delivery>, b: seq<Delivery>)
    ensures Jobs(a + b) == Jobs(a) + Jobs(b)
  {
    if a == [] {
      assert a + b == b;
    } else {
      assert (a + b)[1..] == a[1..] + b;
      JobsAppend(a[1..], b);
    }
  }

  lemma {:induction false} JobsWithout(held: seq<Delivery>, d: nat)
    requires d < |held|
    ensures Jobs(Without(held, d)) == Without(Jobs(held), d)
  {
    JobsAppend(held[..d], held[d + 1..]);
    var left, right := Jobs(held[..d]), Jobs(held[d + 1..]);
    assert left == Jobs(held)[..d] && right == Jobs(held)[d + 1..];
  }

  /** The jobs a worker holds and those the others hold. */
  lemma {:induction false} SplitByWorker(held: seq<Delivery>, worker: nat)
    ensures multiset(Jobs(held)) == multiset(Jobs(HeldBy(held, worker))) + multiset(Jobs(HeldByOthers(held, worker)))
  {
    hide Jobs;
    if held != [] {
      var rest := held[1..];
      var mine, others := HeldBy(rest, worker), HeldByOthers(rest, worker);
      SplitByWorker(rest, worker);
      JobsOfFirst(held);
      JobsOfFirst([held[0]] + mine);
      JobsOfFirst([held[0]] + others);
      assert HeldBy(held, worker) == if held[0].worker == worker then [held[0]] + mine else mine;
      assert HeldByOthers(held, worker) == if held[0].worker == worker then others else [held[0]] + others;
      hide HeldBy, HeldByOthers;
      assert multiset(Jobs(held)) == multiset{held[0].job} + multiset(Jobs(rest));
    }
  }

  lemma {:induction false} JobsOfFirst(held: seq<Delivery>)
    requires held != []
    ensures Jobs(held) == [held[0].job] + Jobs(held[1..])
  {}

  lemma {:induction false} OthersAreHeld(held: seq<Delivery>, worker: nat)
    ensures forall d <- HeldByOthers(held, worker) :: d in held
  {
    if held != [] {
      OthersAreHeld(held[1..], worker);
    }
  }

  lemma DeliverConserves(q: Queue, s: Step)
    requires Conserved(q) && Enabled(q, s) && s.Deliver?
    ensures Conserved(Do(q, s))
  {
    var delivery := Delivery(s.worker, q.ready[s.i], Waiting);
    JobsAppend(q.held, [delivery]);
    assert Jobs([delivery]) == [q.ready[s.i]];
    WithoutCounts(q.ready, s.i);
    hide Jobs, Without;
  }

  lemma ReplyConserves(q: Queue, s: Step)
    requires Conserved(q) && Enabled(q, s) && s.Arrive?
    ensures Conserved(Do(q, s))
  {
    var q', job := Do(q, s), q.held[s.d].job;
    assert q'.published == q.published && q'.held == Without(q.held, s.d);
    assert (q'.ready == q.ready && q'.removed == q.removed + [job]) ||
      (q'.ready == q.ready + [job] && q'.removed == q.removed);
    JobsWithout(q.held, s.d);
    WithoutCounts(Jobs(q.held), s.d);
    assert Jobs(q.held)[s.d] == job;
    hide Do, Enabled, Without, Jobs;
    OneMoves(multiset(q.ready), multiset(Jobs(q.held)), multiset(q.removed), multiset(Jobs(q'.held)), job);
    assert multiset(q.ready + [job]) == multiset(q.ready) + multiset{job};
    assert multiset(q.removed + [job]) == multiset(q.removed) + multiset{job};
  }

  lemma OneMoves(ready: multiset<Job>, held: multiset<Job>, removed: multiset<Job>, rest: multiset<Job>, job: Job)
    requires held == rest + multiset{job}
    ensures ready + held + removed == ready + multiset{job} + rest + removed
    ensures ready + held + removed == ready + rest + (removed + multiset{job})
  {}

  lemma PublishConserves(q: Queue, s: Step)
    requires Conserved(q) && s.Publish?
    ensures Conserved(Do(q, s))
  {
    hide Jobs;
  }

  lemma WorkConserves(q: Queue, s: Step)
    requires Conserved(q) && Enabled(q, s) && s.Work?
    ensures Conserved(Do(q, s))
  {
    assert Jobs(Do(q, s).held) == Jobs(q.held);
    hide Jobs;
  }

  lemma LoseConserves(q: Queue, s: Step)
    requires Conserved(q) && s.Lose?
    ensures Conserved(Do(q, s))
  {
    SplitByWorker(q.held, s.worker);
    hide Jobs, HeldBy, HeldByOthers;
  }

  lemma StepConserves(q: Queue, s: Step)
    requires Conserved(q) && Enabled(q, s)
    ensures Conserved(Do(q, s))
  {
    hide Conserved, Do;
    match s
    case Publish(_) => PublishConserves(q, s);
    case Deliver(_, _) => DeliverConserves(q, s);
    case Work(_, _) => WorkConserves(q, s);
    case Arrive(_) => ReplyConserves(q, s);
    case Lose(_) => LoseConserves(q, s);
  }

  lemma DoneStays(q: Queue, s: Step, job: Job)
    requires Enabled(q, s) && Done(q, job)
    ensures Done(Do(q, s), job)
  {
    hide Jobs, HeldBy, HeldByOthers, Without;
  }

  /** A delivery about to be acknowledged is done. */
  ghost predicate AcksDone(q: Queue)
  {
    forall d <- q.held :: d.phase.Replied? && d.phase.ack ==> Done(q, d.job)
  }

  lemma AcksStayDone(q: Queue, s: Step)
    requires AcksDone(q) && Enabled(q, s)
    ensures AcksDone(Do(q, s))
  {
    if s.Lose? {
      OthersAreHeld(q.held, s.worker);
    }
    var q' := Do(q, s);
    hide Jobs, HeldBy, HeldByOthers;
    forall d | d in q'.held && d.phase.Replied? && d.phase.ack ensures Done(q', d.job) {
      if d in q.held {
        DoneStays(q, s, d.job);
      } else {
        assert s.Work? && d == q'.held[s.d];
      }
    }
  }

  lemma RemovedStayDone(q: Queue, s: Step)
    requires AcksDone(q) && Enabled(q, s) && forall job <- q.removed :: Done(q, job)
    ensures forall job <- Do(q, s).removed :: Done(Do(q, s), job)
  {
    var q' := Do(q, s);
    forall job | job in q'.removed ensures Done(q', job) {
      hide Jobs, HeldBy, HeldByOthers;
      if job !in q.removed {
        assert s.Arrive? && q.held[s.d] in q.held && job == q.held[s.d].job;
      }
      DoneStays(q, s, job);
    }
  }

  lemma StaysNumbered(q: Queue, s: Step)
    requires Numbered(q.published) && Enabled(q, s)
    ensures Numbered(Do(q, s).published)
  {
    hide Jobs, HeldBy, HeldByOthers, Without;
  }

  lemma StepSound(q: Queue, s: Step)
    requires Sound(q) && Enabled(q, s)
    ensures Sound(Do(q, s))
  {
    hide Conserved, AcksDone, Do, Enabled, Done, Numbered;
    StepConserves(q, s);
    AcksStayDone(q, s);
    RemovedStayDone(q, s);
    StaysNumbered(q, s);
  }

  lemma {:induction false} RunSound(qs: seq<Queue>, steps: seq<Step>, n: nat)
    requires IsRun(qs, steps) && n < |qs|
    ensures Sound(qs[n])
    decreases n
  {
    if n > 0 {
      RunSound(qs, steps, n - 1);
      StepSound(qs[n - 1], steps[n - 1]);
    }
  }

  lemma {:induction false} OnceNumbered(jobs: seq<Job>, job: Job)
    requires Numbered(jobs)
    ensures multiset(jobs)[job] <= 1
  {
    if jobs != [] {
      var front := jobs[..|jobs| - 1];
      OnceNumbered(front, job);
      assert jobs == front + [jobs[|jobs| - 1]];
      if job == jobs[|jobs| - 1] {
        assert job !in front;
      }
    }
  }

  /**
   In every run the published jobs are, as multisets, the ready, the unacknowledged and the removed ones;
   no job is held twice, nor held while ready or removed; and a job is removed only after a successful
   analysis or if its body cannot be parsed.
   */
  lemma QueueSafe(qs: seq<Queue>, steps: seq<Step>, n: nat)
    requires IsRun(qs, steps) && n < |qs|
    ensures var q := qs[n];
      && multiset(q.published) == multiset(q.ready) + multiset(Jobs(q.held)) + multiset(q.removed)
      && (forall i, j | 0 <= i < |q.held| && 0 <= j < |q.held| && i != j :: q.held[i].job != q.held[j].job)
      && (forall d <- q.held :: d.job !in q.ready && d.job !in q.removed)
      && (forall job <- q.removed :: job in q.analysed || !job.parsable)
  {
    RunSound(qs, steps, n);
    var q := qs[n];
    hide IsRun;
    forall i, j | 0 <= i < |q.held| && 0 <= j < |q.held| && i != j ensures q.held[i].job != q.held[j].job {
      OnceNumbered(q.published, q.held[i].job);
      if q.held[i].job == q.held[j].job {
        TwoPlaces(Jobs(q.held), i, j);
      }
    }
    forall d | d in q.held ensures d.job !in q.ready && d.job !in q.removed {
      OnceNumbered(q.published, d.job);
      var i :| 0 <= i < |q.held| && q.held[i] == d;
      assert Jobs(q.held)[i] in multiset(Jobs(q.held));
    }
  }

  /** A published job that is neither removed nor held can be delivered. */
  lemma NothingIsLost(qs: seq<Queue>, steps: seq<Step>, n: nat, job: Job)
    requires IsRun(qs, steps) && n < |qs| && job in qs[n].published
    ensures job in qs[n].removed || job in Jobs(qs[n].held) ||
      exists i: nat :: Enabled(qs[n], Deliver(i, 0)) && qs[n].ready[i] == job
  {
    RunSound(qs, steps, n);
    var q := qs[n];
    hide IsRun, Sound;
    assert job in multiset(q.published);
    assert Conserved(q) by {
      SoundConserves(q);
    }
    if job in q.ready {
      var i: nat :| 0 <= i < |q.ready| && q.ready[i] == job;
      assert Enabled(q, Deliver(i, 0));
    }
  }

  lemma SoundConserves(q: Queue)
    requires Sound(q)
    ensures Conserved(q)
  {}

  /** The step is the broker receiving the ack of a delivery of the job, which is removed by it. */
  ghost predicate AckOf(q: Queue, s: Step, job: Job)
  {
    && s.Arrive? && s.d < |q.held| && q.held[s.d].job == job && q.held[s.d].phase == Replied(true)
    && job !in q.removed && Done(q, job)
  }

  lemma OnlyAcksRemove(q: Queue, s: Step, job: Job)
    requires Sound(q) && Enabled(q, s) && job in Do(q, s).removed
    ensures job in q.removed || AckOf(q, s, job)
  {
    hide Conserved, Numbered, Jobs, HeldBy, HeldByOthers, Without;
    if job !in q.removed {
      assert s.Arrive? && q.held[s.d] in q.held;
    }
  }

  /** In every run a job leaves the queue by the ack of its own delivery and in no other way. */
  lemma {:induction false} RemovedByItsAck(qs: seq<Queue>, steps: seq<Step>, n: nat, job: Job) returns (i: nat)
    requires IsRun(qs, steps) && n < |qs| && job in qs[n].removed
    ensures i < n && AckOf(qs[i], steps[i], job)
    decreases n
  {
    hide Sound, AckOf, Do, Enabled;
    RunSound(qs, steps, n - 1);
    OnlyAcksRemove(qs[n - 1], steps[n - 1], job);
    i := n - 1;
    if job in qs[n - 1].removed {
      i := RemovedByItsAck(qs, steps, n - 1, job);
    }
  }

  /** Once removed, a job is never ready or held again. */
  lemma {:induction false} RemovedForGood(qs: seq<Queue>, steps: seq<Step>, n: nat, m: nat, job: Job)
    requires IsRun(qs, steps) && n <= m < |qs| && job in qs[n].removed
    ensures job in qs[m].removed && job !in qs[m].ready && job !in Jobs(qs[m].held)
    decreases m
  {
    if m > n {
      hide Conserved, Numbered, AcksDone, Jobs, HeldBy, HeldByOthers, Without;
      RemovedForGood(qs, steps, n, m - 1, job);
      assert job in Do(qs[m - 1], steps[m - 1]).removed;
    }
    RunSound(qs, steps, m);
    OneRemoved(qs[m], job);
  }

  lemma OneRemoved(q: Queue, job: Job)
    requires Sound(q) && job in q.removed
    ensures job !in q.ready && job !in Jobs(q.held)
  {
    OnceNumbered(q.published, job);
    hide Jobs;
    assert job in multiset(q.removed);
    assert job in q.ready ==> job in multiset(q.ready);
    assert job in Jobs(q.held) ==> job in multiset(Jobs(q.held));
  }

  // ---------- the consumer loop

  /** Three steps in a row: a delivery, the work on it, and the reply reaching the broker. */
  function Turn(q: Queue, worker: nat, i: nat, succeeds: bool): Queue
    requires i < |q.ready|
  {
    var d := |q.held|;
    Do(Do(Do(q, Deliver(i, worker)), Work(d, succeeds)), Arrive(d))
  }

  /** A turn removes the job or puts it back, and leaves every other delivery alone. */
  lemma TurnSettles(q: Queue, worker: nat, i: nat, succeeds: bool)
    requires i < |q.ready|
    ensures var q', job := Turn(q, worker, i, succeeds), q.ready[i];
      && q'.held == q.held && q'.published == q.published
      && (if job.parsable && !succeeds then q'.ready == Without(q.ready, i) + [job] && q'.removed == q.removed
          else q'.ready == Without(q.ready, i) && q'.removed == q.removed + [job])
    ensures Sound(q) ==> Sound(Turn(q, worker, i, succeeds))
  {
    var d := |q.held|;
    var q1 := Do(q, Deliver(i, worker));
    var q2 := Do(q1, Work(d, succeeds));
    assert Without(q2.held, d) == q.held;
    if Sound(q) {
      StepSound(q, Deliver(i, worker));
      StepSound(q1, Work(d, succeeds));
      StepSound(q2, Arrive(d));
    }
  }

  /** The queue after a worker has taken the messages the broker chose, with these analysis results. */
  function Consumed(q: Queue, worker: nat, turns: seq<(nat, bool)>): Queue
    decreases |turns|
  {
    if turns == [] || turns[0].0 >= |q.ready| then q
    else Consumed(Turn(q, worker, turns[0].0, turns[0].1), worker, turns[1..])
  }

  class Channel {
    var queue: Queue

    constructor ()
      ensures queue == EMPTY
    {
      queue := EMPTY;
    }

    /** The loop of Consume; the delivery channel is closed when there is no such message. */
    method Consume(worker: nat, turns: seq<(nat, bool)>)
      modifies this
      ensures queue == Consumed(old(queue), worker, turns)
      ensures queue.held == old(queue).held && queue.published == old(queue).published
      ensures Sound(old(queue)) ==> Sound(queue)
    {
      hide Sound, Without, Jobs;
      var n := 0;
      while n < |turns|
        invariant 0 <= n <= |turns|
        invariant Consumed(old(queue), worker, turns) == Consumed(queue, worker, turns[n..])
        invariant queue.held == old(queue).held && queue.published == old(queue).published
        invariant Sound(old(queue)) ==> Sound(queue)
      {
        var (i, succeeds) := turns[n];
        assert turns[n..][1..] == turns[n + 1..];
        if i >= |queue.ready| {
          return;
        }
        TurnSettles(queue, worker, i, succeeds);
        ghost var before := queue;
        var job := queue.ready[i];
        queue := queue.(ready := Without(queue.ready, i));
        var err := Handler(job, succeeds);
        if job.parsable && succeeds {
          queue := queue.(analysed := queue.analysed + [job]);
        }
        if err {
          queue := queue.(ready := queue.ready + [job]);
        } else {
          queue := queue.(removed := queue.removed + [job]);
        }
        assert queue == Turn(before, worker, i, succeeds);
        n := n + 1;
      }
    }
  }
}
