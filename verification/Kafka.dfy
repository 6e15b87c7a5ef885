/**
 Consumer.Consume on one partition: fetch, handle, commit. The process may crash anywhere, a commit may
 be lost or applied without an answer, and a new incarnation resumes at the committed offset.
 */
module Kafka {
  /** How one turn of the loop ends; messages may arrive before its fetch. */
  datatype Ending =
    | NotFetched      // cancelled, fetch error, or crash before the handler is called
    | HandlerStopped  // handler error, or crash inside the handler
    | CommitLost      // commit error, or crash before the commit reaches the broker
    | CommitUnheard   // the broker commits but the consumer gets an error or crashes
    | Committed

  datatype Turn = Turn(arrivals: nat, ending: Ending)

  /** A call of the handler. */
  datatype Call = Call(incarnation: nat, offset: nat, ok: bool)

  /** The partition holds the offsets below end; committed is the next one to fetch. */
  datatype Partition = Partition(end: nat, committed: nat, starts: nat, calls: seq<Call>)

  function Arrive(p: Partition, n: nat): Partition
  {
    p.(end := p.end + n)
  }

  function Handle(p: Partition, offset: nat, ok: bool): Partition
  {
    p.(calls := p.calls + [Call(p.starts, offset, ok)])
  }

  /** The loop from offset next on; it waits, and is cancelled, if there is nothing to fetch. */
  function Loop(p: Partition, next: nat, turns: seq<Turn>): Partition
    decreases |turns|
  {
    if turns == [] then p
    else
      var q := Arrive(p, turns[0].arrivals);
      if turns[0].ending.NotFetched? || next >= q.end then q
      else if turns[0].ending.HandlerStopped? then Handle(q, next, false)
      else if turns[0].ending.CommitLost? then Handle(q, next, true)
      else if turns[0].ending.CommitUnheard? then Handle(q, next, true).(committed := next + 1)
      else Loop(Handle(q, next, true).(committed := next + 1), next + 1, turns[1..])
  }

  /** One incarnation, from start to end. */
  function Incarnation(p: Partition, turns: seq<Turn>): Partition
  {
    Loop(p.(starts := p.starts + 1), p.committed, turns)
  }

  /** A run: one incarnation after the other. */
  function Run(p: Partition, lives: seq<seq<Turn>>): Partition
  {
    if lives == [] then p else Incarnation(Run(p, lives[..|lives| - 1]), lives[|lives| - 1])
  }

  const NEW: Partition := Partition(0, 0, 0, [])

  class Broker {
    var state: Partition

    constructor ()
      ensures state == NEW
    {
      state := NEW;
    }

    /** The consumer loop of a new incarnation; it returns at the first error. */
    method Consume(turns: seq<Turn>)
      modifies this
      ensures state == Incarnation(old(state), turns)
    {
      state := state.(starts := state.starts + 1);
      var next: nat := state.committed;
      var i := 0;
      while i < |turns|
        invariant 0 <= i <= |turns|
        invariant Incarnation(old(state), turns) == Loop(state, next, turns[i..])
      {
        var turn := turns[i];
        assert turns[i..][1..] == turns[i + 1..];
        state := Arrive(state, turn.arrivals);
        if turn.ending == NotFetched || next >= state.end {
          return;
        }
        state := Handle(state, next, turn.ending != HandlerStopped);
        if turn.ending == HandlerStopped || turn.ending == CommitLost {
          return;
        }
        state := state.(committed := next + 1);
        if turn.ending == CommitUnheard {
          return;
        }
        next := next + 1;
        i := i + 1;
      }
    }
  }

  // ---------- the guarantees

  ghost predicate HandledOk(calls: seq<Call>, offset: nat)
  {
    exists i | 0 <= i < |calls| :: calls[i].offset == offset && calls[i].ok
  }

  /** Within an incarnation the calls go through the log without gap or repeat, each after a success. */
  ghost predicate InOrder(calls: seq<Call>)
  {
    forall i | 0 < i < |calls| ::
      || calls[i - 1].incarnation < calls[i].incarnation
      || (calls[i - 1].incarnation == calls[i].incarnation && calls[i - 1].ok &&
          calls[i].offset == calls[i - 1].offset + 1)
  }

  /** What holds whenever no incarnation is running. */
  ghost predicate Safe(p: Partition)
  {
    && p.committed <= p.end
    && (forall o | 0 <= o < p.committed :: HandledOk(p.calls, o))
    && (forall c <- p.calls :: c.offset < p.end && c.offset <= p.committed && c.incarnation <= p.starts)
    && InOrder(p.calls)
    && |p.calls| <= p.committed + p.starts
  }

  /** While one is in its loop: everything it called for is committed, so its extra call is still unused. */
  ghost predicate SafeInLoop(p: Partition)
  {
    && Safe(p) && p.starts > 0
    && |p.calls| < p.committed + p.starts
    && (p.calls != [] && p.calls[|p.calls| - 1].incarnation == p.starts ==>
          p.calls[|p.calls| - 1].ok && p.calls[|p.calls| - 1].offset + 1 == p.committed)
  }

  lemma OneMoreCall(calls: seq<Call>, c: Call)
    ensures forall o | HandledOk(calls, o) :: HandledOk(calls + [c], o)
    ensures c.ok ==> HandledOk(calls + [c], c.offset)
  {
    var more := calls + [c];
    forall o | HandledOk(calls, o) ensures HandledOk(more, o) {
      var i :| 0 <= i < |calls| && calls[i].offset == o && calls[i].ok;
      assert more[i] == calls[i];
    }
    assert more[|calls|] == c;
  }

  lemma NextInOrder(calls: seq<Call>, c: Call)
    requires InOrder(calls)
    requires calls == [] || calls[|calls| - 1].incarnation < c.incarnation ||
      (calls[|calls| - 1].incarnation == c.incarnation && calls[|calls| - 1].ok &&
       c.offset == calls[|calls| - 1].offset + 1)
    ensures InOrder(calls + [c])
  {}

  lemma HandleSafe(p: Partition, ok: bool)
    requires SafeInLoop(p) && p.committed < p.end
    ensures Safe(Handle(p, p.committed, ok))
    ensures ok ==> SafeInLoop(Handle(p, p.committed, true).(committed := p.committed + 1))
  {
    var c := Call(p.starts, p.committed, ok);
    OneMoreCall(p.calls, c);
    assert p.calls != [] ==> p.calls[|p.calls| - 1] in p.calls;
    NextInOrder(p.calls, c);
    hide InOrder, HandledOk;
  }

  lemma {:induction false} LoopSafe(p: Partition, turns: seq<Turn>)
    requires SafeInLoop(p)
    ensures Safe(Loop(p, p.committed, turns))
    decreases |turns|
  {
    hide SafeInLoop, Safe;
    if turns != [] {
      var q := Arrive(p, turns[0].arrivals);
      ArriveSafe(p, turns[0].arrivals);
      if !turns[0].ending.NotFetched? && p.committed < q.end {
        HandleSafe(q, !turns[0].ending.HandlerStopped?);
        var r := Handle(q, p.committed, true).(committed := p.committed + 1);
        if turns[0].ending.Committed? {
          LoopSafe(r, turns[1..]);
        }
        assert SafeInLoop(r) ==> Safe(r) by {
          LoopIsSafe(r);
        }
      }
    }
    LoopIsSafe(p);
  }

  lemma LoopIsSafe(p: Partition)
    ensures SafeInLoop(p) ==> Safe(p)
  {}

  lemma ArriveSafe(p: Partition, n: nat)
    requires SafeInLoop(p)
    ensures SafeInLoop(Arrive(p, n)) && Safe(Arrive(p, n))
  {}

  lemma StartSafe(p: Partition)
    requires Safe(p)
    ensures SafeInLoop(p.(starts := p.starts + 1))
  {}

  /**
   Over every run: each offset below the committed one was handled successfully at least once, calls go
   through the log in order within an incarnation, and there are at most as many calls as committed
   offsets and incarnations, that is committed + restarts + 1.
   */
  lemma {:induction false} RunSafe(lives: seq<seq<Turn>>)
    ensures Safe(Run(NEW, lives)) && Run(NEW, lives).starts == |lives|
  {
    hide Safe, SafeInLoop;
    if lives == [] {
      assert Safe(NEW) by {
        NewSafe();
      }
    } else {
      var front, last := lives[..|lives| - 1], lives[|lives| - 1];
      RunSafe(front);
      var p := Run(NEW, front);
      StartSafe(p);
      LoopSafe(p.(starts := p.starts + 1), last);
      LoopStarts(p.(starts := p.starts + 1), p.committed, last);
    }
  }

  lemma NewSafe()
    ensures Safe(NEW)
  {}

  lemma {:induction false} LoopStarts(p: Partition, next: nat, turns: seq<Turn>)
    ensures Loop(p, next, turns).starts == p.starts
    decreases |turns|
  {
    if turns != [] {
      LoopStarts(Handle(Arrive(p, turns[0].arrivals), next, true).(committed := next + 1), next + 1, turns[1..]);
    }
  }

  /** Committed only grows, and the log of calls only gets longer; nothing committed is handled again. */
  lemma {:induction false} LoopAdvances(p: Partition, turns: seq<Turn>)
    ensures var q := Loop(p, p.committed, turns);
      && p.committed <= q.committed && p.calls <= q.calls && p.end <= q.end
      && (forall i | |p.calls| <= i < |q.calls| ::
            q.calls[i] == Call(p.starts, p.committed + i - |p.calls|, q.calls[i].ok))
      && q.committed - p.committed <= |q.calls| - |p.calls| <= q.committed - p.committed + 1
    decreases |turns|
  {
    if turns != [] {
      var r := Handle(Arrive(p, turns[0].arrivals), p.committed, true).(committed := p.committed + 1);
      LoopAdvances(r, turns[1..]);
      assert p.calls <= r.calls;
    }
  }

  // ---------- what one incarnation does

  /** Messages that arrive during a turn are there before its fetch. */
  lemma ArrivalsComeFirst(p: Partition, next: nat, n: nat, e: Ending, more: seq<Turn>)
    ensures Loop(p, next, [Turn(n, e)] + more) == Loop(p.(end := p.end + n), next, [Turn(0, e)] + more)
  {
    assert ([Turn(n, e)] + more)[1..] == ([Turn(0, e)] + more)[1..];
  }

  /** The calls for n messages from the offset on, all successful but the last if it failed. */
  function CallsFor(incarnation: nat, offset: nat, n: nat, lastFails: bool): seq<Call>
  {
    seq(n, i requires 0 <= i < n => Call(incarnation, offset + i, !(lastFails && i == n - 1)))
  }

  /** k turns that commit, then one that ends the incarnation. */
  function Turns(k: nat, last: Ending): seq<Turn>
  {
    seq(k, _ => Turn(0, Committed)) + [Turn(0, last)]
  }

  /**
   An incarnation that commits k messages and then ends has handled those k and, if it fetched one more,
   that one; the commit position has moved by k, or by k + 1 if only the answer to the last commit was lost.
   Turns after the end change nothing.
   */
  lemma IncarnationIs(p: Partition, k: nat, last: Ending, more: seq<Turn>)
    requires p.committed + k < p.end && last != Committed
    ensures var q := Incarnation(p, Turns(k, last) + more);
      && q.end == p.end && q.starts == p.starts + 1
      && q.committed == p.committed + k + (if last == CommitUnheard then 1 else 0)
      && q.calls == p.calls + CallsFor(p.starts + 1, p.committed, k + (if last == NotFetched then 0 else 1),
           last == HandlerStopped)
  {
    LoopIs(p.(starts := p.starts + 1), k, last, more);
  }

  lemma {:induction false} LoopIs(p: Partition, k: nat, last: Ending, more: seq<Turn>)
    requires p.committed + k < p.end && last != Committed
    ensures var q := Loop(p, p.committed, Turns(k, last) + more);
      && q.end == p.end && q.starts == p.starts
      && q.committed == p.committed + k + (if last == CommitUnheard then 1 else 0)
      && q.calls == p.calls + CallsFor(p.starts, p.committed, k + (if last == NotFetched then 0 else 1),
           last == HandlerStopped)
    decreases k
  {
    var turns := Turns(k, last) + more;
    var n := k + if last == NotFetched then 0 else 1;
    var calls := CallsFor(p.starts, p.committed, n, last == HandlerStopped);
    if k == 0 {
      assert turns[0] == Turn(0, last);
    } else {
      assert turns[0] == Turn(0, Committed) && turns[1..] == Turns(k - 1, last) + more;
      LoopIs(Handle(p, p.committed, true).(committed := p.committed + 1), k - 1, last, more);
      assert calls == [Call(p.starts, p.committed, true)] +
        CallsFor(p.starts, p.committed + 1, n - 1, last == HandlerStopped);
    }
  }

  /** An incarnation that meets no failure and gets turns enough commits everything there is. */
  lemma {:induction false} CatchesUp(p: Partition, turns: seq<Turn>)
    requires p.committed <= p.end && |turns| >= p.end - p.committed
    requires forall i | 0 <= i < |turns| :: turns[i] == Turn(0, Committed)
    ensures var q := Loop(p, p.committed, turns); q.committed == q.end == p.end
    decreases |turns|
  {
    if p.committed < p.end {
      CatchesUp(Handle(p, p.committed, true).(committed := p.committed + 1), turns[1..]);
    }
  }

  // ---------- the bound is reached

  /** An incarnation that commits m messages as they arrive and loses the commit of the next one. */
  function LosesLast(m: nat): seq<Turn>
  {
    if m == 0 then [Turn(1, CommitLost)] else [Turn(1, Committed)] + LosesLast(m - 1)
  }

  lemma {:induction false} LosesLastDoes(p: Partition, m: nat)
    requires p.committed <= p.end
    ensures var q := Loop(p, p.committed, LosesLast(m));
      q.committed == p.committed + m && q.committed <= q.end && |q.calls| == |p.calls| + m + 1 && q.starts == p.starts
    decreases m
  {
    if m > 0 {
      assert LosesLast(m)[1..] == LosesLast(m - 1);
      LosesLastDoes(Handle(Arrive(p, 1), p.committed, true).(committed := p.committed + 1), m - 1);
    }
  }

  /** n incarnations that lose every commit, and one that commits m messages and loses the next. */
  function Worst(n: nat, m: nat): seq<seq<Turn>>
  {
    seq(n, _ => LosesLast(0)) + [LosesLast(m)]
  }

  lemma {:induction false} AllLost(n: nat)
    ensures var p := Run(NEW, seq(n, _ => LosesLast(0)));
      p.committed == 0 && p.starts == n && |p.calls| == n
  {
    if n > 0 {
      var lives := seq(n, _ => LosesLast(0));
      assert lives[..n - 1] == seq(n - 1, _ => LosesLast(0));
      AllLost(n - 1);
      var p := Run(NEW, lives[..n - 1]);
      LosesLastDoes(p.(starts := p.starts + 1), 0);
    }
  }

  /**
   The bound of RunSafe cannot be improved: for every number of restarts and of committed messages some
   run makes exactly committed + restarts + 1 calls.
   */
  lemma BoundReached(restarts: nat, committed: nat)
    ensures var p := Run(NEW, Worst(restarts, committed));
      p.starts == restarts + 1 && p.committed == committed && |p.calls| == committed + restarts + 1
  {
    var lives := Worst(restarts, committed);
    assert lives[..|lives| - 1] == seq(restarts, _ => LosesLast(0));
    AllLost(restarts);
    var p := Run(NEW, lives[..|lives| - 1]);
    LosesLastDoes(p.(starts := p.starts + 1), committed);
  }
}
