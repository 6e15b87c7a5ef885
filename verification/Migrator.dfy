/**
 Migrator.Migrate run by several processes at once on one database, any call of which may fail.
 Migration i of the list has version i + 1.
 */
module Migrator {
  /** Where one migrator is; current is the version it read, i the migration it has come to. */
  datatype Phase =
    | Out
    | Starting
    | Tabled
    | Looping(current: nat, i: nat)
    | Begun(current: nat, i: nat)
    | Upping(current: nat, i: nat)
    | Upped(current: nat, i: nat)
    | Inserted(current: nat, i: nat)
    | Finished

  /** recorded holds the committed rows of schema_migrations, ups the versions whose Up has completed. */
  datatype State = State(table: bool, recorded: seq<nat>, ups: seq<nat>, migrators: map<nat, Phase>)

  datatype Step =
    | Call(m: nat)
    | CreateTable(m: nat)
    | ReadVersion(m: nat)
    | Skip(m: nat)
    | Begin(m: nat)
    | StartUp(m: nat)
    | EndUp(m: nat)
    | Insert(m: nat)
    | Commit(m: nat)
    | CommitUnheard(m: nat)  // committed, but the migrator gets an error
    | Return(m: nat)
    | Fail(m: nat)           // an error or a crash; an open transaction is rolled back

  function At(s: State, m: nat): Phase
  {
    if m in s.migrators then s.migrators[m] else Out
  }

  /** SELECT COALESCE(MAX(version), 0) */
  function MaxVersion(rows: seq<nat>): (v: nat)
    ensures forall r <- rows :: r <= v
    ensures rows == [] || v in rows
    ensures rows == [] ==> v == 0
  {
    if rows == [] then 0
    else
      var rest := MaxVersion(rows[1..]);
      assert forall r <- rows :: r == rows[0] || r in rows[1..];
      if rows[0] > rest then rows[0] else rest
  }

  /**
   count migrations are listed. The version column is unique: an insert waits for another transaction's
   uncommitted row of the same version and fails, by Fail, on a committed one.
   */
  predicate Enabled(s: State, count: nat, t: Step)
  {
    var p := At(s, t.m);
    match t
    case Call(_) => p.Out? || p.Finished?
    case CreateTable(_) => p.Starting?
    case ReadVersion(_) => p.Tabled?
    case Skip(_) => p.Looping? && p.i < count && p.i + 1 <= p.current
    case Begin(_) => p.Looping? && p.i < count && p.i + 1 > p.current
    case StartUp(_) => p.Begun?
    case EndUp(_) => p.Upping?
    case Insert(_) =>
      p.Upped? && p.i + 1 !in s.recorded &&
      forall o <- s.migrators | s.migrators[o].Inserted? :: s.migrators[o].i != p.i
    case Commit(_) => p.Inserted?
    case CommitUnheard(_) => p.Inserted?
    case Return(_) => p.Looping? && p.i >= count
    case Fail(_) => !p.Out? && !p.Finished?
  }

  function Do(s: State, count: nat, t: Step): State
    requires Enabled(s, count, t)
  {
    var p := At(s, t.m);
    match t
    case Call(m) => Goes(s, m, Starting)
    case CreateTable(m) => Goes(s, m, Tabled).(table := true)
    case ReadVersion(m) => Goes(s, m, Looping(MaxVersion(s.recorded), 0))
    case Skip(m) => Goes(s, m, Looping(p.current, p.i + 1))
    case Begin(m) => Goes(s, m, Begun(p.current, p.i))
    case StartUp(m) => Goes(s, m, Upping(p.current, p.i))
    case EndUp(m) => Goes(s, m, Upped(p.current, p.i)).(ups := s.ups + [p.i + 1])
    case Insert(m) => Goes(s, m, Inserted(p.current, p.i))
    case Commit(m) => Goes(s, m, Looping(p.current, p.i + 1)).(recorded := s.recorded + [p.i + 1])
    case CommitUnheard(m) => Goes(s, m, Out).(recorded := s.recorded + [p.i + 1])
    case Return(m) => Goes(s, m, Finished)
    case Fail(m) => Goes(s, m, Out)
  }

  function Goes(s: State, m: nat, p: Phase): State
  {
    s.(migrators := s.migrators[m := p])
  }

  const FRESH: State := State(false, [], [], map[])

  ghost predicate IsRun(ss: seq<State>, count: nat, steps: seq<Step>)
  {
    && |ss| == |steps| + 1 && ss[0] == FRESH
    && forall i | 0 <= i < |steps| :: Enabled(ss[i], count, steps[i]) && ss[i + 1] == Do(ss[i], count, steps[i])
  }

  // ---------- the invariant

  /** The recorded versions are 1 to their number, in this order. */
  predicate Prefix(rows: seq<nat>)
  {
    forall i | 0 <= i < |rows| :: rows[i] == i + 1
  }

  predicate PhaseGood(s: State, count: nat, p: Phase)
  {
    match p
    case Looping(current, i) => current <= |s.recorded| && i <= count && i <= |s.recorded|
    case Begun(current, i) => current <= |s.recorded| && i < count && i <= |s.recorded|
    case Upping(current, i) => current <= |s.recorded| && i < count && i <= |s.recorded|
    case Upped(current, i) => current <= |s.recorded| && i < count && i <= |s.recorded| && i + 1 in s.ups
    case Inserted(current, i) => current <= |s.recorded| && i < count && i == |s.recorded| && i + 1 in s.ups
    case Finished => |s.recorded| == count
    case _ => true
  }

  ghost predicate Sound(s: State, count: nat)
  {
    && Prefix(s.recorded) && |s.recorded| <= count
    && (forall v <- s.recorded :: v in s.ups)
    && (forall m <- s.migrators :: PhaseGood(s, count, s.migrators[m]))
    && (forall m, o | m in s.migrators && o in s.migrators && m != o ::
          !(s.migrators[m].Inserted? && s.migrators[o].Inserted?))
  }

  lemma {:induction false} MaxOfPrefix(rows: seq<nat>)
    requires Prefix(rows)
    ensures MaxVersion(rows) == |rows|
  {
    if rows != [] {
      assert rows[|rows| - 1] in rows;
    }
  }

  lemma InPrefix(rows: seq<nat>, v: nat)
    requires Prefix(rows)
    ensures v in rows <==> 1 <= v <= |rows|
  {
    if 1 <= v <= |rows| {
      assert rows[v - 1] == v;
    }
  }

  lemma MoverGood(s: State, count: nat, t: Step)
    requires Sound(s, count) && Enabled(s, count, t)
    ensures t.m in Do(s, count, t).migrators && PhaseGood(Do(s, count, t), count, Do(s, count, t).migrators[t.m])
  {
    hide MaxVersion;
    MaxOfPrefix(s.recorded);
    assert PhaseGood(s, count, At(s, t.m));
    if t.Insert? {
      InPrefix(s.recorded, At(s, t.m).i + 1);
    }
  }

  lemma RowsGood(s: State, count: nat, t: Step)
    requires Sound(s, count) && Enabled(s, count, t)
    ensures Prefix(Do(s, count, t).recorded) && |Do(s, count, t).recorded| <= count
    ensures forall v <- Do(s, count, t).recorded :: v in Do(s, count, t).ups
  {
    hide MaxVersion;
    var p, s' := At(s, t.m), Do(s, count, t);
    assert PhaseGood(s, count, p);
    forall v | v in s'.recorded ensures v in s'.ups {
      assert v in s.recorded || v == p.i + 1;
    }
  }

  lemma OtherGood(s: State, count: nat, t: Step, m: nat)
    requires Sound(s, count) && Enabled(s, count, t) && m in s.migrators && m != t.m
    ensures PhaseGood(Do(s, count, t), count, s.migrators[m])
  {
    hide MaxVersion;
    assert PhaseGood(s, count, s.migrators[m]);
  }

  lemma StepSound(s: State, count: nat, t: Step)
    requires Sound(s, count) && Enabled(s, count, t)
    ensures Sound(Do(s, count, t), count)
  {
    var s' := Do(s, count, t);
    MoverGood(s, count, t);
    RowsGood(s, count, t);
    forall m | m in s'.migrators ensures PhaseGood(s', count, s'.migrators[m]) {
      if m != t.m {
        OtherGood(s, count, t, m);
      }
    }
    OneInserted(s, count, t);
    hide PhaseGood, Do, Enabled, Prefix;
  }

  lemma OneInserted(s: State, count: nat, t: Step)
    requires Sound(s, count) && Enabled(s, count, t)
    ensures forall m, o | m in Do(s, count, t).migrators && o in Do(s, count, t).migrators && m != o ::
      !(Do(s, count, t).migrators[m].Inserted? && Do(s, count, t).migrators[o].Inserted?)
  {
    hide MaxVersion;
    var s' := Do(s, count, t);
    if t.Insert? {
      MoverGood(s, count, t);
      forall o | o in s.migrators && o != t.m ensures !s.migrators[o].Inserted? {
        assert PhaseGood(s, count, s.migrators[o]);
        assert PhaseGood(s', count, s'.migrators[t.m]);
      }
    }
  }

  lemma {:induction false} RunSound(ss: seq<State>, count: nat, steps: seq<Step>, n: nat)
    requires IsRun(ss, count, steps) && n < |ss|
    ensures Sound(ss[n], count)
    decreases n
  {
    if n > 0 {
      RunSound(ss, count, steps, n - 1);
      StepSound(ss[n - 1], count, steps[n - 1]);
    }
  }

  /**
   In every interleaving, with failures and reruns anywhere: the recorded versions are 1..k without
   repeats; each recorded version's Up has completed; the Up of a version starts only when all lower
   ones are recorded; and a Migrate that returns nil leaves all recorded.
   */
  lemma MigrationsSafe(ss: seq<State>, count: nat, steps: seq<Step>, n: nat)
    requires IsRun(ss, count, steps) && n < |ss|
    ensures Prefix(ss[n].recorded) && forall v <- ss[n].recorded :: v in ss[n].ups
    ensures n < |steps| && steps[n].StartUp? ==> forall v | 1 <= v <= At(ss[n], steps[n].m).i :: v in ss[n].recorded
    ensures n < |steps| && steps[n].Return? ==> |ss[n + 1].recorded| == count
  {
    RunSound(ss, count, steps, n);
    if n < |steps| {
      RunSound(ss, count, steps, n + 1);
    }
    if n < |steps| && steps[n].StartUp? {
      var p := At(ss[n], steps[n].m);
      assert PhaseGood(ss[n], count, p);
      forall v | 1 <= v <= p.i ensures v in ss[n].recorded {
        assert ss[n].recorded[v - 1] == v;
      }
    }
    if n < |steps| && steps[n].Return? {
      assert PhaseGood(ss[n + 1], count, ss[n + 1].migrators[steps[n].m]);
    }
  }

  /** Where a migrator that was called after everything was recorded can be. */
  predicate Idles(p: Phase, count: nat)
  {
    p.Out? || p.Starting? || p.Tabled? || p.Finished? || (p.Looping? && p.current == count)
  }

  lemma IdleStep(s: State, count: nat, t: Step, m: nat)
    requires Sound(s, count) && |s.recorded| == count && Enabled(s, count, t) && Idles(At(s, m), count)
    ensures Idles(At(Do(s, count, t), m), count)
    ensures t.m == m ==> Harmless(t) && Do(s, count, t).recorded == s.recorded && Do(s, count, t).ups == s.ups
  {
    MaxOfPrefix(s.recorded);
    hide MaxVersion;
  }

  /** Neither a transaction nor an Up nor a row. */
  predicate Harmless(t: Step)
  {
    !t.Begin? && !t.StartUp? && !t.EndUp? && !t.Insert? && !t.Commit? && !t.CommitUnheard?
  }

  /** Once all are recorded no row is added, by any migrator still on its way. */
  lemma FullStays(s: State, count: nat, t: Step)
    requires Sound(s, count) && |s.recorded| == count && Enabled(s, count, t)
    ensures Do(s, count, t).recorded == s.recorded
  {
    hide MaxVersion;
    assert PhaseGood(s, count, At(s, t.m));
  }

  lemma {:induction false} IdlesOn(ss: seq<State>, count: nat, steps: seq<Step>, n: nat, m: nat, k: nat)
    requires IsRun(ss, count, steps) && n <= k < |ss|
    requires |ss[n].recorded| == count && Idles(At(ss[n], m), count)
    ensures ss[k].recorded == ss[n].recorded && Idles(At(ss[k], m), count)
    decreases k
  {
    if k > n {
      IdlesOn(ss, count, steps, n, m, k - 1);
      RunSound(ss, count, steps, k - 1);
      FullStays(ss[k - 1], count, steps[k - 1]);
      IdleStep(ss[k - 1], count, steps[k - 1], m);
    }
  }

  /**
   Once all versions are recorded they stay so, whatever other migrators are still doing, and a migrator
   called from then on, however often, never opens a transaction, runs an Up or adds a row.
   */
  lemma NextMigrateDoesNothing(ss: seq<State>, count: nat, steps: seq<Step>, n: nat, m: nat)
    requires IsRun(ss, count, steps) && n < |ss| && |ss[n].recorded| == count
    requires At(ss[n], m).Out? || At(ss[n], m).Finished?
    ensures forall k | n <= k < |ss| :: ss[k].recorded == ss[n].recorded
    ensures forall k | n <= k < |steps| && steps[k].m == m :: Harmless(steps[k]) && ss[k + 1].ups == ss[k].ups
  {
    hide Enabled, Do, Harmless;
    forall k | n <= k < |ss| ensures ss[k].recorded == ss[n].recorded {
      IdlesOn(ss, count, steps, n, m, k);
    }
    forall k | n <= k < |steps| && steps[k].m == m ensures Harmless(steps[k]) && ss[k + 1].ups == ss[k].ups {
      IdlesOn(ss, count, steps, n, m, k);
      RunSound(ss, count, steps, k);
      IdleStep(ss[k], count, steps[k], m);
    }
  }

  // ---------- Ups that are not recorded

  /** The migrator has run Up of migration i and not yet recorded it. */
  predicate PastUp(p: Phase, i: nat)
  {
    (p.Upped? || p.Inserted?) && p.i == i
  }

  lemma {:induction false} OnlyTheNextUp(ss: seq<State>, count: nat, steps: seq<Step>, n: nat)
    requires IsRun(ss, count, steps) && n < |ss|
    ensures forall v <- ss[n].ups :: 1 <= v <= |ss[n].recorded| + 1
    decreases n
  {
    if n > 0 {
      OnlyTheNextUp(ss, count, steps, n - 1);
      RunSound(ss, count, steps, n - 1);
      assert PhaseGood(ss[n - 1], count, At(ss[n - 1], steps[n - 1].m));
    }
  }

  /**
   A completed Up is unrecorded exactly when it is that of the version after the last recorded one: no
   run ever leaves more than one version in that state.
   */
  lemma UnrecordedUp(ss: seq<State>, count: nat, steps: seq<Step>, n: nat, v: nat)
    requires IsRun(ss, count, steps) && n < |ss| && v in ss[n].ups
    ensures v !in ss[n].recorded <==> v == |ss[n].recorded| + 1
  {
    OnlyTheNextUp(ss, count, steps, n);
    RunSound(ss, count, steps, n);
    InPrefix(ss[n].recorded, v);
  }

  lemma {:induction false} ReachesPastUp(ss: seq<State>, count: nat, steps: seq<Step>, n: nat, k: nat, m: nat, i: nat)
    returns (j: nat)
    requires IsRun(ss, count, steps) && n <= k < |ss|
    requires !PastUp(At(ss[n], m), i) && PastUp(At(ss[k], m), i)
    ensures n <= j < k && steps[j] == EndUp(m) && At(ss[j], m).Upping? && At(ss[j], m).i == i
    decreases k
  {
    if PastUp(At(ss[k - 1], m), i) {
      j := ReachesPastUp(ss, count, steps, n, k - 1, m, i);
    } else {
      j := k - 1;
      hide MaxVersion;
      assert ss[k] == Do(ss[k - 1], count, steps[k - 1]);
    }
  }

  lemma {:induction false} RecordedLater(ss: seq<State>, count: nat, steps: seq<Step>, n: nat, k: nat, v: nat)
    returns (j: nat)
    requires IsRun(ss, count, steps) && n <= k < |ss| && v !in ss[n].recorded && v in ss[k].recorded
    ensures n <= j < k && (steps[j].Commit? || steps[j].CommitUnheard?) && At(ss[j], steps[j].m).Inserted?
    ensures At(ss[j], steps[j].m).i + 1 == v
    decreases k
  {
    if v in ss[k - 1].recorded {
      j := RecordedLater(ss, count, steps, n, k - 1, v);
    } else {
      j := k - 1;
      hide MaxVersion;
      assert ss[k] == Do(ss[k - 1], count, steps[k - 1]);
    }
  }

  /**
   An Up that is done and not recorded runs again before its version is recorded: unless a migrator that
   has run it is still at work, every later state with the version recorded comes after another Up of it.
   */
  lemma UpRunsAgain(ss: seq<State>, count: nat, steps: seq<Step>, n: nat, k: nat, i: nat) returns (j: nat, m: nat)
    requires IsRun(ss, count, steps) && n <= k < |ss|
    requires i + 1 !in ss[n].recorded && forall o :: !PastUp(At(ss[n], o), i)
    requires i + 1 in ss[k].recorded
    ensures n <= j < k && steps[j] == EndUp(m) && ss[j + 1].ups == ss[j].ups + [i + 1]
  {
    var c := RecordedLater(ss, count, steps, n, k, i + 1);
    m := steps[c].m;
    j := ReachesPastUp(ss, count, steps, n, c, m, i);
    assert ss[j + 1] == Do(ss[j], count, steps[j]);
  }

  /** A run of three migrations that ends in s. */
  ghost predicate Reaches(ss: seq<State>, steps: seq<Step>, s: State)
  {
    IsRun(ss, 3, steps) && ss[|steps|] == s
  }

  lemma GoOn(ss: seq<State>, steps: seq<Step>, s: State, t: Step, s': State)
    requires Reaches(ss, steps, s) && Enabled(s, 3, t) && s' == Do(s, 3, t)
    ensures Reaches(ss + [s'], steps + [t], s')
  {
    hide Do, Enabled;
    var ss', steps' := ss + [s'], steps + [t];
    forall i | 0 <= i < |steps'| ensures Enabled(ss'[i], 3, steps'[i]) && ss'[i + 1] == Do(ss'[i], 3, steps'[i]) {
      assert i < |steps| ==> ss'[i + 1] == ss[i + 1] == Do(ss[i], 3, steps[i]);
    }
  }

  const READ: State := State(true, [], [], map[0 := Looping(0, 0)])

  lemma ReachesLoop() returns (ss: seq<State>, steps: seq<Step>)
    ensures Reaches(ss, steps, READ)
  {
    hide Reaches;
    var s1 := State(false, [], [], map[0 := Starting]);
    var s2 := State(true, [], [], map[0 := Tabled]);
    assert Reaches([FRESH], [], FRESH) by {
      NothingDone();
    }
    GoOn([FRESH], [], FRESH, Call(0), s1);
    GoOn([FRESH] + [s1], [] + [Call(0)], s1, CreateTable(0), s2);
    GoOn([FRESH] + [s1] + [s2], [] + [Call(0)] + [CreateTable(0)], s2, ReadVersion(0), READ);
    ss, steps := [FRESH] + [s1] + [s2] + [READ], [] + [Call(0)] + [CreateTable(0)] + [ReadVersion(0)];
  }

  lemma NothingDone()
    ensures Reaches([FRESH], [], FRESH)
  {}

  /** What the transaction does not cover: Up runs outside it, so after a failure it may be done and not recorded. */
  lemma UpOutlivesRollback() returns (ss: seq<State>, steps: seq<Step>, s: State)
    ensures Reaches(ss, steps + [Fail(0)], s) && s.ups == [1] && s.recorded == [] && At(s, 0).Out?
  {
    hide Reaches;
    var s4 := State(true, [], [], map[0 := Begun(0, 0)]);
    var s5 := State(true, [], [], map[0 := Upping(0, 0)]);
    var s6 := State(true, [], [1], map[0 := Upped(0, 0)]);
    s := State(true, [], [1], map[0 := Out]);
    ss, steps := ReachesLoop();
    GoOn(ss, steps, READ, Begin(0), s4);
    ss, steps := ss + [s4], steps + [Begin(0)];
    GoOn(ss, steps, s4, StartUp(0), s5);
    ss, steps := ss + [s5], steps + [StartUp(0)];
    GoOn(ss, steps, s5, EndUp(0), s6);
    ss, steps := ss + [s6], steps + [EndUp(0)];
    GoOn(ss, steps, s6, Fail(0), s);
    ss := ss + [s];
  }

  // ---------- one migrator alone

  /** What happens to a migration that is not skipped. */
  datatype Luck = BeginFails | UpFails | InsertFails | CommitFails | CommitIsUnheard | Fine

  /** Of the migrations from k on, the first that meets a failure has run its Up and is not recorded. */
  predicate UpWasted(luck: seq<Luck>, k: nat)
  {
    exists i | k <= i < |luck| ::
      (luck[i] == InsertFails || luck[i] == CommitFails) && Reached(luck, k, i)
  }

  /** All migrations from k to before i go through. */
  predicate Reached(luck: seq<Luck>, k: nat, i: nat)
    requires i <= |luck|
  {
    forall j | k <= j < i :: luck[j] == Fine
  }

  class Database {
    var table: bool
    var recorded: seq<nat>
    var ups: seq<nat>

    constructor ()
      ensures !table && recorded == [] && ups == []
    {
      table, recorded, ups := false, [], [];
    }

    /** luck[i] is met by migration i; ready says whether the table and the version can be had. */
    method Migrate(ready: bool, luck: seq<Luck>) returns (ok: bool)
      requires Prefix(recorded) && |recorded| <= |luck|
      modifies this
      ensures Prefix(recorded) && |old(recorded)| <= |recorded| <= |luck|
      ensures table == (old(table) || ready)
      ensures forall i | |old(recorded)| <= i < |luck| ::
        i < |recorded| <==>
          ready && Reached(luck, |old(recorded)|, i) && (luck[i] == Fine || luck[i] == CommitIsUnheard)
      ensures |ups| - |old(ups)| ==
        |recorded| - |old(recorded)| + if ready && UpWasted(luck, |old(recorded)|) then 1 else 0
      ensures ups == old(ups) + seq(|ups| - |old(ups)|, i requires 0 <= i => |old(recorded)| + i + 1)
      ensures ok <==> ready && Reached(luck, |old(recorded)|, |luck|)
      ensures ok ==> |recorded| == |luck| && |ups| - |old(ups)| == |luck| - |old(recorded)|
    {
      if !ready {
        return false;
      }
      table := true;
      var currentVersion := MaxVersion(recorded);
      MaxOfPrefix(recorded);
      hide MaxVersion;
      ghost var k := |recorded|;
      for i := 0 to |luck|
        invariant Prefix(recorded) && |recorded| == if i <= k then k else i
        invariant ups == old(ups) + seq(|recorded| - k, i requires 0 <= i => k + i + 1)
        invariant Reached(luck, k, i)
        invariant table && k == |old(recorded)|
      {
        if i + 1 <= currentVersion {
          continue;
        }
        if luck[i] == BeginFails || luck[i] == UpFails {
          return false;
        }
        ups := ups + [i + 1];
        if luck[i] == InsertFails || luck[i] == CommitFails {
          return false;
        }
        recorded := recorded + [i + 1];
        if luck[i] == CommitIsUnheard {
          return false;
        }
      }
      return true;
    }
  }
}
