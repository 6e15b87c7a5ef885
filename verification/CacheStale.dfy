/** When a read may be answered from an old version: the exact conditions, and runs in which it happens. */
module CacheStale {
  import opened Options
  import opened Posts
  import opened Store
  import opened Service
  import opened CacheRace

  // ---------- finding an entry

  /** From s, the action can be taken and leads to s'. */
  predicate Leads(s: World, a: Action, s': World)
  {
    s.history != [] && Enabled(s, a) && s' == Do(s, a)
  }

  lemma SomeThread(ts: set<nat>)
    ensures ts == {} || exists t :: t in ts
  {
    if forall t :: t !in ts {
      assert ts == {};
    }
  }

  lemma {:induction false} UnusedThread(ts: set<nat>) returns (t: nat)
    ensures forall u: nat | u in ts :: u < t
  {
    t := 0;
    SomeThread(ts);
    if u :| u in ts {
      var rest := UnusedThread(ts - {u});
      t := if rest > u then rest else u + 1;
      forall v: nat | v in ts ensures v < t {
        assert v == u || v in ts - {u};
      }
    }
  }

  /** Whoever reads a key whose entry has not expired is answered with the entry. */
  lemma FindsEntry(s: World, t: nat, k: Key) returns (s1: World, s2: World, s3: World)
    requires s.history != [] && At(s, t).Idle? && k in s.cache && s.now <= s.cache[k].expiration
    ensures Leads(s, Begin(t, k), s1) && Leads(s1, Lookup(t), s2) && Leads(s2, Check(t), s3)
    ensures t in s3.threads && s3.threads[t] == Served(k, Floor(s, k), Some(s.cache[k].value), s.cache[k].version)
  {
    hide View, Applied;
    s1 := s.(threads := s.threads[t := Looking(k, Floor(s, k))]);
    s2 := s.(threads := s1.threads[t := Checking(k, Floor(s, k), s.cache[k])]);
    s3 := s.(threads := s2.threads[t := Served(k, Floor(s, k), Some(s.cache[k].value), s.cache[k].version)]);
  }

  /** The same as a run of its own, by a thread not seen before. */
  lemma EntryIsServed(s: World, k: Key) returns (ss: seq<World>, acts: seq<Action>, t: nat)
    requires s.history != [] && k in s.cache && s.now <= s.cache[k].expiration
    ensures IsRun(ss, acts) && ss[0] == s && acts == [Begin(t, k), Lookup(t), Check(t)]
    ensures Answered(ss, acts, 0, 3, t) && At(ss[3], t).k == k && At(ss[3], t).version == s.cache[k].version
  {
    t := UnusedThread(s.threads.Keys);
    var s1, s2, s3 := FindsEntry(s, t, k);
    hide Do, Enabled;
    ss, acts := [s, s1, s2, s3], [Begin(t, k), Lookup(t), Check(t)];
    assert s3.history != [] by {
      assert s2.history <= s3.history;
    }
  }

  // ---------- fills in time

  /** From s on, with fills in time, some read begun later may be answered from an invalidated version. */
  ghost predicate StaleReadFrom(s: World)
  {
    exists ss: seq<World>, acts: seq<Action>, i: nat, n: nat, t: nat ::
      IsRun(ss, acts) && ss[0] == s && FillsInTime(ss, acts) && StaleRead(ss, acts, i, n, t)
  }

  ghost predicate StaleRead(ss: seq<World>, acts: seq<Action>, i: nat, n: nat, t: nat)
    requires IsRun(ss, acts)
  {
    Answered(ss, acts, i, n, t) && At(ss[n], t).version < Floor(ss[i], acts[i].k)
  }

  /** After a late fill the next read of its key is stale. */
  lemma LateFillIsServed(s: World, a: Action)
    requires s.history != [] && Enabled(s, a) && a.Fill? && !FillInTime(s, a)
    ensures StaleReadFrom(Do(s, a))
  {
    var s', k := Do(s, a), At(s, a.t).k;
    assert k in s'.cache && s'.cache[k] == Slot(At(s, a.t).value, At(s, a.t).version, s.now, s.now + Ttl(k));
    assert Floor(s', k) == Floor(s, k);
    hide Do, Enabled, View;
    var ss, acts, t := EntryIsServed(s', k);
    assert FillsInTime(ss, acts);
    assert StaleRead(ss, acts, 0, 3, t);
  }

  /**
   All fills of a run are in time exactly when, whatever state of it is continued with fills in time, no
   read begun after that state is ever answered from a version its key was invalidated for before.
   */
  lemma FreshIffFillsInTime(ss: seq<World>, acts: seq<Action>)
    requires IsRun(ss, acts) && Initial(ss[0])
    ensures FillsInTime(ss, acts) <==> forall m | 0 <= m < |ss| :: !StaleReadFrom(ss[m])
  {
    hide Do, Enabled;
    InitialIsFresh(ss[0]);
    if FillsInTime(ss, acts) {
      forall m | 0 <= m < |ss| ensures !StaleReadFrom(ss[m]) {
        RunsStayReal(ss, acts, m);
        RunsStayFresh(ss, acts, m);
        FreshIsNotStale(ss[m]);
      }
    } else {
      var j :| 0 <= j < |acts| && !FillInTime(ss[j], acts[j]);
      LateFillIsServed(ss[j], acts[j]);
      assert StaleReadFrom(ss[j + 1]);
    }
  }

  lemma FreshIsNotStale(s: World)
    requires Real(s) && Fresh(s)
    ensures !StaleReadFrom(s)
  {
    hide Do, Enabled, Real, Fresh;
    if ss: seq<World>, acts: seq<Action>, i: nat, n: nat, t: nat
      :| IsRun(ss, acts) && ss[0] == s && FillsInTime(ss, acts) && StaleRead(ss, acts, i, n, t)
    {
      ReadsAfterInvalidateAreFresh(ss, acts, i, n, t);
      assert false;
    }
  }

  // ---------- what a create that does not invalidate the post lets through

  /** From s on, with clean fills, some read of k begun later may be answered from a version before w. */
  ghost predicate OldReadFrom(s: World, k: Key, w: nat)
  {
    exists ss: seq<World>, acts: seq<Action>, i: nat, n: nat, t: nat ::
      IsRun(ss, acts) && ss[0] == s && AllClean(ss, acts) && OldRead(ss, acts, i, n, t, k, w)
  }

  ghost predicate AllClean(ss: seq<World>, acts: seq<Action>)
    requires IsRun(ss, acts)
  {
    forall j | 0 <= j < |acts| :: CleanFill(ss[j], acts[j])
  }

  ghost predicate OldRead(ss: seq<World>, acts: seq<Action>, i: nat, n: nat, t: nat, k: Key, w: nat)
    requires IsRun(ss, acts)
  {
    Answered(ss, acts, i, n, t) && acts[i].k == k && At(ss[n], t).version < w
  }

  /** A read of k can no longer find an entry older than w. */
  predicate OldGone(s: World, k: Key, w: nat)
  {
    k in s.cache ==> w <= s.cache[k].version || s.now > s.cache[k].expiration
  }

  /** Nor has this reader found one. */
  predicate Young(s: World, th: Thread, k: Key, w: nat)
  {
    match th
    case Looking(k', _) => k' == k
    case Checking(k', _, slot) => k' == k && (w <= slot.version || s.now > slot.expiration)
    case Dropping(k', _) => k' == k
    case Missed(k', _) => k' == k
    case Holding(k', _, _, version) => k' == k && w <= version
    case Served(k', _, _, version) => k' == k && w <= version
    case _ => false
  }

  lemma OldStaysGone(s: World, a: Action, k: Key, w: nat)
    requires s.history != [] && w <= Version(s) && OldGone(s, k, w) && Enabled(s, a) && CleanFill(s, a)
    ensures OldGone(Do(s, a), k, w) && w <= Version(Do(s, a))
  {
    hide View, Applied;
  }

  lemma StaysYoung(s: World, a: Action, t: nat, k: Key, w: nat)
    requires s.history != [] && w <= Version(s) && OldGone(s, k, w) && Enabled(s, a)
    requires Young(s, At(s, t), k, w) && !(a.Begin? && a.t == t) && !(a.Finish? && a.t == t)
    ensures Young(Do(s, a), At(Do(s, a), t), k, w)
  {
    hide View, Applied;
  }

  lemma {:induction false} RunsStayGone(ss: seq<World>, acts: seq<Action>, n: nat, k: Key, w: nat)
    requires IsRun(ss, acts) && AllClean(ss, acts) && n < |ss| && w <= Version(ss[0]) && OldGone(ss[0], k, w)
    ensures OldGone(ss[n], k, w) && w <= Version(ss[n])
    decreases n
  {
    hide Do, Enabled, OldGone, CleanFill;
    if n > 0 {
      RunsStayGone(ss, acts, n - 1, k, w);
      assert CleanFill(ss[n - 1], acts[n - 1]);
      OldStaysGone(ss[n - 1], acts[n - 1], k, w);
    }
  }

  lemma {:induction false} ReaderStaysYoung(
    ss: seq<World>, acts: seq<Action>, i: nat, n: nat, t: nat, k: Key, w: nat)
    requires IsRun(ss, acts) && AllClean(ss, acts) && w <= Version(ss[0]) && OldGone(ss[0], k, w)
    requires i < |acts| && acts[i] == Begin(t, k) && i < n < |ss|
    requires forall j | i < j < n :: !(acts[j].Begin? && acts[j].t == t) && !(acts[j].Finish? && acts[j].t == t)
    ensures Young(ss[n], At(ss[n], t), k, w)
    decreases n
  {
    hide Do, Enabled, OldGone, CleanFill, Young, At;
    assert ss[n] == Do(ss[n - 1], acts[n - 1]);
    if n - 1 > i {
      ReaderStaysYoung(ss, acts, i, n - 1, t, k, w);
      RunsStayGone(ss, acts, n - 1, k, w);
      StaysYoung(ss[n - 1], acts[n - 1], t, k, w);
    } else {
      StartsYoung(ss[i], acts[i], w);
    }
  }

  lemma StartsYoung(s: World, a: Action, w: nat)
    requires s.history != [] && Enabled(s, a) && a.Begin?
    ensures Young(Do(s, a), At(Do(s, a), a.t), a.k, w)
  {}

  /**
   With clean fills from here on, a later read of a key can be answered from a version before w exactly
   when the cache holds an entry for it that is older than w and has not expired.
   */
  lemma OldReadIffOldEntry(s: World, k: Key, w: nat)
    requires s.history != [] && w <= Version(s)
    ensures OldReadFrom(s, k, w) <==> k in s.cache && s.cache[k].version < w && s.now <= s.cache[k].expiration
  {
    hide Do, Enabled;
    if k in s.cache && s.cache[k].version < w && s.now <= s.cache[k].expiration {
      var ss, acts, t := EntryIsServed(s, k);
      assert AllClean(ss, acts);
      assert OldRead(ss, acts, 0, 3, t, k, w);
    } else if ss: seq<World>, acts: seq<Action>, i: nat, n: nat, t: nat
      :| IsRun(ss, acts) && ss[0] == s && AllClean(ss, acts) && OldRead(ss, acts, i, n, t, k, w)
    {
      assert acts[i] == Begin(t, k);
      ReaderStaysYoung(ss, acts, i, n, t, k, w);
      assert false;
    }
  }

  /** The id the next create takes. */
  function NextId(s: World): int
    requires s.history != []
  {
    MaxId(Current(s)) + 1
  }

  /**
   After a create of post x has been written, a read of x begun later can miss it exactly when an entry
   for x, left from an earlier post with that id, is still in the cache and has not expired.
   */
  lemma CreateMissedIff(s: World, t: nat, p: Post)
    requires Real(s) && Enabled(s, Write(t, Insert(p)))
    ensures var x := Of(NextId(s));
      OldReadFrom(Do(s, Write(t, Insert(p))), x, |s.history|) <==> x in s.cache && s.now <= s.cache[x].expiration
  {
    var s', x := Do(s, Write(t, Insert(p))), Of(NextId(s));
    assert s'.cache == s.cache && s'.now == s.now && Version(s') == |s.history|;
    assert x in s.cache ==> SlotGood(s, x, s.cache[x]);
    hide Do, Enabled, View;
    OldReadIffOldEntry(s', x, |s.history|);
  }

  /** While fills are in time, only a delete of x that is still to invalidate leaves such an entry. */
  lemma CreateMissedNeedsPendingDelete(ss: seq<World>, acts: seq<Action>, n: nat, t: nat, p: Post)
    requires IsRun(ss, acts) && Initial(ss[0]) && IsStore(Current(ss[0])) && FillsInTime(ss, acts) && n < |ss|
    requires Enabled(ss[n], Write(t, Insert(p)))
    requires OldReadFrom(Do(ss[n], Write(t, Insert(p))), Of(NextId(ss[n])), |ss[n].history|)
    ensures exists u :: At(ss[n], u).Wrote? && Of(NextId(ss[n])) in At(ss[n], u).pending
  {
    var s, x := ss[n], Of(NextId(ss[n]));
    InitialIsFresh(ss[0]);
    RunsStayReal(ss, acts, n);
    assert View(x, Current(s)) == None;
    hide Do, Enabled, View;
    CreateMissedIff(s, t, p);
    OnlyPendingEntriesAreStale(ss, acts, n, x);
    var u :| Owes(s, u, x, s.cache[x].version);
  }

  /** Dropping the post's key too would close the gap: after any writer has dropped a key, no read of it misses. */
  lemma DroppingSuffices(s: World, t: nat, w: nat)
    requires Real(s) && Enabled(s, Invalidate(t)) && w <= Version(s)
    ensures !OldReadFrom(Do(s, Invalidate(t)), At(s, t).pending[0], w)
  {
    var s', k := Do(s, Invalidate(t)), At(s, t).pending[0];
    assert k !in s'.cache && Version(s') == Version(s);
    hide Do, Enabled, View;
    OldReadIffOldEntry(s', k, w);
  }

  // ---------- what can go wrong

  const OLD := Post(1, 7, [0x61], [0x62], ZERO, ZERO)
  const NEW := Post(1, 7, [0x63], [0x62], ZERO, ZERO)

  const HELD := Holding(Of(1), 0, One(OLD), 0)
  const SLOT := Slot(One(OLD), 0, 0, TTL_POST)
  const GOT_OLD := Served(Of(1), 0, Some(One(OLD)), 0)

  /** A run from the start to the world now, all its fills clean if clean is set. */
  ghost predicate Story(ss: seq<World>, acts: seq<Action>, now: World, clean: bool)
  {
    && IsRun(ss, acts) && Initial(ss[0]) && ss[|acts|] == now
    && (clean ==> forall j | 0 <= j < |acts| :: CleanFill(ss[j], acts[j]))
  }

  lemma GoOn(ss: seq<World>, acts: seq<Action>, s: World, clean: bool, a: Action, s': World)
    requires Story(ss, acts, s, clean) && Leads(s, a, s') && (clean ==> CleanFill(s, a))
    ensures Story(ss + [s'], acts + [a], s', clean)
  {
    hide Do, Enabled, CleanFill;
    var ss', acts' := ss + [s'], acts + [a];
    forall i | 0 <= i < |acts'| ensures Enabled(ss'[i], acts'[i]) && ss'[i + 1] == Do(ss'[i], acts'[i]) {
      assert i < |acts| ==> ss'[i + 1] == ss[i + 1] == Do(ss[i], acts[i]);
    }
  }

  lemma GoOnTwice(ss: seq<World>, acts: seq<Action>, s: World, a: Action, s1: World, b: Action, s2: World)
    requires Story(ss, acts, s, true) && Leads(s, a, s1) && Leads(s1, b, s2) && !a.Fill? && !b.Fill?
    ensures Story(ss + [s1, s2], acts + [a, b], s2, true)
  {
    GoOn(ss, acts, s, true, a, s1);
    GoOn(ss + [s1], acts + [a], s1, true, b, s2);
    hide Story;
    assert ss + [s1] + [s2] == ss + [s1, s2] && acts + [a] + [b] == acts + [a, b];
  }

  const READING: World := World([[OLD]], map[], 0, map[1 := HELD], map[])

  /** A reader of post 1 has read it from the store and holds it. */
  lemma HoldsOld() returns (ss: seq<World>, acts: seq<Action>)
    ensures Story(ss, acts, READING, true) && acts == [Begin(1, Of(1)), Lookup(1), ReadStore(1)]
  {
    var s0 := World([[OLD]], map[], 0, map[], map[]);
    var s1 := World([[OLD]], map[], 0, map[1 := Looking(Of(1), 0)], map[]);
    var s2 := World([[OLD]], map[], 0, map[1 := Missed(Of(1), 0)], map[]);
    assert Leads(s0, Begin(1, Of(1)), s1);
    assert Leads(s1, Lookup(1), s2);
    assert Leads(s2, ReadStore(1), READING);
    assert Story([s0], [], s0, true);
    hide Leads, Story, READING;
    GoOn([s0], [], s0, true, Begin(1, Of(1)), s1);
    GoOnTwice([s0] + [s1], [] + [Begin(1, Of(1))], s1, Lookup(1), s2, ReadStore(1), READING);
    ss, acts := [s0] + [s1] + [s2, READING], [] + [Begin(1, Of(1))] + [Lookup(1), ReadStore(1)];
  }

  const INVALIDATED: World :=
    World([[OLD], [NEW]], map[], 0, map[1 := HELD, 2 := Wrote(1, [])], map[All := 1, Of(1) := 1])

  const UPDATED: World :=
    World([[OLD], [NEW]], map[], 0, map[1 := HELD, 2 := Wrote(1, [All, Of(1)])], map[])

  /** A writer updates the post. */
  lemma WritesNew() returns (s3: World)
    ensures Leads(READING, ReadForUpdate(2, 1), s3) && Leads(s3, Write(2, Replace(NEW)), UPDATED)
  {
    s3 := World([[OLD]], map[], 0, map[1 := HELD, 2 := Editing(1, OLD, 0)], map[]);
    assert Leads(READING, ReadForUpdate(2, 1), s3);
    assert Replaced([OLD], NEW) == [NEW];
  }

  /** And invalidates it. */
  lemma InvalidatesOld() returns (s5: World)
    ensures Leads(UPDATED, Invalidate(2), s5) && Leads(s5, Invalidate(2), INVALIDATED)
  {
    hide View, Applied, OLD, NEW, HELD;
    s5 := World([[OLD], [NEW]], map[], 0, map[1 := HELD, 2 := Wrote(1, [Of(1)])], map[All := 1]);
    assert [All, Of(1)][1..] == [Of(1)] && [Of(1)][1..] == [];
  }

  /** The reader fills late. */
  lemma FillsOld() returns (s7: World)
    ensures Leads(INVALIDATED, Fill(1), s7)
    ensures s7.history == [[OLD], [NEW]] && s7.now == 0 && 3 !in s7.threads
    ensures s7.cache == map[Of(1) := SLOT] && s7.floor == map[All := 1, Of(1) := 1]
  {
    s7 := Do(INVALIDATED, Fill(1));
  }

  /**
   Without the condition: a reader holds the old post while a writer updates it and invalidates, then
   fills late. A read begun after the invalidation answers with the old post.
   */
  lemma LateFillServesOldPost() returns (ss: seq<World>, acts: seq<Action>, before: World, end: World)
    ensures Story(ss, acts, end, false) && |acts| == 11
    ensures ss[8] == before && acts[8] == Begin(3, Of(1))
    ensures before.history == [[OLD], [NEW]] && Floor(before, Of(1)) == 1
    ensures 3 in end.threads && end.threads[3] == Served(Of(1), 1, Some(One(OLD)), 0)
  {
    ss, acts := HoldsOld();
    var s3 := WritesNew();
    var s5 := InvalidatesOld();
    var s7 := FillsOld();
    var s8, s9, s10 := FindsEntry(s7, 3, Of(1));
    hide Leads, OLD, NEW, SLOT, READING, UPDATED, INVALIDATED;
    GoOnTwice(ss, acts, READING, ReadForUpdate(2, 1), s3, Write(2, Replace(NEW)), UPDATED);
    ss, acts := ss + [s3, UPDATED], acts + [ReadForUpdate(2, 1), Write(2, Replace(NEW))];
    GoOnTwice(ss, acts, UPDATED, Invalidate(2), s5, Invalidate(2), INVALIDATED);
    ss, acts := ss + [s5, INVALIDATED], acts + [Invalidate(2), Invalidate(2)];
    CleanOrNot(ss, acts, INVALIDATED);
    hide Story;
    GoOn(ss, acts, INVALIDATED, false, Fill(1), s7);
    GoOn(ss + [s7], acts + [Fill(1)], s7, false, Begin(3, Of(1)), s8);
    GoOn(ss + [s7] + [s8], acts + [Fill(1)] + [Begin(3, Of(1))], s8, false, Lookup(3), s9);
    GoOn(ss + [s7] + [s8] + [s9], acts + [Fill(1)] + [Begin(3, Of(1))] + [Lookup(3)], s9, false, Check(3), s10);
    before, end := s7, s10;
    StoryLength(ss, acts, INVALIDATED, false);
    ss := ss + [s7] + [s8] + [s9] + [s10];
    acts := acts + [Fill(1)] + [Begin(3, Of(1))] + [Lookup(3)] + [Check(3)];
  }

  lemma CleanOrNot(ss: seq<World>, acts: seq<Action>, s: World)
    requires Story(ss, acts, s, true)
    ensures Story(ss, acts, s, false)
  {}

  lemma StoryLength(ss: seq<World>, acts: seq<Action>, s: World, clean: bool)
    requires Story(ss, acts, s, clean)
    ensures |ss| == |acts| + 1
  {}

  const DELETING: World :=
    World([[OLD], []], map[Of(1) := SLOT], 0, map[1 := GOT_OLD, 2 := Wrote(1, [All, Of(1)])], map[])

  /** The fill, and then a delete that has not invalidated yet. */
  lemma DeletesOld() returns (s4: World)
    ensures Leads(READING, Fill(1), s4) && Leads(s4, Write(2, Erase(1)), DELETING)
    ensures CleanFill(READING, Fill(1))
  {
    s4 := World([[OLD]], map[Of(1) := SLOT], 0, map[1 := GOT_OLD], map[]);
    assert Removed([OLD], 1) == [] by {
      assert [OLD][..0] == [];
    }
  }

  const CREATED: World :=
    World([[OLD], [], [NEW]], map[Of(1) := SLOT], 0,
      map[1 := GOT_OLD, 2 := Wrote(1, [All, Of(1)]), 3 := Wrote(2, [All])], map[])

  /** A create takes the id again. */
  lemma CreatesNew()
    ensures Leads(DELETING, Write(3, Insert(NEW)), CREATED)
  {
    assert MaxId([]) == 0 && [] + [NEW] == [NEW];
  }

  /** It invalidates the list and returns. */
  lemma CreateReturns() returns (s7: World, s8: World)
    ensures Leads(CREATED, Invalidate(3), s7) && Leads(s7, Finish(3), s8)
    ensures s8.history == [[OLD], [], [NEW]] && s8.now == 0 && s8.cache == map[Of(1) := SLOT] && 4 !in s8.threads
  {
    hide View, Applied, OLD, NEW, GOT_OLD, SLOT;
    s7 := CREATED.(threads := CREATED.threads[3 := Wrote(2, [])], floor := map[All := 2]);
    assert [All][1..] == [];
    s8 := s7.(threads := s7.threads[3 := Idle]);
  }

  /**
   Create drops only the list. With a delete of the same id not yet invalidated, a read begun after the
   create has returned answers with the deleted post, although every fill is clean.
   */
  lemma CreateServesDeletedPost() returns (ss: seq<World>, acts: seq<Action>, before: World, end: World)
    ensures Story(ss, acts, end, true) && |acts| == 11
    ensures ss[8] == before && before.history == [[OLD], [], [NEW]]
    ensures acts[5] == Write(3, Insert(NEW)) && acts[7] == Finish(3) && acts[8] == Begin(4, Of(1))
    ensures 4 in end.threads && end.threads[4].Served? && end.threads[4].answer == Some(One(OLD))
  {
    ss, acts := HoldsOld();
    var s4 := DeletesOld();
    CreatesNew();
    var s7, s8 := CreateReturns();
    var s9, s10, s11 := FindsEntry(s8, 4, Of(1));
    hide Leads, OLD, NEW, SLOT, READING, DELETING, CREATED;
    StoryLength(ss, acts, READING, true);
    hide Story;
    GoOn(ss, acts, READING, true, Fill(1), s4);
    GoOn(ss + [s4], acts + [Fill(1)], s4, true, Write(2, Erase(1)), DELETING);
    ss, acts := ss + [s4] + [DELETING], acts + [Fill(1)] + [Write(2, Erase(1))];
    GoOnTwice(ss, acts, DELETING, Write(3, Insert(NEW)), CREATED, Invalidate(3), s7);
    ss, acts := ss + [CREATED, s7], acts + [Write(3, Insert(NEW)), Invalidate(3)];
    GoOnTwice(ss, acts, s7, Finish(3), s8, Begin(4, Of(1)), s9);
    ss, acts := ss + [s8, s9], acts + [Finish(3), Begin(4, Of(1))];
    GoOnTwice(ss, acts, s9, Lookup(4), s10, Check(4), s11);
    before, end := s8, s11;
    ss, acts := ss + [s10, s11], acts + [Lookup(4), Check(4)];
  }

  /** The two posts differ. */
  lemma OldIsNotNew()
    ensures View(Of(1), [OLD]) == Some(One(OLD)) && View(Of(1), [NEW]) == Some(One(NEW)) && OLD != NEW
  {
    assert OLD.title != NEW.title;
  }
}
