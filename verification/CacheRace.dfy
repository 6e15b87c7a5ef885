/**
 Readers and writers of the service interleaved at every cache and storage access. A thread is one
 call; the lock around each access makes it one step.
 */
module CacheRace {
  import opened Options
  import opened Posts
  import opened Store
  import opened Service

  /** The two kinds of cache key; their strings never collide. */
  datatype Key = All | Of(id: int)

  /** What a fill would cache for the key. */
  function View(k: Key, posts: seq<Post>): Option<Cached>
  {
    match k
    case All => Some(Many(posts))
    case Of(id) => if Find(posts, id).Some? then Some(One(Find(posts, id).value)) else None
  }

  function Ttl(k: Key): nat
  {
    if k.All? then TTL_ALL else TTL_POST
  }

  /** An entry remembers the version of the store it was read from and when it was set. */
  datatype Slot = Slot(value: Cached, version: nat, setAt: int, expiration: int)

  /** since is the oldest version a fresh answer may show: see floor. */
  datatype Thread =
    | Idle
    | Looking(k: Key, since: nat)
    | Checking(k: Key, since: nat, slot: Slot)
    | Dropping(k: Key, since: nat)
    | Missed(k: Key, since: nat)
    | Holding(k: Key, since: nat, value: Cached, version: nat)
    | Served(k: Key, since: nat, answer: Option<Cached>, version: nat)
    | Editing(id: int, post: Post, version: nat)  // an update that has read the post
    | Wrote(version: nat, pending: seq<Key>)

  /**
   history holds every version of the store, the current one last. floor[k] is the newest version whose
   writer has dropped k from the cache.
   */
  datatype World = World(
    history: seq<seq<Post>>, cache: map<Key, Slot>, now: int, threads: map<nat, Thread>, floor: map<Key, nat>)

  datatype Change = Insert(post: Post) | Replace(post: Post) | Erase(id: int)

  datatype Action =
    | Tick(d: nat)
    | Sweep(at: int)
    | Begin(t: nat, k: Key)
    | Lookup(t: nat)
    | Check(t: nat)
    | DropExpired(t: nat)
    | ReadStore(t: nat)
    | Fill(t: nat)
    | ReadForUpdate(t: nat, id: int)
    | Write(t: nat, c: Change)
    | Invalidate(t: nat)
    | Finish(t: nat)

  function At(s: World, t: nat): Thread
  {
    if t in s.threads then s.threads[t] else Idle
  }

  function Floor(s: World, k: Key): nat
  {
    if k in s.floor then s.floor[k] else 0
  }

  function Current(s: World): seq<Post>
    requires s.history != []
  {
    s.history[|s.history| - 1]
  }

  function Version(s: World): nat
    requires s.history != []
  {
    |s.history| - 1
  }

  function Applied(posts: seq<Post>, c: Change): seq<Post>
  {
    match c
    case Insert(p) => posts + [p.(id := MaxId(posts) + 1)]
    case Replace(p) => Replaced(posts, p)
    case Erase(id) => Removed(posts, id)
  }

  /** An update or a delete of a missing post writes nothing. */
  predicate Applies(posts: seq<Post>, c: Change)
  {
    match c
    case Insert(_) => true
    case Replace(p) => Find(posts, p.id).Some?
    case Erase(id) => Find(posts, id).Some?
  }

  /** The keys invalidate drops: a create passes id 0. */
  function Drops(c: Change): seq<Key>
  {
    match c
    case Insert(_) => [All]
    case Replace(p) => if p.id == 0 then [All] else [All, Of(p.id)]
    case Erase(id) => if id == 0 then [All] else [All, Of(id)]
  }

  predicate Enabled(s: World, a: Action)
    requires s.history != []
  {
    match a
    case Tick(_) => true
    case Sweep(at) => at <= s.now
    case Begin(t, _) => At(s, t).Idle?
    case Lookup(t) => At(s, t).Looking?
    case Check(t) => At(s, t).Checking?
    case DropExpired(t) => At(s, t).Dropping?
    case ReadStore(t) => At(s, t).Missed?
    case Fill(t) => At(s, t).Holding?
    case ReadForUpdate(t, id) => At(s, t).Idle? && Find(Current(s), id).Some?
    case Write(t, c) =>
      Applies(Current(s), c) &&
      (if c.Replace? then At(s, t).Editing? && At(s, t).id == c.post.id else At(s, t).Idle?)
    case Invalidate(t) => At(s, t).Wrote? && At(s, t).pending != []
    case Finish(t) => At(s, t).Served? || At(s, t).Editing? || (At(s, t).Wrote? && At(s, t).pending == [])
  }

  function Goes(s: World, t: nat, th: Thread): World
  {
    s.(threads := s.threads[t := th])
  }

  function Do(s: World, a: Action): (s': World)
    requires s.history != [] && Enabled(s, a)
    ensures s.history <= s'.history
  {
    match a
    case Tick(d) => s.(now := s.now + d)
    case Sweep(at) => s.(cache := map k | k in s.cache && !(at > s.cache[k].expiration) :: s.cache[k])
    case Begin(t, k) => Goes(s, t, Looking(k, Floor(s, k)))
    case Lookup(t) =>
      var th := At(s, t);
      Goes(s, t, if th.k in s.cache then Checking(th.k, th.since, s.cache[th.k]) else Missed(th.k, th.since))
    case Check(t) =>
      var th := At(s, t);
      Goes(s, t, if s.now > th.slot.expiration then Dropping(th.k, th.since)
                 else Served(th.k, th.since, Some(th.slot.value), th.slot.version))
    case DropExpired(t) =>
      var th := At(s, t);
      Goes(s, t, Missed(th.k, th.since)).(cache := s.cache - {th.k})
    case ReadStore(t) =>
      var th := At(s, t);
      var v := View(th.k, Current(s));
      Goes(s, t, if v.Some? then Holding(th.k, th.since, v.value, Version(s))
                 else Served(th.k, th.since, None, Version(s)))
    case Fill(t) =>
      var th := At(s, t);
      Goes(s, t, Served(th.k, th.since, Some(th.value), th.version)).(
        cache := s.cache[th.k := Slot(th.value, th.version, s.now, s.now + Ttl(th.k))])
    case ReadForUpdate(t, id) => Goes(s, t, Editing(id, Find(Current(s), id).value, Version(s)))
    case Write(t, c) =>
      Goes(s, t, Wrote(|s.history|, Drops(c))).(history := s.history + [Applied(Current(s), c)])
    case Invalidate(t) =>
      var th := At(s, t);
      var k := th.pending[0];
      Goes(s, t, Wrote(th.version, th.pending[1..])).(
        cache := s.cache - {k}, floor := s.floor[k := if th.version > Floor(s, k) then th.version else Floor(s, k)])
    case Finish(t) => Goes(s, t, Idle)
  }

  /** ss are the states of a run that takes the actions acts. */
  ghost predicate IsRun(ss: seq<World>, acts: seq<Action>)
  {
    && |ss| == |acts| + 1
    && (forall i | 0 <= i < |ss| :: ss[i].history != [])
    && forall i | 0 <= i < |acts| :: Enabled(ss[i], acts[i]) && ss[i + 1] == Do(ss[i], acts[i])
  }

  /** An empty cache over some store, nobody at work. */
  predicate Initial(s: World)
  {
    |s.history| == 1 && s.cache == map[] && s.threads == map[] && s.floor == map[]
  }

  // ---------- in every interleaving

  /** The store really held the value at that version. */
  predicate Held(s: World, k: Key, value: Cached, version: nat)
  {
    version < |s.history| && View(k, s.history[version]) == Some(value)
  }

  predicate SlotGood(s: World, k: Key, slot: Slot)
  {
    Held(s, k, slot.value, slot.version) && slot.setAt <= s.now && slot.expiration == slot.setAt + Ttl(k)
  }

  predicate ThreadGood(s: World, th: Thread)
  {
    match th
    case Checking(k, _, slot) => SlotGood(s, k, slot)
    case Holding(k, _, value, version) => Held(s, k, value, version)
    case Served(k, _, answer, version) => version < |s.history| && View(k, s.history[version]) == answer
    case Editing(id, post, version) => Held(s, Of(id), One(post), version)
    case Wrote(version, _) => version < |s.history|
    case _ => true
  }

  ghost predicate Real(s: World)
  {
    && s.history != []
    && (forall k <- s.cache :: SlotGood(s, k, s.cache[k]))
    && (forall t <- s.threads :: ThreadGood(s, s.threads[t]))
    && (forall k <- s.floor :: s.floor[k] < |s.history|)
  }

  lemma StillGood(s: World, s': World, th: Thread)
    requires s.history <= s'.history && s.now <= s'.now && ThreadGood(s, th)
    ensures ThreadGood(s', th)
  {}

  lemma SlotStillGood(s: World, s': World, k: Key, slot: Slot)
    requires s.history <= s'.history && s.now <= s'.now && SlotGood(s, k, slot)
    ensures SlotGood(s', k, slot)
  {}

  lemma TheMover(s: World, a: Action)
    requires Real(s) && Enabled(s, a) && !a.Tick? && !a.Sweep?
    ensures a.t in Do(s, a).threads && ThreadGood(Do(s, a), Do(s, a).threads[a.t])
  {
    assert a.ReadForUpdate? ==> View(Of(a.id), Current(s)) == Some(One(Find(Current(s), a.id).value));
    hide View, Applied;
  }

  lemma StepsStayReal(s: World, a: Action)
    requires Real(s) && Enabled(s, a)
    ensures Real(Do(s, a))
  {
    var s' := Do(s, a);
    if !a.Tick? && !a.Sweep? {
      TheMover(s, a);
    }
    hide ThreadGood, View, Applied;
    forall t | t in s'.threads ensures ThreadGood(s', s'.threads[t]) {
      if a.Tick? || a.Sweep? || t != a.t {
        StillGood(s, s', s.threads[t]);
      }
    }
    forall k | k in s'.cache ensures SlotGood(s', k, s'.cache[k]) {
      FilledIsGood(s, a, k);
    }
  }

  lemma FilledIsGood(s: World, a: Action, k: Key)
    requires Real(s) && Enabled(s, a) && k in Do(s, a).cache
    ensures SlotGood(Do(s, a), k, Do(s, a).cache[k])
  {
    hide View, Applied;
    if k in s.cache && Do(s, a).cache[k] == s.cache[k] {
      SlotStillGood(s, Do(s, a), k, s.cache[k]);
    } else {
      assert a.Fill? && ThreadGood(s, At(s, a.t));
    }
  }

  lemma {:induction false} RunsStayReal(ss: seq<World>, acts: seq<Action>, n: nat)
    requires IsRun(ss, acts) && Real(ss[0]) && n < |ss|
    ensures Real(ss[n])
    decreases n
  {
    if n > 0 {
      RunsStayReal(ss, acts, n - 1);
      StepsStayReal(ss[n - 1], acts[n - 1]);
    }
  }

  /**
   In every interleaving an answer, from the cache or not, is one the store really held; one from the
   cache was set at most its time to live ago.
   */
  lemma ServedWasHeld(ss: seq<World>, acts: seq<Action>, n: nat, t: nat)
    requires IsRun(ss, acts) && Initial(ss[0]) && n < |acts| && At(ss[n + 1], t).Served?
    ensures var th := At(ss[n + 1], t);
      th.version < |ss[n + 1].history| && View(th.k, ss[n + 1].history[th.version]) == th.answer
    ensures acts[n].Check? && acts[n].t == t ==>
      var th := At(ss[n], t);
      At(ss[n + 1], t).answer == Some(th.slot.value) && th.slot.setAt <= ss[n].now <= th.slot.setAt + Ttl(th.k)
  {
    RunsStayReal(ss, acts, n);
    RunsStayReal(ss, acts, n + 1);
    hide View;
    assert ThreadGood(ss[n + 1], At(ss[n + 1], t));
    if acts[n].Check? {
      assert ThreadGood(ss[n], At(ss[n], acts[n].t));
    }
  }

  // ---------- freshness, and when it holds

  /** The fill does not put back a version that an invalidation of its key has already outdated. */
  predicate FillInTime(s: World, a: Action)
    requires s.history != [] && Enabled(s, a)
  {
    a.Fill? ==> At(s, a.t).version >= Floor(s, At(s, a.t).k)
  }

  /** The fill follows its read with no write in between. */
  predicate CleanFill(s: World, a: Action)
    requires s.history != [] && Enabled(s, a)
  {
    a.Fill? ==> At(s, a.t).version == Version(s)
  }

  lemma CleanFillsAreInTime(s: World, a: Action)
    requires Real(s) && Enabled(s, a) && CleanFill(s, a)
    ensures FillInTime(s, a)
  {}

  predicate ThreadFresh(s: World, th: Thread)
  {
    match th
    case Looking(k, since) => since <= Floor(s, k)
    case Checking(k, since, slot) => since <= Floor(s, k) && since <= slot.version
    case Dropping(k, since) => since <= Floor(s, k)
    case Missed(k, since) => since <= Floor(s, k)
    case Holding(_, since, _, version) => since <= version
    case Served(_, since, _, version) => since <= version
    case _ => true
  }

  ghost predicate Fresh(s: World)
  {
    && (forall k <- s.cache :: Floor(s, k) <= s.cache[k].version)
    && (forall t <- s.threads :: ThreadFresh(s, s.threads[t]))
  }

  lemma FloorsRise(s: World, a: Action, k: Key)
    requires s.history != [] && Enabled(s, a)
    ensures Floor(s, k) <= Floor(Do(s, a), k)
  {
    hide View, Applied;
  }

  lemma MoverFresh(s: World, a: Action)
    requires Real(s) && Fresh(s) && Enabled(s, a) && !a.Tick? && !a.Sweep?
    ensures a.t in Do(s, a).threads && ThreadFresh(Do(s, a), Do(s, a).threads[a.t])
  {
    hide View, Applied;
    var th := At(s, a.t);
    assert ThreadFresh(s, th);
    if a.Lookup? || a.ReadStore? || a.DropExpired? {
      assert Floor(s, th.k) <= Version(s);
      FloorsRise(s, a, th.k);
    }
  }

  lemma StepsStayFresh(s: World, a: Action)
    requires Real(s) && Fresh(s) && Enabled(s, a) && FillInTime(s, a)
    ensures Fresh(Do(s, a))
  {
    var s' := Do(s, a);
    if !a.Tick? && !a.Sweep? {
      MoverFresh(s, a);
    }
    forall k ensures Floor(s, k) <= Floor(s', k) {
      FloorsRise(s, a, k);
    }
    forall t | t in s'.threads ensures ThreadFresh(s', s'.threads[t]) {
      hide Floor, Real, Do;
      if a.Tick? || a.Sweep? || t != a.t {
        OthersStay(s, a, t);
      }
    }
    CacheFresh(s, a);
  }

  lemma OthersStay(s: World, a: Action, t: nat)
    requires s.history != [] && Enabled(s, a) && t in Do(s, a).threads && (a.Tick? || a.Sweep? || t != a.t)
    ensures t in s.threads && Do(s, a).threads[t] == s.threads[t]
  {
    hide View, Applied;
  }

  lemma CacheFresh(s: World, a: Action)
    requires Real(s) && Fresh(s) && Enabled(s, a) && FillInTime(s, a)
    ensures forall k <- Do(s, a).cache :: Floor(Do(s, a), k) <= Do(s, a).cache[k].version
  {
    hide View, Applied, ThreadFresh, ThreadGood;
  }

  /** All fills of the run are in time. */
  ghost predicate FillsInTime(ss: seq<World>, acts: seq<Action>)
    requires IsRun(ss, acts)
  {
    forall i | 0 <= i < |acts| :: FillInTime(ss[i], acts[i])
  }

  lemma {:induction false} RunsStayFresh(ss: seq<World>, acts: seq<Action>, n: nat)
    requires IsRun(ss, acts) && Real(ss[0]) && Fresh(ss[0]) && FillsInTime(ss, acts) && n < |ss|
    ensures Fresh(ss[n])
    decreases n
  {
    if n > 0 {
      RunsStayFresh(ss, acts, n - 1);
      RunsStayReal(ss, acts, n - 1);
      assert FillInTime(ss[n - 1], acts[n - 1]);
      StepsStayFresh(ss[n - 1], acts[n - 1]);
    }
  }

  /** It is enough that no write falls between a fill's storage read and its cache set. */
  lemma CleanFillsSuffice(ss: seq<World>, acts: seq<Action>)
    requires IsRun(ss, acts) && Initial(ss[0])
    requires forall j | 0 <= j < |acts| :: CleanFill(ss[j], acts[j])
    ensures FillsInTime(ss, acts)
  {
    forall j | 0 <= j < |acts| ensures FillInTime(ss[j], acts[j]) {
      RunsStayReal(ss, acts, j);
      CleanFillsAreInTime(ss[j], acts[j]);
    }
  }

  /** The read that thread t began with action i has been answered at state n. */
  ghost predicate Answered(ss: seq<World>, acts: seq<Action>, i: nat, n: nat, t: nat)
    requires IsRun(ss, acts)
  {
    && i < |acts| && acts[i].Begin? && acts[i].t == t && i < n < |ss|
    && (forall j | i < j < n :: !(acts[j].Begin? && acts[j].t == t) && !(acts[j].Finish? && acts[j].t == t))
    && At(ss[n], t).Served?
  }

  /**
   While fills are in time, no read that starts after a writer has invalidated its key answers from an
   older version of the store.
   */
  lemma ReadsAfterInvalidateAreFresh(ss: seq<World>, acts: seq<Action>, i: nat, n: nat, t: nat)
    requires IsRun(ss, acts) && Real(ss[0]) && Fresh(ss[0]) && FillsInTime(ss, acts) && Answered(ss, acts, i, n, t)
    ensures At(ss[n], t).k == acts[i].k
    ensures Floor(ss[i], acts[i].k) <= At(ss[n], t).version < |ss[n].history|
    ensures View(acts[i].k, ss[n].history[At(ss[n], t).version]) == At(ss[n], t).answer
  {
    RunsStayFresh(ss, acts, n);
    ReaderKeeps(ss, acts, i, n, t);
    RunsStayReal(ss, acts, n);
    assert ThreadGood(ss[n], At(ss[n], t));
  }

  /** At the start both hold. */
  lemma InitialIsFresh(s: World)
    requires Initial(s)
    ensures Real(s) && Fresh(s)
  {}

  /** A read keeps the key and the bound it started with. */
  predicate Reading(th: Thread, k: Key, since: nat)
  {
    !th.Idle? && !th.Wrote? && !th.Editing? && th.k == k && th.since == since
  }

  lemma {:induction false} ReaderKeeps(ss: seq<World>, acts: seq<Action>, i: nat, n: nat, t: nat)
    requires IsRun(ss, acts) && i < |acts| && acts[i].Begin? && acts[i].t == t && i < n < |ss|
    requires forall j | i < j < n :: !(acts[j].Begin? && acts[j].t == t) && !(acts[j].Finish? && acts[j].t == t)
    ensures Reading(At(ss[n], t), acts[i].k, Floor(ss[i], acts[i].k))
    decreases n
  {
    hide View, Applied, Floor, Do, Enabled, At, Reading;
    assert ss[n] == Do(ss[n - 1], acts[n - 1]);
    if n - 1 > i {
      ReaderKeeps(ss, acts, i, n - 1, t);
      ReaderStep(ss[n - 1], acts[n - 1], t, acts[i].k, Floor(ss[i], acts[i].k));
    } else {
      ReaderStarts(ss[i], acts[i]);
    }
  }

  lemma ReaderStarts(s: World, a: Action)
    requires s.history != [] && Enabled(s, a) && a.Begin?
    ensures Reading(At(Do(s, a), a.t), a.k, Floor(s, a.k))
  {}

  lemma ReaderStep(s: World, a: Action, t: nat, k: Key, since: nat)
    requires s.history != [] && Enabled(s, a) && Reading(At(s, t), k, since)
    requires !(a.Begin? && a.t == t) && !(a.Finish? && a.t == t)
    ensures Reading(At(Do(s, a), t), k, since)
  {
    hide View, Applied, Floor;
  }

  // ---------- when nobody is about to invalidate

  /** Thread t is still to drop k for a version newer than this one. */
  predicate Owes(s: World, t: nat, k: Key, version: nat)
  {
    At(s, t).Wrote? && k in At(s, t).pending && version < At(s, t).version
  }

  /** The value is what the store holds now, or its key is to be dropped, or has been. */
  ghost predicate Covered(s: World, k: Key, value: Cached, version: nat)
    requires s.history != []
  {
    || View(k, Current(s)) == Some(value)
    || (exists t :: Owes(s, t, k, version))
    || version < Floor(s, k)
  }

  ghost predicate Accounted(s: World)
  {
    && s.history != [] && IsStore(Current(s))
    && (forall k <- s.cache :: Covered(s, k, s.cache[k].value, s.cache[k].version))
    && (forall t <- s.threads | s.threads[t].Holding? ::
          Covered(s, s.threads[t].k, s.threads[t].value, s.threads[t].version))
  }

  /** A write changes the answers for the keys it drops, and makes a new post appear. */
  lemma ViewKept(posts: seq<Post>, c: Change, k: Key)
    requires IsStore(posts) && Applies(posts, c) && k !in Drops(c)
    ensures View(k, posts).Some? ==> View(k, Applied(posts, c)) == View(k, posts)
  {
    hide Find, Replaced, Removed, IsStore;
    NoZero(posts);
    match c
    case Insert(p) => FindAppended(posts, p.(id := MaxId(posts) + 1), if k.All? then 0 else k.id);
    case Replace(p) => if k.Of? { FindReplaced(posts, p, k.id); }
    case Erase(id) => if k.Of? { FindRemoved(posts, id, k.id); }
  }

  lemma AppliedIsStore(posts: seq<Post>, c: Change)
    requires IsStore(posts) && Applies(posts, c)
    ensures IsStore(Applied(posts, c))
  {
    hide Find, Replaced, Removed, IsStore, Contents;
    match c
    case Insert(p) => AppendAdds(posts, [p.(id := MaxId(posts) + 1)]);
    case Replace(p) => ContentsAt(posts, p.id); ReplaceUpdates(posts, p);
    case Erase(id) => RemoveDeletes(posts, id);
  }

  lemma OweStays(s: World, a: Action, t: nat, k: Key, version: nat)
    requires s.history != [] && Enabled(s, a) && Owes(s, t, k, version)
    ensures Owes(Do(s, a), t, k, version) || version < Floor(Do(s, a), k)
  {
    hide View, Applied, Drops;
  }

  lemma OnlyWritesChange(s: World, a: Action)
    requires s.history != [] && Enabled(s, a)
    ensures Current(Do(s, a)) == if a.Write? then Applied(Current(s), a.c) else Current(s)
  {
    hide View, Applied, Drops;
  }

  lemma StaysCovered(s: World, a: Action, k: Key, value: Cached, version: nat)
    requires s.history != [] && IsStore(Current(s)) && Enabled(s, a) && version < |s.history|
    requires Covered(s, k, value, version)
    ensures Covered(Do(s, a), k, value, version)
  {
    OnlyWritesChange(s, a);
    FloorsRise(s, a, k);
    if a.Write? {
      if k in Drops(a.c) {
        WriterOwes(s, a, k, version);
      } else {
        ViewKept(Current(s), a.c, k);
      }
    }
    hide Do, Enabled, View, Applied, Drops, Owes, IsStore;
    if t :| Owes(s, t, k, version) {
      OweStays(s, a, t, k, version);
    }
  }

  lemma WriterOwes(s: World, a: Action, k: Key, version: nat)
    requires s.history != [] && Enabled(s, a) && version < |s.history| && a.Write? && k in Drops(a.c)
    ensures Owes(Do(s, a), a.t, k, version)
  {
    hide View, Applied, Drops;
  }

  lemma EntryCovered(s: World, a: Action, k: Key)
    requires Real(s) && Accounted(s) && Enabled(s, a) && k in Do(s, a).cache
    ensures Covered(Do(s, a), k, Do(s, a).cache[k].value, Do(s, a).cache[k].version)
  {
    hide View, Applied, Covered, IsStore, Drops;
    if a.Fill? && k == At(s, a.t).k {
      assert ThreadGood(s, At(s, a.t));
      StaysCovered(s, a, k, At(s, a.t).value, At(s, a.t).version);
    } else {
      assert k in s.cache && Do(s, a).cache[k] == s.cache[k] && SlotGood(s, k, s.cache[k]);
      StaysCovered(s, a, k, s.cache[k].value, s.cache[k].version);
    }
  }

  lemma StaysStore(s: World, a: Action)
    requires s.history != [] && IsStore(Current(s)) && Enabled(s, a)
    ensures IsStore(Current(Do(s, a)))
  {
    hide IsStore, Applied, View;
    if a.Write? {
      AppliedIsStore(Current(s), a.c);
    }
  }

  lemma StepsStayAccounted(s: World, a: Action)
    requires Real(s) && Accounted(s) && Enabled(s, a)
    ensures Accounted(Do(s, a))
  {
    hide Do, Enabled, Covered, IsStore, Real;
    var s' := Do(s, a);
    assert s'.history != [];
    StaysStore(s, a);
    forall k | k in s'.cache ensures Covered(s', k, s'.cache[k].value, s'.cache[k].version) {
      EntryCovered(s, a, k);
    }
    forall t | t in s'.threads && s'.threads[t].Holding?
      ensures Covered(s', s'.threads[t].k, s'.threads[t].value, s'.threads[t].version)
    {
      HolderCovered(s, a, t);
    }
  }

  lemma HolderCovered(s: World, a: Action, t: nat)
    requires Real(s) && Accounted(s) && Enabled(s, a)
    requires t in Do(s, a).threads && Do(s, a).threads[t].Holding?
    ensures var th := Do(s, a).threads[t]; Covered(Do(s, a), th.k, th.value, th.version)
  {
    var s' := Do(s, a);
    if a.ReadStore? && a.t == t {
      assert View(s'.threads[t].k, Current(s')) == Some(s'.threads[t].value);
    } else {
      hide View, Applied, Covered, IsStore, Drops;
      assert t in s.threads && s.threads[t] == s'.threads[t];
      assert ThreadGood(s, s.threads[t]);
      StaysCovered(s, a, s.threads[t].k, s.threads[t].value, s.threads[t].version);
    }
  }

  lemma {:induction false} RunsStayAccounted(ss: seq<World>, acts: seq<Action>, n: nat)
    requires IsRun(ss, acts) && Initial(ss[0]) && IsStore(Current(ss[0])) && n < |ss|
    ensures Accounted(ss[n])
    decreases n
  {
    if n > 0 {
      RunsStayAccounted(ss, acts, n - 1);
      RunsStayReal(ss, acts, n - 1);
      StepsStayAccounted(ss[n - 1], acts[n - 1]);
    }
  }

  /** While fills are in time, an entry differs from the store only as long as a writer is still to drop it. */
  lemma OnlyPendingEntriesAreStale(ss: seq<World>, acts: seq<Action>, n: nat, k: Key)
    requires IsRun(ss, acts) && Initial(ss[0]) && IsStore(Current(ss[0])) && FillsInTime(ss, acts)
    requires n < |ss| && k in ss[n].cache
    ensures View(k, Current(ss[n])) == Some(ss[n].cache[k].value) ||
      exists t :: Owes(ss[n], t, k, ss[n].cache[k].version)
  {
    RunsStayAccounted(ss, acts, n);
    RunsStayFresh(ss, acts, n);
    hide View;
    assert Covered(ss[n], k, ss[n].cache[k].value, ss[n].cache[k].version);
  }
}
