/**
 A call that runs without interruption: the steps a thread takes for it do to store and cache what the
 service does in one call, and give the same answer.
 */
module CacheAlone {
  import opened Binary
  import opened Options
  import opened Posts
  import opened Store
  import opened Cache
  import opened Service
  import opened CacheRace

  /** The string of a cache key. */
  function Name(k: Key): Bytes
  {
    if k.All? then KEY_ALL else KeyPost(k.id)
  }

  lemma NamesDiffer(k: Key, l: Key)
    requires Name(k) == Name(l)
    ensures k == l
  {
    if k.Of? {
      KeysDiffer(k.id, if l.Of? then l.id else 0);
    } else if l.Of? {
      KeysDiffer(l.id, 0);
    }
  }

  /** The world and the state of the service have the same posts and the same cache entries. */
  ghost predicate Same(s: World, st: State)
  {
    && s.history != [] && Current(s) == st.posts && st.cache.Some?
    && forall k: Key :: SameEntry(s.cache, st.cache.value, k)
  }

  predicate SameEntry(slots: map<Key, Slot>, entries: map<Bytes, Entry<Cached>>, k: Key)
  {
    && (k in slots <==> Name(k) in entries)
    && (k in slots ==> entries[Name(k)] == Entry(slots[k].value, slots[k].expiration))
  }

  /** From s, the actions can be taken one after the other and lead to s'. */
  ghost predicate Takes(s: World, acts: seq<Action>, s': World)
    decreases |acts|
  {
    if acts == [] then s' == s
    else s.history != [] && Enabled(s, acts[0]) && Takes(Do(s, acts[0]), acts[1..], s')
  }

  lemma TakesOne(s: World, a: Action)
    requires s.history != [] && Enabled(s, a)
    ensures Takes(s, [a], Do(s, a)) && Do(s, a).history != []
  {
    hide Do, Enabled;
    assert [a][1..] == [];
    assert s.history <= Do(s, a).history;
  }

  lemma {:induction false} TakesBoth(s: World, a: seq<Action>, mid: World, b: seq<Action>, s': World)
    requires Takes(s, a, mid) && Takes(mid, b, s')
    ensures Takes(s, a + b, s')
    decreases |a|
  {
    hide Do, Enabled;
    if a == [] {
      assert a + b == b;
    } else {
      assert (a + b)[1..] == a[1..] + b;
      TakesBoth(Do(s, a[0]), a[1..], mid, b, s');
    }
  }

  /** The clock stands still and the disk works during the call. */
  predicate Still(env: Env, s: World)
  {
    env.disk == Disk(true, true) && env.lookup == env.fill == s.now
  }

  // ---------- the cache under its two names

  lemma SameWithout(slots: map<Key, Slot>, entries: map<Bytes, Entry<Cached>>, k: Key, l: Key)
    requires SameEntry(slots, entries, l)
    ensures SameEntry(slots - {k}, entries - {Name(k)}, l)
  {
    if Name(k) == Name(l) {
      NamesDiffer(k, l);
    }
  }

  lemma SameWith(slots: map<Key, Slot>, entries: map<Bytes, Entry<Cached>>, k: Key, slot: Slot, l: Key)
    requires SameEntry(slots, entries, l)
    ensures SameEntry(slots[k := slot], entries[Name(k) := Entry(slot.value, slot.expiration)], l)
  {
    if Name(k) == Name(l) {
      NamesDiffer(k, l);
    }
  }

  lemma Dropped(s: World, st: State, k: Key, s': World)
    requires Same(s, st) && s'.history == s.history && s'.cache == s.cache - {k}
    ensures Same(s', st.(cache := Some(st.cache.value - {Name(k)})))
  {
    hide SameEntry, Name;
    forall l ensures SameEntry(s'.cache, st.cache.value - {Name(k)}, l) {
      SameWithout(s.cache, st.cache.value, k, l);
    }
  }

  lemma Set(s: World, st: State, k: Key, slot: Slot, s': World)
    requires Same(s, st) && s'.history == s.history && s'.cache == s.cache[k := slot]
    ensures Same(s', st.(cache := Some(st.cache.value[Name(k) := Entry(slot.value, slot.expiration)])))
  {
    hide SameEntry, Name;
    var entries := st.cache.value[Name(k) := Entry(slot.value, slot.expiration)];
    forall l ensures SameEntry(s'.cache, entries, l) {
      SameWith(s.cache, st.cache.value, k, slot, l);
    }
  }

  lemma Kept(s: World, st: State, s': World)
    requires Same(s, st) && s'.history == s.history && s'.cache == s.cache
    ensures Same(s', st)
  {
    hide SameEntry, Name;
  }

  // ---------- reading

  /** What the service answers to a read of the key, and the state it leaves. */
  function Fetched(st: State, k: Key, env: Env): (Option<Cached>, State)
  {
    match k
    case All =>
      var (r, st') := FetchAll(st, env);
      (if r.Done? then Some(Many(r.value)) else None, st')
    case Of(id) =>
      var (r, st') := FetchOne(st, id, env);
      (if r.Done? then Some(One(r.value)) else None, st')
  }

  predicate Hits(s: World, k: Key)
  {
    k in s.cache && s.now <= s.cache[k].expiration
  }

  lemma FetchedHit(s: World, st: State, k: Key, env: Env)
    requires Real(s) && Same(s, st) && Still(env, s) && Hits(s, k)
    ensures Fetched(st, k, env) == (Some(s.cache[k].value), st)
  {
    assert SameEntry(s.cache, st.cache.value, k);
    assert SlotGood(s, k, s.cache[k]);
    hide KEY_ALL, KeyPost, Find, Real;
  }

  /** The state after the store has been read and the cache filled. */
  function Refilled(st: State, k: Key, now: int): State
    requires st.cache.Some?
  {
    var v := View(k, st.posts);
    if v.None? then st else st.(cache := Some(st.cache.value[Name(k) := Entry(v.value, now + Ttl(k))]))
  }

  lemma FetchedMiss(s: World, st: State, k: Key, env: Env)
    requires Same(s, st) && Still(env, s) && !Hits(s, k)
    ensures Fetched(st, k, env) ==
      (View(k, st.posts), Refilled(st.(cache := Some(st.cache.value - {Name(k)})), k, s.now))
  {
    assert SameEntry(s.cache, st.cache.value, k);
    if k !in s.cache {
      assert st.cache.value - {Name(k)} == st.cache.value;
    }
    hide KEY_ALL, KeyPost, Find;
  }

  lemma TwoSteps(s: World, a: Action, b: Action)
    requires s.history != [] && Enabled(s, a) && Do(s, a).history != [] && Enabled(Do(s, a), b)
    ensures Takes(s, [a, b], Do(Do(s, a), b))
  {
    TakesOne(s, a);
    TakesOne(Do(s, a), b);
    hide Do, Enabled;
    TakesBoth(s, [a], Do(s, a), [b], Do(Do(s, a), b));
    assert [a] + [b] == [a, b];
  }

  /** A reader looks into the cache and finds nothing, or an expired entry, which it drops. */
  lemma LookAlone(s: World, t: nat, k: Key) returns (acts: seq<Action>, s': World)
    requires s.history != [] && At(s, t).Idle? && !Hits(s, k)
    ensures Takes(s, acts, s') && At(s', t).Missed? && At(s', t).k == k
    ensures s'.history == s.history && s'.cache == s.cache - {k} && s'.now == s.now
  {
    var s1 := Do(s, Begin(t, k));
    var s2 := Do(s1, Lookup(t));
    TwoSteps(s, Begin(t, k), Lookup(t));
    acts, s' := [Begin(t, k), Lookup(t)], s2;
    if k in s.cache {
      var s3 := Do(s2, Check(t));
      s' := Do(s3, DropExpired(t));
      hide Takes;
      TwoSteps(s2, Check(t), DropExpired(t));
      TakesBoth(s, acts, s2, [Check(t), DropExpired(t)], s');
      acts := acts + [Check(t), DropExpired(t)];
    }
  }

  lemma HitAlone(s: World, t: nat, k: Key) returns (acts: seq<Action>, s': World)
    requires s.history != [] && At(s, t).Idle? && Hits(s, k)
    ensures Takes(s, acts, s') && t in s'.threads && s'.threads[t].Served?
    ensures s'.threads[t].answer == Some(s.cache[k].value) && s'.history == s.history && s'.cache == s.cache
  {
    var s1 := Do(s, Begin(t, k));
    var s2 := Do(s1, Lookup(t));
    s' := Do(s2, Check(t));
    TwoSteps(s, Begin(t, k), Lookup(t));
    TakesOne(s2, Check(t));
    hide Takes;
    TakesBoth(s, [Begin(t, k), Lookup(t)], s2, [Check(t)], s');
    acts := [Begin(t, k), Lookup(t)] + [Check(t)];
  }

  lemma MissAlone(s: World, st: State, t: nat, k: Key) returns (acts: seq<Action>, s': World)
    requires Same(s, st) && At(s, t).Missed? && At(s, t).k == k
    ensures Takes(s, acts, s') && t in s'.threads && s'.threads[t].Served?
    ensures s'.threads[t].answer == View(k, st.posts) && Same(s', Refilled(st, k, s.now))
  {
    hide View;
    var v := View(k, st.posts);
    var s1 := Do(s, ReadStore(t));
    if v.Some? {
      s' := Do(s1, Fill(t));
      TwoSteps(s, ReadStore(t), Fill(t));
      acts := [ReadStore(t), Fill(t)];
      Set(s, st, k, Slot(v.value, Version(s), s.now, s.now + Ttl(k)), s');
    } else {
      s' := s1;
      Kept(s, st, s');
      TakesOne(s, ReadStore(t));
      acts := [ReadStore(t)];
    }
  }

  lemma FillAlone(s: World, st: State, t: nat, k: Key, env: Env) returns (acts: seq<Action>, s': World)
    requires Same(s, st) && Still(env, s) && At(s, t).Idle? && !Hits(s, k)
    ensures Takes(s, acts, s') && Same(s', Fetched(st, k, env).1)
    ensures t in s'.threads && s'.threads[t].Served? && s'.threads[t].answer == Fetched(st, k, env).0
  {
    var mid, rest;
    acts, mid := LookAlone(s, t, k);
    hide View, Fetched, Takes, At, Name, Ttl, Refilled;
    FetchedMiss(s, st, k, env);
    Dropped(s, st, k, mid);
    hide Same, Hits, Still;
    rest, s' := MissAlone(mid, st.(cache := Some(st.cache.value - {Name(k)})), t, k);
    TakesBoth(s, acts, mid, rest, s');
    acts := acts + rest;
  }

  /** A reader alone is answered what the service answers, and leaves the cache the service leaves. */
  lemma ReadAlone(s: World, st: State, t: nat, k: Key, env: Env) returns (acts: seq<Action>, s': World)
    requires Real(s) && Same(s, st) && Still(env, s) && At(s, t).Idle?
    ensures Takes(s, acts, s') && Same(s', Fetched(st, k, env).1)
    ensures t in s'.threads && s'.threads[t].Served? && s'.threads[t].answer == Fetched(st, k, env).0
  {
    if Hits(s, k) {
      hide Real, Fetched, Takes, At;
      acts, s' := HitAlone(s, t, k);
      FetchedHit(s, st, k, env);
      Kept(s, st, s');
    } else {
      hide Real, Hits;
      acts, s' := FillAlone(s, st, t, k, env);
    }
  }

  // ---------- writing

  /** The write is made and every key it concerns is dropped, one after the other. */
  lemma WriteAlone(s: World, st: State, t: nat, c: Change) returns (acts: seq<Action>, s': World)
    requires Same(s, st) && Enabled(s, Write(t, c))
    ensures Takes(s, acts, s') && s'.history == s.history + [Applied(Current(s), c)]
    ensures var e := st.cache.value; var id := if c.Insert? then 0 else if c.Replace? then c.post.id else c.id;
      Same(s', State(Applied(st.posts, c), Some(if id == 0 then e - {KEY_ALL} else e - {KEY_ALL} - {KeyPost(id)})))
  {
    var s1 := Do(s, Write(t, c));
    assert At(s1, t) == Wrote(|s.history|, Drops(c)) && s1.history == s.history + [Applied(Current(s), c)];
    var st1 := State(Applied(st.posts, c), st.cache);
    assert Same(s1, st1) by {
      hide SameEntry, Name, Applied;
    }
    var s2 := Do(s1, Invalidate(t));
    assert s2.cache == s1.cache - {All} && s2.history == s1.history;
    TwoSteps(s, Write(t, c), Invalidate(t));
    acts, s' := [Write(t, c), Invalidate(t)], s2;
    assert Name(All) == KEY_ALL;
    Dropped(s1, st1, All, s2);
    if |Drops(c)| > 1 {
      var k := Drops(c)[1];
      assert At(s2, t) == Wrote(|s.history|, [k]);
      s' := Do(s2, Invalidate(t));
      assert s'.cache == s2.cache - {k} && s'.history == s2.history;
      TakesOne(s2, Invalidate(t));
      hide Takes, Do, Enabled, Same;
      Dropped(s2, st1.(cache := Some(st.cache.value - {KEY_ALL})), k, s');
      TakesBoth(s, acts, s2, [Invalidate(t)], s');
      acts := acts + [Invalidate(t)];
    }
  }

  /** A create alone leaves what the service's create leaves. */
  lemma CreateAlone(s: World, st: State, t: nat, d: Draft, env: Env, trim: Bytes -> Bytes)
    returns (acts: seq<Action>, s': World)
    requires Same(s, st) && At(s, t).Idle? && DoCreate(st, d, env, trim).0.Done?
    ensures Takes(s, acts, s') && Same(s', DoCreate(st, d, env, trim).1)
  {
    var p := Trimmed(d, trim, ZERO).(createdAt := env.created, updatedAt := env.updated);
    assert Applied(st.posts, Insert(p)) == DoCreate(st, d, env, trim).1.posts;
    hide Same, Takes;
    acts, s' := WriteAlone(s, st, t, Insert(p));
  }

  /** So does a delete. */
  lemma DeleteAlone(s: World, st: State, t: nat, id: int, env: Env) returns (acts: seq<Action>, s': World)
    requires Same(s, st) && At(s, t).Idle? && DoDelete(st, id, env).0.Done?
    ensures Takes(s, acts, s') && Same(s', DoDelete(st, id, env).1)
  {
    assert Current(s) == st.posts;
    hide Same, Takes;
    acts, s' := WriteAlone(s, st, t, Erase(id));
  }

  /** And so do the two accesses of an update. */
  lemma UpdateAlone(s: World, st: State, t: nat, id: int, d: Draft, env: Env, trim: Bytes -> Bytes)
    returns (acts: seq<Action>, s': World)
    requires Same(s, st) && At(s, t).Idle? && DoUpdate(st, id, d, env, trim).0.Done?
    ensures Takes(s, acts, s') && Same(s', DoUpdate(st, id, d, env, trim).1)
  {
    var p := DoUpdate(st, id, d, env, trim).0.value;
    assert p.id == id && Current(s) == st.posts && Find(st.posts, id).Some?;
    var s1 := Do(s, ReadForUpdate(t, id));
    TakesOne(s, ReadForUpdate(t, id));
    Kept(s, st, s1);
    assert Enabled(s1, Write(t, Replace(p)));
    hide Same, Takes, Find, Replaced;
    var rest;
    rest, s' := WriteAlone(s1, st, t, Replace(p));
    TakesBoth(s, [ReadForUpdate(t, id)], s1, rest, s');
    acts := [ReadForUpdate(t, id)] + rest;
  }

  /** A sweep is the cleanup at that time. */
  lemma SweepAlone(s: World, st: State, at: int)
    requires Same(s, st) && at <= s.now
    ensures Same(Do(s, Sweep(at)), st.(cache := Some(Unexpired(st.cache.value, at))))
  {
    var s' := Do(s, Sweep(at));
    forall k ensures SameEntry(s'.cache, Unexpired(st.cache.value, at), k) {
      assert SameEntry(s.cache, st.cache.value, k);
    }
  }
}
