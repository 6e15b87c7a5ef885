/** What holds over every sequential run of the service: the store stays sound and the cache is transparent. */
module ServiceRuns {
  import opened Binary
  import opened Message
  import opened Options
  import opened Transport
  import opened Posts
  import opened Store
  import opened Cache
  import opened Service
  import Wire
  import Writing
  import Schemas

  datatype Call =
    | List(env: Env)
    | Get(id: int, env: Env)
    | Make(draft: Draft, env: Env)
    | Change(id: int, draft: Draft, env: Env)
    | Drop(id: int, env: Env)
    | MakeMany(items: seq<(Draft, Env)>)
    | CleanupTick(now: int)

  datatype Answer =
    | Listed(posts: Outcome<seq<Post>>)
    | Answered(post: Outcome<Post>)
    | Dropped(ok: Outcome<()>)
    | Made(bulk: BulkResponse)
    | Ticked

  function Step(st: State, call: Call, trim: Bytes -> Bytes): (Answer, State)
  {
    match call
    case List(env) => var (r, s) := FetchAll(st, env); (Listed(r), s)
    case Get(id, env) => var (r, s) := FetchOne(st, id, env); (Answered(r), s)
    case Make(d, env) => var (r, s) := DoCreate(st, d, env, trim); (Answered(r), s)
    case Change(id, d, env) => var (r, s) := DoUpdate(st, id, d, env, trim); (Answered(r), s)
    case Drop(id, env) => var (r, s) := DoDelete(st, id, env); (Dropped(r), s)
    case MakeMany(items) => var (r, s) := DoBulk(st, items, trim); (Made(Bulk(r)), s)
    case CleanupTick(now) =>
      (Ticked, if st.cache.None? then st else st.(cache := Some(Unexpired(st.cache.value, now))))
  }

  function Run(st: State, calls: seq<Call>, trim: Bytes -> Bytes): (r: (seq<Answer>, State))
    ensures |r.0| == |calls|
    decreases |calls|
  {
    if calls == [] then ([], st)
    else
      var (answer, next) := Step(st, calls[0], trim);
      var (answers, end) := Run(next, calls[1..], trim);
      ([answer] + answers, end)
  }

  // ---------- the invariant

  predicate AllValid(posts: seq<Post>)
  {
    forall p <- posts :: Valid(p)
  }

  /** Every entry is what the store holds now. */
  ghost predicate Current(posts: seq<Post>, cache: map<Bytes, Entry<Cached>>)
  {
    && (KEY_ALL in cache ==> cache[KEY_ALL].value == Many(posts))
    && forall id {:trigger KeyPost(id)} :: KeyPost(id) in cache ==>
         Find(posts, id).Some? && cache[KeyPost(id)].value == One(Find(posts, id).value)
  }

  ghost predicate Sound(st: State)
  {
    && IsStore(st.posts) && AllValid(st.posts)
    && (st.cache.Some? ==> Current(st.posts, st.cache.value))
  }

  lemma FewerEntries(posts: seq<Post>, cache: map<Bytes, Entry<Cached>>, fewer: map<Bytes, Entry<Cached>>)
    requires Current(posts, cache) && forall k <- fewer :: k in cache && fewer[k] == cache[k]
    ensures Current(posts, fewer)
  {}

  lemma FilledAll(posts: seq<Post>, cache: map<Bytes, Entry<Cached>>, expiration: int)
    requires Current(posts, cache)
    ensures Current(posts, cache[KEY_ALL := Entry(Many(posts), expiration)])
  {
    var more := cache[KEY_ALL := Entry(Many(posts), expiration)];
    forall id | KeyPost(id) in more
      ensures Find(posts, id).Some? && more[KeyPost(id)].value == One(Find(posts, id).value)
    {
      KeysDiffer(id, id);
    }
  }

  lemma {:induction false} FilledOne(posts: seq<Post>, cache: map<Bytes, Entry<Cached>>, id: int, expiration: int)
    requires Current(posts, cache) && Find(posts, id).Some?
    ensures Current(posts, cache[KeyPost(id) := Entry(One(Find(posts, id).value), expiration)])
  {
    var more := cache[KeyPost(id) := Entry(One(Find(posts, id).value), expiration)];
    KeysDiffer(id, id);
    forall other | KeyPost(other) in more
      ensures Find(posts, other).Some? && more[KeyPost(other)].value == One(Find(posts, other).value)
    {
      KeysDiffer(other, id);
    }
  }

  /** After a write that leaves every post but id alone, invalidating id makes the cache current again. */
  lemma {:induction false} InvalidatedIsCurrent(
    posts: seq<Post>, posts': seq<Post>, cache: map<Bytes, Entry<Cached>>, id: int)
    requires Current(posts, cache) && Find(posts, 0).None?
    requires forall other {:trigger Find(posts', other)} :: other != id && Find(posts, other).Some? ==>
      Find(posts', other) == Find(posts, other)
    requires id == 0 || Find(posts, id).Some?
    ensures Current(posts', Invalidated(Some(cache), id).value)
  {
    var less := Invalidated(Some(cache), id).value;
    forall other | KeyPost(other) in less
      ensures Find(posts', other).Some? && less[KeyPost(other)].value == One(Find(posts', other).value)
    {
      KeysDiffer(other, id);
      assert Find(posts, other).Some?;
      assert other != id;
      assert Find(posts', other) == Find(posts, other);
    }
  }

  // ---------- one call

  function Readable(env: Env): Env
  {
    env.(disk := env.disk.(readable := true))
  }

  /** The same call with a disk that can be read. */
  function Mended(call: Call): Call
  {
    match call
    case List(env) => List(Readable(env))
    case Get(id, env) => Get(id, Readable(env))
    case _ => call
  }

  predicate Reads(call: Call)
  {
    call.List? || call.Get?
  }

  /** The service without its cache. */
  function Plain(st: State): State
  {
    State(st.posts, None)
  }

  lemma FetchAllSound(st: State, env: Env)
    requires Sound(st)
    ensures Sound(FetchAll(st, env).1) && Plain(FetchAll(st, env).1) == FetchAll(Plain(st), env).1 == Plain(st)
    ensures FetchAll(st, env).0 == FetchAll(Plain(st), env).0 ||
      (!env.disk.readable && FetchAll(st, env).0 == FetchAll(Plain(st), Readable(env)).0)
  {
    hide Find, IsStore, AllValid;
    if st.cache.Some? {
      var cache := Touched(st.cache.value, KEY_ALL, env.lookup);
      FewerEntries(st.posts, st.cache.value, cache);
      FilledAll(st.posts, cache, env.fill + TTL_ALL);
    }
  }

  lemma FetchOneSound(st: State, id: int, env: Env)
    requires Sound(st)
    ensures Sound(FetchOne(st, id, env).1)
    ensures Plain(FetchOne(st, id, env).1) == FetchOne(Plain(st), id, env).1 == Plain(st)
    ensures FetchOne(st, id, env).0 == FetchOne(Plain(st), id, env).0 ||
      (!env.disk.readable && FetchOne(st, id, env).0 == FetchOne(Plain(st), id, Readable(env)).0)
  {
    hide Find, IsStore, AllValid;
    if st.cache.Some? {
      var cache := Touched(st.cache.value, KeyPost(id), env.lookup);
      FewerEntries(st.posts, st.cache.value, cache);
      if Find(st.posts, id).Some? {
        FilledOne(st.posts, cache, id, env.fill + TTL_POST);
      }
    }
  }

  /** Create keeps the state sound; a success stores a valid post under a fresh id, a refusal changes nothing. */
  lemma CreateSound(st: State, d: Draft, env: Env, trim: Bytes -> Bytes)
    requires Sound(st)
    ensures var (r, st') := DoCreate(st, d, env, trim);
      && Sound(st')
      && r == DoCreate(Plain(st), d, env, trim).0 && Plain(st') == DoCreate(Plain(st), d, env, trim).1
      && (if r.Done? then
            && r.value.id !in Contents(st.posts) && st'.posts == st.posts + [r.value]
            && Contents(st'.posts) == Contents(st.posts)[r.value.id := r.value]
          else st' == st)
  {
    var (r, st') := DoCreate(st, d, env, trim);
    if r.Done? {
      hide Find, Contents, IsStore, Invalidated, Current;
      CreatedStore(st.posts, r.value);
      NoZero(st.posts);
      if st.cache.Some? {
        forall other | Find(st.posts, other).Some?
          ensures Find(st'.posts, other) == Find(st.posts, other)
        {
          FindAppended(st.posts, r.value, other);
        }
        InvalidatedIsCurrent(st.posts, st'.posts, st.cache.value, 0);
      }
      assert st'.cache == Invalidated(st.cache, 0);
      InvalidatedSome(st.cache, 0);
    }
  }

  lemma InvalidatedSome(c: Option<map<Bytes, Entry<Cached>>>, id: int)
    ensures Invalidated(c, id).Some? == c.Some?
  {}

  lemma SingleContents(p: Post)
    ensures Contents([p]) == map[p.id := p]
  {
    assert (set q | q in [p] :: q.id) == {p.id};
  }

  lemma {:induction false} CreatedStore(posts: seq<Post>, p: Post)
    requires IsStore(posts) && p.id == MaxId(posts) + 1
    ensures IsStore(posts + [p]) && p.id !in Contents(posts)
    ensures Contents(posts + [p]) == Contents(posts)[p.id := p]
  {
    hide Find, IsStore, MaxId, Contents;
    AppendAdds(posts, [p]);
    SingleContents(p);
    assert p.id in Contents([p]);
  }

  lemma UpdateSound(st: State, id: int, d: Draft, env: Env, trim: Bytes -> Bytes)
    requires Sound(st)
    ensures var (r, st') := DoUpdate(st, id, d, env, trim);
      && Sound(st')
      && r == DoUpdate(Plain(st), id, d, env, trim).0 && Plain(st') == DoUpdate(Plain(st), id, d, env, trim).1
      && (if r.Done? then id in Contents(st.posts) && Contents(st'.posts) == Contents(st.posts)[id := r.value]
          else st' == st)
  {
    var (r, st') := DoUpdate(st, id, d, env, trim);
    if r.Done? {
      var p := r.value;
      assert p.id == id && Valid(p) && st'.posts == Replaced(st.posts, p);
      assert Find(st.posts, id).Some?;
      assert st'.cache == Invalidated(st.cache, id);
      hide Find, Contents, IsStore, Invalidated, Current, DoUpdate, Replaced, Valid;
      ContentsAt(st.posts, id);
      ReplaceUpdates(st.posts, p);
      ReplacedValid(st.posts, p);
      NoZero(st.posts);
      if st.cache.Some? {
        forall other | other != id && Find(st.posts, other).Some?
          ensures Find(st'.posts, other) == Find(st.posts, other)
        {
          FindReplaced(st.posts, p, other);
        }
        InvalidatedIsCurrent(st.posts, st'.posts, st.cache.value, id);
      }
      InvalidatedSome(st.cache, id);
    }
  }

  lemma {:induction false} ReplacedValid(posts: seq<Post>, p: Post)
    requires AllValid(posts) && Valid(p)
    ensures AllValid(Replaced(posts, p))
  {
    if posts != [] && posts[0].id != p.id {
      ReplacedValid(posts[1..], p);
    }
  }

  lemma DeleteSound(st: State, id: int, env: Env)
    requires Sound(st)
    ensures var (r, st') := DoDelete(st, id, env);
      && Sound(st')
      && r == DoDelete(Plain(st), id, env).0 && Plain(st') == DoDelete(Plain(st), id, env).1
      && (if r.Done? then id in Contents(st.posts) && Contents(st'.posts) == Contents(st.posts) - {id}
          else st' == st)
  {
    var (r, st') := DoDelete(st, id, env);
    if r.Done? {
      assert st'.posts == Removed(st.posts, id) && st'.cache == Invalidated(st.cache, id) && Find(st.posts, id).Some?;
      hide Find, Contents, IsStore, Invalidated, Current, DoDelete, Removed, Valid;
      ContentsAt(st.posts, id);
      RemoveDeletes(st.posts, id);
      RemovedKeeps(st.posts, id);
      NoZero(st.posts);
      if st.cache.Some? {
        forall other | other != id && Find(st.posts, other).Some?
          ensures Find(st'.posts, other) == Find(st.posts, other)
        {
          FindRemoved(st.posts, id, other);
        }
        InvalidatedIsCurrent(st.posts, st'.posts, st.cache.value, id);
      }
      InvalidatedSome(st.cache, id);
    }
  }

  /** The ids a bulk creation reports are distinct, new, and stored; nothing else is. */
  ghost predicate BulkStored(before: seq<Post>, after: seq<Post>, outcomes: seq<Outcome<Post>>)
  {
    var ids := Successes(outcomes);
    && (forall i, j | 0 <= i < j < |ids| :: ids[i] != ids[j])
    && (forall id <- ids :: id !in Contents(before))
    && (forall id :: id in Contents(after) <==> id in Contents(before) || id in ids)
    && (forall id <- Contents(before) :: id in Contents(after) && Contents(after)[id] == Contents(before)[id])
  }

  lemma {:induction false} BulkSound(st: State, items: seq<(Draft, Env)>, trim: Bytes -> Bytes)
    requires Sound(st)
    ensures var (outcomes, st') := DoBulk(st, items, trim);
      && Sound(st')
      && outcomes == DoBulk(Plain(st), items, trim).0 && Plain(st') == DoBulk(Plain(st), items, trim).1
      && BulkStored(st.posts, st'.posts, outcomes)
      && st'.cache.Some? == st.cache.Some?
    decreases |items|
  {
    if items != [] {
      var front, last := items[..|items| - 1], items[|items| - 1];
      BulkSound(st, front, trim);
      var (before, mid) := DoBulk(st, front, trim);
      CreateSound(mid, last.0, last.1, trim);
      hide Sound, Contents, DoCreate, Plain;
      var (o, end) := DoCreate(mid, last.0, last.1, trim);
      assert (before + [o])[..|before|] == before;
      BulkStoredMore(st.posts, mid.posts, end.posts, before, o);
      CreateKeepsCache(mid, last.0, last.1, trim);
    }
  }

  lemma CreateKeepsCache(st: State, d: Draft, env: Env, trim: Bytes -> Bytes)
    ensures DoCreate(st, d, env, trim).1.cache.Some? == st.cache.Some?
  {}

  lemma BulkStoredMore(
    posts: seq<Post>, mid: seq<Post>, after: seq<Post>, outcomes: seq<Outcome<Post>>, o: Outcome<Post>)
    requires BulkStored(posts, mid, outcomes)
    requires if o.Done? then
      o.value.id !in Contents(mid) && Contents(after) == Contents(mid)[o.value.id := o.value] else after == mid
    ensures BulkStored(posts, after, outcomes + [o])
  {
    hide Contents;
    assert (outcomes + [o])[..|outcomes|] == outcomes;
  }

  /**
   A call keeps the state sound and answers like the service without cache; only when the file cannot
   be read may the cache still give the answer a readable file would have given.
   */
  lemma StepSound(st: State, call: Call, trim: Bytes -> Bytes)
    requires Sound(st)
    ensures var (a, st') := Step(st, call, trim);
      && Sound(st')
      && Plain(st') == Step(Plain(st), call, trim).1
      && (a == Step(Plain(st), call, trim).0 ||
          (Reads(call) && !call.env.disk.readable && a == Step(Plain(st), Mended(call), trim).0))
  {
    hide Sound, FetchAll, FetchOne, DoCreate, DoUpdate, DoDelete, DoBulk, Bulk, Unexpired;
    match call
    case List(env) => FetchAllSound(st, env);
    case Get(id, env) => FetchOneSound(st, id, env);
    case Make(d, env) => CreateSound(st, d, env, trim);
    case Change(id, d, env) => UpdateSound(st, id, d, env, trim);
    case Drop(id, env) => DeleteSound(st, id, env);
    case MakeMany(items) => BulkSound(st, items, trim);
    case CleanupTick(now) => CleanupSound(st, now);
  }

  lemma CleanupSound(st: State, now: int)
    requires Sound(st)
    ensures st.cache.Some? ==> Sound(st.(cache := Some(Unexpired(st.cache.value, now))))
  {
    hide IsStore, AllValid, Current;
    if st.cache.Some? {
      FewerEntries(st.posts, st.cache.value, Unexpired(st.cache.value, now));
    }
  }

  // ---------- whole runs

  /** The answer of the service without cache to call i of a run. */
  function PlainAnswer(st: State, calls: seq<Call>, trim: Bytes -> Bytes, i: nat): Answer
    requires i < |calls|
  {
    Run(Plain(st), calls, trim).0[i]
  }

  /**
   Over a run the cached service answers like the service without cache; a read that meets an unreadable
   file may also be answered as if the file had been readable.
   */
  ghost predicate Transparent(st: State, calls: seq<Call>, trim: Bytes -> Bytes)
  {
    forall i | 0 <= i < |calls| ::
      var answer := Run(st, calls, trim).0[i];
      || answer == PlainAnswer(st, calls, trim, i)
      || (Reads(calls[i]) && !calls[i].env.disk.readable &&
          answer == PlainAnswer(st, calls[i := Mended(calls[i])], trim, i))
  }

  /**
   Over every run, with calls, clock readings, disk failures and cleanup ticks in any order, the store
   stays sound and the cache cannot be told from no cache.
   */
  lemma {:induction false} RunSound(st: State, calls: seq<Call>, trim: Bytes -> Bytes)
    requires Sound(st)
    ensures Sound(Run(st, calls, trim).1)
    ensures Plain(Run(st, calls, trim).1) == Run(Plain(st), calls, trim).1
    ensures Transparent(st, calls, trim)
    decreases |calls|
  {
    if calls != [] {
      StepSound(st, calls[0], trim);
      hide Sound, Step, Plain;
      var (a, next) := Step(st, calls[0], trim);
      RunSound(next, calls[1..], trim);
      forall i | 0 <= i < |calls|
        ensures var answer := Run(st, calls, trim).0[i];
          || answer == PlainAnswer(st, calls, trim, i)
          || (Reads(calls[i]) && !calls[i].env.disk.readable &&
              answer == PlainAnswer(st, calls[i := Mended(calls[i])], trim, i))
      {
        if i > 0 {
          TailAnswer(st, calls, trim, i);
          TailAnswer(st, calls[i := Mended(calls[i])], trim, i);
          assert calls[i := Mended(calls[i])][1..] == calls[1..][i - 1 := Mended(calls[i])];
          assert calls[i] == calls[1..][i - 1];
        }
      }
    }
  }

  lemma {:induction false} TailAnswer(st: State, calls: seq<Call>, trim: Bytes -> Bytes, i: nat)
    requires 0 < i < |calls| && Plain(Step(st, calls[0], trim).1) == Step(Plain(st), calls[0], trim).1
    ensures Run(st, calls, trim).0[i] == Run(Step(st, calls[0], trim).1, calls[1..], trim).0[i - 1]
    ensures PlainAnswer(st, calls, trim, i) == PlainAnswer(Step(st, calls[0], trim).1, calls[1..], trim, i - 1)
  {
    hide Step, Plain;
  }

  /** The same from the beginning: an empty file and an empty cache. */
  lemma {:induction false} RunFromEmpty(calls: seq<Call>, trim: Bytes -> Bytes)
    ensures var st := State([], Some(map[])); var end := Run(st, calls, trim).1;
      && IsStore(end.posts) && AllValid(end.posts)
      && Transparent(st, calls, trim)
  {
    RunSound(State([], Some(map[])), calls, trim);
  }

  /** Each request of a bulk creation is counted once. */
  lemma {:induction false} BulkCounts(st: State, items: seq<(Draft, Env)>, trim: Bytes -> Bytes)
    ensures var b := Bulk(DoBulk(st, items, trim).0); b.created + b.failed == |items| && |b.postIds| == b.created
  {
    EachCounted(DoBulk(st, items, trim).0);
  }

  // ---------- what the calls answer

  /** With a readable file a get answers with the stored post, from the cache or not, or says there is none. */
  lemma GetOutcome(st: State, id: int, env: Env)
    requires Sound(st) && env.disk.readable
    ensures FetchOne(st, id, env).0 ==
      if id in Contents(st.posts) then Done(Contents(st.posts)[id]) else Refused(PostNotFound)
  {
    ContentsAt(st.posts, id);
    hide Find, Contents, IsStore, AllValid, KeyPost;
  }

  /** And a list works on all stored posts. */
  lemma ListOutcome(st: State, env: Env)
    requires Sound(st) && env.disk.readable
    ensures FetchAll(st, env).0 == Done(st.posts)
  {
    hide Find, IsStore, AllValid, KEY_ALL;
  }

  /**
   With a working disk a create succeeds exactly for texts within limits that do not trim to nothing, and
   stores the trimmed draft under an id above all others.
   */
  lemma CreateOutcome(st: State, d: Draft, env: Env, trim: Bytes -> Bytes)
    requires Sound(st) && env.disk == Disk(true, true)
    requires |trim(d.title)| <= |d.title| && |trim(d.body)| <= |d.body|
    ensures var r := DoCreate(st, d, env, trim).0;
      && (r.Done? <==>
            1 <= |d.title| <= 500 && 1 <= |d.body| <= 10000 && trim(d.title) != [] && trim(d.body) != [])
      && (!(1 <= |d.title| <= 500 && 1 <= |d.body| <= 10000) ==>
            r == Refused(ValidationFailed(Ascii("validation failed"))))
      && (r.Done? ==>
            && r.value == Post(r.value.id, d.userId, trim(d.title), trim(d.body), env.created, env.updated)
            && r.value.id >= 1 && forall p <- st.posts :: p.id < r.value.id)
  {
    hide Current, Ascii;
  }

  /** In a bulk creation on a working disk each request succeeds or fails as it would alone, in their order. */
  lemma {:induction false} BulkOutcome(st: State, items: seq<(Draft, Env)>, trim: Bytes -> Bytes, i: nat)
    requires Sound(st) && i < |items| && forall x <- items :: x.1.disk == Disk(true, true)
    requires forall t {:trigger trim(t)} :: |trim(t)| <= |t|
    ensures var (d, o) := (items[i].0, DoBulk(st, items, trim).0[i]);
      && (o.Done? <==>
            1 <= |d.title| <= 500 && 1 <= |d.body| <= 10000 && trim(d.title) != [] && trim(d.body) != [])
      && (o.Done? ==> o.value == Post(o.value.id, d.userId, trim(d.title), trim(d.body), items[i].1.created,
            items[i].1.updated))
  {
    assert items[i] in items;
    BulkSound(st, items[..i], trim);
    BulkAt(st, items, trim, i);
    hide Sound, DoCreate, DoBulk, BulkStored, Plain;
    CreateOutcome(DoBulk(st, items[..i], trim).1, items[i].0, items[i].1, trim);
  }

  lemma {:induction false} BulkAt(st: State, items: seq<(Draft, Env)>, trim: Bytes -> Bytes, i: nat)
    requires i < |items|
    ensures DoBulk(st, items, trim).0[i] == DoCreate(DoBulk(st, items[..i], trim).1, items[i].0, items[i].1, trim).0
    decreases |items|
  {
    hide DoCreate;
    var front := items[..|items| - 1];
    if i < |front| {
      BulkAt(st, front, trim, i);
      assert front[..i] == items[..i];
    }
  }

  /** A post read once is answered without the disk until its time to live has passed, and not after. */
  lemma PostCachedUntilTtl(st: State, id: int, env: Env, later: Env)
    requires st.cache.Some? && CacheHit(st.cache, KeyPost(id), env.lookup).None?
    requires FetchOne(st, id, env).0.Done? && !later.disk.readable
    ensures FetchOne(FetchOne(st, id, env).1, id, later).0 ==
      if later.lookup <= env.fill + 30_000_000_000 then FetchOne(st, id, env).0 else Refused(GET_FAILED)
  {
    hide Find, KeyPost;
  }

  /** The same for the list. */
  lemma ListCachedUntilTtl(st: State, env: Env, later: Env)
    requires st.cache.Some? && CacheHit(st.cache, KEY_ALL, env.lookup).None?
    requires FetchAll(st, env).0.Done? && !later.disk.readable
    ensures FetchAll(FetchAll(st, env).1, later).0 ==
      if later.lookup <= env.fill + 10_000_000_000 then FetchAll(st, env).0 else Refused(LIST_FAILED)
  {
    hide KEY_ALL;
  }

  /**
   With a working disk an update succeeds exactly for a stored post, texts within their limits, and no
   text that trims to nothing; it stores what the request gives, trimmed, and keeps the id, the creation
   time, and every field the request leaves empty.
   */
  lemma UpdateOutcome(st: State, id: int, d: Draft, env: Env, trim: Bytes -> Bytes)
    requires Sound(st) && env.disk == Disk(true, true)
    requires |trim(d.title)| <= |d.title| && |trim(d.body)| <= |d.body|
    ensures var r := DoUpdate(st, id, d, env, trim).0;
      && (r.Done? <==>
            && id in Contents(st.posts) && |d.title| <= 500 && |d.body| <= 10000
            && (d.title == [] || trim(d.title) != []) && (d.body == [] || trim(d.body) != []))
      && (r == Refused(PostNotFound) <==> id !in Contents(st.posts))
      && (r.Done? ==>
            var was := Contents(st.posts)[id];
            r.value == Post(id, if d.userId == 0 then was.userId else d.userId,
              if d.title == [] then was.title else trim(d.title), if d.body == [] then was.body else trim(d.body),
              was.createdAt, env.updated))
  {
    ContentsAt(st.posts, id);
    hide Contents, Find, IsStore, Current;
  }

  /** Texts over the limit are the client's fault, and nothing else about a stored post is. */
  lemma UpdateFaults(st: State, id: int, d: Draft, env: Env, trim: Bytes -> Bytes)
    requires Sound(st) && env.disk.readable && id in Contents(st.posts)
    ensures DoUpdate(st, id, d, env, trim).0 == Refused(ValidationFailed(Ascii("title too long"))) <==> |d.title| > 500
    ensures DoUpdate(st, id, d, env, trim).0 == Refused(ValidationFailed(Ascii("body too long"))) <==>
      |d.title| <= 500 && |d.body| > 10000
  {
    ContentsAt(st.posts, id);
    hide Contents, Find, IsStore, Current;
    assert Ascii("title too long")[0] == 116 && Ascii("body too long")[0] == 98;
  }

  /** With a working disk a delete succeeds exactly for a stored post. */
  lemma DeleteOutcome(st: State, id: int, env: Env)
    requires env.disk == Disk(true, true)
    ensures DoDelete(st, id, env).0 == if id in Contents(st.posts) then Done(()) else Refused(PostNotFound)
  {
    ContentsAt(st.posts, id);
    hide Contents, Find;
  }

  // ---------- reading one's own writes

  /** The call can neither change nor remove the post. */
  predicate Spares(call: Call, id: int)
  {
    !(call.Change? && call.id == id) && !(call.Drop? && call.id == id)
  }

  /** The post is stored in both, and is the same. */
  ghost predicate Keeps(before: seq<Post>, after: seq<Post>, id: int)
  {
    id in Contents(before) && id in Contents(after) && Contents(after)[id] == Contents(before)[id]
  }

  lemma FetchesKeep(st: State, id: int, env: Env)
    requires Sound(st)
    ensures FetchAll(st, env).1.posts == st.posts && FetchOne(st, id, env).1.posts == st.posts
  {
    FetchAllSound(st, env);
    FetchOneSound(st, id, env);
  }

  lemma MakeKeeps(st: State, d: Draft, env: Env, trim: Bytes -> Bytes, id: int)
    requires Sound(st) && id in Contents(st.posts)
    ensures Keeps(st.posts, DoCreate(st, d, env, trim).1.posts, id)
  {
    CreateSound(st, d, env, trim);
    hide Sound, Contents, DoCreate;
  }

  lemma ChangeKeeps(st: State, other: int, d: Draft, env: Env, trim: Bytes -> Bytes, id: int)
    requires Sound(st) && id in Contents(st.posts) && other != id
    ensures Keeps(st.posts, DoUpdate(st, other, d, env, trim).1.posts, id)
  {
    hide Sound, Contents, DoUpdate;
    UpdateSound(st, other, d, env, trim);
  }

  lemma DropKeeps(st: State, other: int, env: Env, id: int)
    requires Sound(st) && id in Contents(st.posts) && other != id
    ensures Keeps(st.posts, DoDelete(st, other, env).1.posts, id)
  {
    hide Sound, Contents, DoDelete;
    DeleteSound(st, other, env);
  }

  lemma BulkKeeps(st: State, items: seq<(Draft, Env)>, trim: Bytes -> Bytes, id: int)
    requires Sound(st) && id in Contents(st.posts)
    ensures Keeps(st.posts, DoBulk(st, items, trim).1.posts, id)
  {
    BulkSound(st, items, trim);
    hide Sound, Contents, DoBulk;
  }

  lemma SparedStays(st: State, call: Call, trim: Bytes -> Bytes, id: int)
    requires Sound(st) && Spares(call, id) && id in Contents(st.posts)
    ensures Sound(Step(st, call, trim).1) && Keeps(st.posts, Step(st, call, trim).1.posts, id)
  {
    StepStaysSound(st, call, trim);
    StoresAfter(st, call, trim);
    assert (call.Change? || call.Drop?) ==> call.id != id;
    hide *;
    match call
    case List(env) => FetchesKeep(st, 0, env); KeepsItself(st.posts, id);
    case Get(other, env) => FetchesKeep(st, other, env); KeepsItself(st.posts, id);
    case Make(d, env) => MakeKeeps(st, d, env, trim, id);
    case Change(other, d, env) => ChangeKeeps(st, other, d, env, trim, id);
    case Drop(other, env) => DropKeeps(st, other, env, id);
    case MakeMany(items) => BulkKeeps(st, items, trim, id);
    case CleanupTick(_) => KeepsItself(st.posts, id);
  }

  /** The store after a call. */
  lemma StoresAfter(st: State, call: Call, trim: Bytes -> Bytes)
    ensures call.List? ==> Step(st, call, trim).1.posts == FetchAll(st, call.env).1.posts
    ensures call.Get? ==> Step(st, call, trim).1.posts == FetchOne(st, call.id, call.env).1.posts
    ensures call.Make? ==> Step(st, call, trim).1.posts == DoCreate(st, call.draft, call.env, trim).1.posts
    ensures call.Change? ==> Step(st, call, trim).1.posts == DoUpdate(st, call.id, call.draft, call.env, trim).1.posts
    ensures call.Drop? ==> Step(st, call, trim).1.posts == DoDelete(st, call.id, call.env).1.posts
    ensures call.MakeMany? ==> Step(st, call, trim).1.posts == DoBulk(st, call.items, trim).1.posts
    ensures call.CleanupTick? ==> Step(st, call, trim).1.posts == st.posts
  {
    hide FetchAll, FetchOne, DoCreate, DoUpdate, DoDelete, DoBulk, Bulk, Unexpired;
  }

  lemma KeepsItself(posts: seq<Post>, id: int)
    requires id in Contents(posts)
    ensures Keeps(posts, posts, id)
  {}

  lemma StepStaysSound(st: State, call: Call, trim: Bytes -> Bytes)
    requires Sound(st)
    ensures Sound(Step(st, call, trim).1)
  {
    hide Sound, Step;
    StepSound(st, call, trim);
  }

  lemma {:induction false} SparedRun(st: State, calls: seq<Call>, trim: Bytes -> Bytes, id: int, j: nat)
    requires Sound(st) && id in Contents(st.posts) && j < |calls| && forall k | 0 <= k < j :: Spares(calls[k], id)
    requires calls[j].Get? && calls[j].id == id && calls[j].env.disk.readable
    ensures Run(st, calls, trim).0[j] == Answered(Done(Contents(st.posts)[id]))
    decreases j
  {
    hide Sound, Contents, Spares;
    if j == 0 {
      GetOutcome(st, id, calls[0].env);
    } else {
      hide Step;
      assert calls[0] in calls;
      assert Spares(calls[0], id);
      SparedStays(st, calls[0], trim, id);
      SparedRun(Step(st, calls[0], trim).1, calls[1..], trim, id, j - 1);
    }
  }

  /** The post a successful create or update answered is stored then. */
  lemma WrittenIsStored(st: State, call: Call, trim: Bytes -> Bytes, p: Post)
    requires Sound(st) && (call.Make? || call.Change?) && Step(st, call, trim).0 == Answered(Done(p))
    ensures var st' := Step(st, call, trim).1;
      Sound(st') && p.id in Contents(st'.posts) && Contents(st'.posts)[p.id] == p
  {
    if call.Make? {
      CreateSound(st, call.draft, call.env, trim);
      hide Sound, Contents, DoCreate;
    } else {
      UpdateSound(st, call.id, call.draft, call.env, trim);
      UpdateKeepsId(st, call.id, call.draft, call.env, trim);
      hide Sound, Contents, DoUpdate;
    }
  }

  lemma UpdateKeepsId(st: State, id: int, d: Draft, env: Env, trim: Bytes -> Bytes)
    ensures DoUpdate(st, id, d, env, trim).0.Done? ==> DoUpdate(st, id, d, env, trim).0.value.id == id
  {}

  /**
   In every run, a get after a create or an update gives the very post that call answered, whatever calls,
   cache hits, expirations and failures come between, unless one of them changes or removes the post.
   */
  lemma {:induction false} ReadsOwnWrite(st: State, calls: seq<Call>, trim: Bytes -> Bytes, i: nat, j: nat, p: Post)
    requires Sound(st) && i < j < |calls| && (calls[i].Make? || calls[i].Change?)
    requires Run(st, calls, trim).0[i] == Answered(Done(p))
    requires calls[j].Get? && calls[j].id == p.id && calls[j].env.disk.readable
    requires forall k | i < k < j :: Spares(calls[k], p.id)
    ensures Run(st, calls, trim).0[j] == Answered(Done(p))
    decreases i
  {
    hide Sound, Contents, Spares, Step;
    var next := Step(st, calls[0], trim).1;
    if i == 0 {
      WrittenIsStored(st, calls[0], trim, p);
      SparedRun(next, calls[1..], trim, p.id, j - 1);
    } else {
      StepSound(st, calls[0], trim);
      ReadsOwnWrite(next, calls[1..], trim, i - 1, j - 1, p);
    }
  }

  // ---------- errors

  /** The AppError a service error is. */
  function AsGoError(e: ServiceError): GoError
  {
    match e
    case PostNotFound => App(AppError(Ascii("NOT_FOUND"), Ascii("Post not found"), 404, map[]))
    case ValidationFailed(message) => App(AppError(Ascii("VALIDATION_FAILED"), message, 422, map[]))
    case Wrapped(message) => App(AppError(Ascii("INTERNAL_ERROR"), message, 500, map[]))
  }

  /**
   No error of the service is lost on its way: a missing post is a 404, a validation error a 422 with its
   message, and everything else a 500 without one.
   */
  lemma ServiceErrorsArrive(e: ServiceError)
    ensures FromPostService(AsGoError(e))
    ensures Reported(AsGoError(e)) == Some(if e.Wrapped? then INTERNAL else AsGoError(e).e)
    ensures match e
      case PostNotFound =>
        Reported(AsGoError(e)) == Some(AppError(Ascii("NOT_FOUND"), Ascii("Post not found"), 404, map[]))
      case ValidationFailed(message) =>
        Reported(AsGoError(e)) == Some(AppError(Ascii("VALIDATION_FAILED"), message, 422, map[]))
      case Wrapped(_) =>
        Reported(AsGoError(e)) == Some(AppError(Ascii("INTERNAL_ERROR"), Ascii("Internal server error"), 500, map[]))
  {
    ServiceErrorsReported(AsGoError(e));
  }

  /** The same through the bytes of any response: the gateway gets a non-nil error, whatever else is in it. */
  lemma {:induction false} ServiceErrorOverWire(
    e: ServiceError, sch: Schema, f: map<int, Val>, w: Wire.Tree, tail: Bytes)
    requires (e.ValidationFailed? || e.Wrapped?) ==> |e.message| < MAX_SIZE
    requires ValidSchema(sch) && Message.Lookup(sch, 255) == Some(Field(255, TStruct(Schemas.BASE_RESP), false))
    requires Writing.HasType(TStruct(sch), VStruct(f)) && 255 in f && f[255] == ErrResp(AsGoError(e))
    requires Writing.Writes(TStruct(sch), VStruct(f), w)
    ensures var r := ReadStruct(sch, Message.Zero(sch), Wire.Print(w) + tail);
      && r.Ok? && 255 in r.value && IsBaseResp(r.value[255])
      && RpcErr(r.value[255]) == Some(if e.Wrapped? then INTERNAL else AsGoError(e).e)
  {
    ServiceErrorsArrive(e);
    hide ReadStruct, Writing.Writes, Wire.Print, Writing.HasType, ValidSchema, RpcErr, IsBaseResp, Reported,
      ErrResp, INTERNAL;
    ErrorArrives(AsGoError(e), sch, f, w, tail);
  }

  /**
   A draft that passes the service's check is refused by the store exactly when trimming empties it
   (trimming never lengthens). The client then sees a 500, not the 422 of a missing title.
   */
  lemma BlankDraftRefused(st: State, d: Draft, env: Env, trim: Bytes -> Bytes)
    requires CreateValid(d) && env.disk == Disk(true, true)
    requires |trim(d.title)| <= |d.title| && |trim(d.body)| <= |d.body|
    ensures var (r, _) := DoCreate(st, d, env, trim);
      && (r.Refused? <==> trim(d.title) == [] || trim(d.body) == [])
      && (r.Refused? ==> Reported(AsGoError(r.error)) == Some(INTERNAL))
  {
    ServiceErrorsArrive(CREATE_FAILED);
  }

  /** A title of one blank is such a draft. */
  lemma BlankTitle(st: State, env: Env, trim: Bytes -> Bytes)
    requires env.disk == Disk(true, true) && trim([0x20]) == [] && |trim([0x61])| <= 1
    ensures CreateValid(Draft(1, [0x20], [0x61]))
    ensures DoCreate(st, Draft(1, [0x20], [0x61]), env, trim).0 == Refused(CREATE_FAILED)
  {}
}
