/** PostService over the file store, with the cache or without it. */
module Service {
  import opened Binary
  import opened Options
  import opened Transport
  import opened Posts
  import opened Store
  import opened Cache
  import opened Listing

  datatype Draft = Draft(userId: int, title: Bytes, body: Bytes)
  datatype Cached = Many(posts: seq<Post>) | One(post: Post)

  /** The fields of a validation error are left out. */
  datatype ServiceError = PostNotFound | ValidationFailed(message: Bytes) | Wrapped(message: Bytes)
  datatype Outcome<+T> = Done(value: T) | Refused(error: ServiceError)

  /** The clock and the disk during one call. */
  datatype Env = Env(disk: Disk, lookup: int, fill: int, created: Time, updated: Time)

  datatype State = State(posts: seq<Post>, cache: Option<map<Bytes, Entry<Cached>>>)

  const TTL_ALL: nat := 10_000_000_000
  const TTL_POST: nat := 30_000_000_000
  const KEY_ALL := Ascii("posts:all")

  function KeyPost(id: int): Bytes
  {
    Ascii("post:") + Decimal(id)
  }

  lemma KeysDiffer(id: int, other: int)
    ensures KeyPost(id) != KEY_ALL
    ensures KeyPost(id) == KeyPost(other) ==> id == other
  {
    assert KeyPost(id)[4] == 58 && KEY_ALL[4] == 115;
    if KeyPost(id) == KeyPost(other) {
      assert KeyPost(id)[5..] == Decimal(id) && KeyPost(other)[5..] == Decimal(other);
      DecimalInjective(id, other);
    }
  }

  // ---------- one call as a function of the state

  /** A value of the other kind does not unmarshal, so it counts as a miss. */
  function CacheHit(c: Option<map<Bytes, Entry<Cached>>>, key: Bytes, now: int): Option<Cached>
  {
    if c.None? then None else Hit(c.value, key, now)
  }

  function LookedUp(c: Option<map<Bytes, Entry<Cached>>>, key: Bytes, now: int): Option<map<Bytes, Entry<Cached>>>
  {
    if c.None? then None else Some(Touched(c.value, key, now))
  }

  function Filled(c: Option<map<Bytes, Entry<Cached>>>, key: Bytes, value: Cached, expiration: int)
    : Option<map<Bytes, Entry<Cached>>>
  {
    if c.None? then None else Some(c.value[key := Entry(value, expiration)])
  }

  function Invalidated(c: Option<map<Bytes, Entry<Cached>>>, id: int): Option<map<Bytes, Entry<Cached>>>
  {
    if c.None? then None
    else if id == 0 then Some(c.value - {KEY_ALL})
    else Some(c.value - {KEY_ALL} - {KeyPost(id)})
  }

  const LIST_FAILED := Wrapped(Ascii("failed to retrieve posts"))
  const GET_FAILED := Wrapped(Ascii("failed to retrieve post"))
  const CREATE_FAILED := Wrapped(Ascii("failed to create post"))
  const UPDATE_FAILED := Wrapped(Ascii("failed to update post"))
  const DELETE_FAILED := Wrapped(Ascii("failed to delete post"))

  /** The posts GetAll works on. */
  function FetchAll(st: State, env: Env): (Outcome<seq<Post>>, State)
  {
    var hit := CacheHit(st.cache, KEY_ALL, env.lookup);
    var cache := LookedUp(st.cache, KEY_ALL, env.lookup);
    if hit.Some? && hit.value.Many? then (Done(hit.value.posts), st.(cache := cache))
    else if !env.disk.readable then (Refused(LIST_FAILED), st.(cache := cache))
    else (Done(st.posts), st.(cache := Filled(cache, KEY_ALL, Many(st.posts), env.fill + TTL_ALL)))
  }

  function FetchOne(st: State, id: int, env: Env): (Outcome<Post>, State)
  {
    var hit := CacheHit(st.cache, KeyPost(id), env.lookup);
    var cache := LookedUp(st.cache, KeyPost(id), env.lookup);
    if hit.Some? && hit.value.One? then (Done(hit.value.post), st.(cache := cache))
    else
      match FoundReply(st.posts, id, env.disk)
      case Failure(NotFound) => (Refused(PostNotFound), st.(cache := cache))
      case Failure(_) => (Refused(GET_FAILED), st.(cache := cache))
      case Success(p) => (Done(p), st.(cache := Filled(cache, KeyPost(id), One(p), env.fill + TTL_POST)))
  }

  predicate CreateValid(d: Draft)
  {
    0 < |d.title| <= MAX_TITLE && 0 < |d.body| <= MAX_BODY
  }

  /** trim is strings.TrimSpace. */
  function Trimmed(d: Draft, trim: Bytes -> Bytes, zero: Time): Post
  {
    Post(0, d.userId, trim(d.title), trim(d.body), zero, zero)
  }

  const INVALID := ValidationFailed(Ascii("validation failed"))
  const ZERO := Time(0, 0)

  function DoCreate(st: State, d: Draft, env: Env, trim: Bytes -> Bytes): (Outcome<Post>, State)
  {
    if !CreateValid(d) then (Refused(INVALID), st)
    else
      match CreateReply(st.posts, Trimmed(d, trim, ZERO), env.created, env.updated, env.disk)
      case Failure(_) => (Refused(CREATE_FAILED), st)
      case Success(p) => (Done(p), State(st.posts + [p], Invalidated(st.cache, 0)))
  }

  /** The post an update asks for, or why it is refused; zero and empty fields are left alone. */
  function Edited(p: Post, d: Draft, trim: Bytes -> Bytes): Outcome<Post>
  {
    if |d.title| > MAX_TITLE then Refused(ValidationFailed(Ascii("title too long")))
    else if |d.body| > MAX_BODY then Refused(ValidationFailed(Ascii("body too long")))
    else Done(p.(userId := if d.userId != 0 then d.userId else p.userId,
                 title := if d.title != [] then trim(d.title) else p.title,
                 body := if d.body != [] then trim(d.body) else p.body))
  }

  function DoUpdate(st: State, id: int, d: Draft, env: Env, trim: Bytes -> Bytes): (Outcome<Post>, State)
  {
    match FoundReply(st.posts, id, env.disk)
    case Failure(NotFound) => (Refused(PostNotFound), st)
    case Failure(_) => (Refused(GET_FAILED), st)
    case Success(existing) =>
      match Edited(existing, d, trim)
      case Refused(e) => (Refused(e), st)
      case Done(edited) =>
        match UpdateReply(st.posts, edited, env.updated, env.disk)
        case Failure(_) => (Refused(UPDATE_FAILED), st)
        case Success(p) => (Done(p), State(Replaced(st.posts, p), Invalidated(st.cache, id)))
  }

  function DoDelete(st: State, id: int, env: Env): (Outcome<()>, State)
  {
    match DeleteReply(st.posts, id, env.disk)
    case Failure(NotFound) => (Refused(PostNotFound), st)
    case Failure(_) => (Refused(DELETE_FAILED), st)
    case Success(_) => (Done(()), State(Removed(st.posts, id), Invalidated(st.cache, id)))
  }

  /** The outcomes of the single creations, and the state after the last. */
  function DoBulk(st: State, items: seq<(Draft, Env)>, trim: Bytes -> Bytes): (r: (seq<Outcome<Post>>, State))
    ensures |r.0| == |items|
  {
    if items == [] then ([], st)
    else
      var (before, mid) := DoBulk(st, items[..|items| - 1], trim);
      var (last, end) := DoCreate(mid, items[|items| - 1].0, items[|items| - 1].1, trim);
      (before + [last], end)
  }

  // ---------- the service object

  datatype BulkResponse = BulkResponse(created: nat, failed: nat, postIds: seq<int>)

  function Successes(outcomes: seq<Outcome<Post>>): seq<int>
  {
    if outcomes == [] then []
    else
      var rest := Successes(outcomes[..|outcomes| - 1]);
      var last := outcomes[|outcomes| - 1];
      if last.Done? then rest + [last.value.id] else rest
  }

  function Failures(outcomes: seq<Outcome<Post>>): nat
  {
    if outcomes == [] then 0
    else Failures(outcomes[..|outcomes| - 1]) + if outcomes[|outcomes| - 1].Refused? then 1 else 0
  }

  function Bulk(outcomes: seq<Outcome<Post>>): BulkResponse
  {
    BulkResponse(|Successes(outcomes)|, Failures(outcomes), Successes(outcomes))
  }

  lemma {:induction false} EachCounted(outcomes: seq<Outcome<Post>>)
    ensures |Successes(outcomes)| + Failures(outcomes) == |outcomes|
  {
    if outcomes != [] {
      EachCounted(outcomes[..|outcomes| - 1]);
    }
  }

  class PostService {
    const storage: FileStorage
    const cache: MemoryCache?<Cached>

    constructor (storage: FileStorage, cache: MemoryCache?<Cached>)
      ensures this.storage == storage && this.cache == cache
    {
      this.storage := storage;
      this.cache := cache;
    }

    ghost function Now(): State
      reads storage, cache
    {
      State(storage.file, if cache == null then None else Some(cache.data))
    }

    method Invalidate(id: int)
      modifies cache
      ensures Now() == old(Now()).(cache := Invalidated(old(Now()).cache, id))
    {
      if cache == null {
        return;
      }
      cache.Delete(KEY_ALL);
      if id != 0 {
        cache.Delete(KeyPost(id));
      }
    }

    method Fetch(env: Env) returns (r: Outcome<seq<Post>>)
      modifies cache
      ensures (r, Now()) == FetchAll(old(Now()), env)
    {
      if cache != null {
        var hit := cache.Get(KEY_ALL, env.lookup);
        if hit.Some? && hit.value.Many? {
          return Done(hit.value.posts);
        }
      }
      var stored := storage.GetAll(env.disk);
      if stored.Failure? {
        return Refused(LIST_FAILED);
      }
      if cache != null {
        cache.Set(KEY_ALL, Many(stored.value), TTL_ALL, env.fill);
      }
      return Done(stored.value);
    }

    /** The pipeline runs fresh over the posts fetched, cached or not. */
    method GetAll(filter: Option<Filter>, lower: Bytes -> Bytes, params: Option<Params>, env: Env)
      returns (r: Outcome<(seq<Post>, Option<Meta>)>)
      requires params.Some? ==> params.value.offset >= 0 && params.value.pageSize >= 1
      modifies cache
      ensures Now() == FetchAll(old(Now()), env).1
      ensures match FetchAll(old(Now()), env).0
        case Refused(e) => r == Refused(e)
        case Done(fetched) => r.Done? && Answers(fetched, filter, lower, params, r.value.0, r.value.1)
    {
      var fetched := Fetch(env);
      if fetched.Refused? {
        return Refused(fetched.error);
      }
      var posts, meta := ListPosts(fetched.value, filter, lower, params);
      return Done((posts, meta));
    }

    method GetByID(id: int, env: Env) returns (r: Outcome<Post>)
      modifies cache
      ensures (r, Now()) == FetchOne(old(Now()), id, env)
    {
      if cache != null {
        var hit := cache.Get(KeyPost(id), env.lookup);
        if hit.Some? && hit.value.One? {
          return Done(hit.value.post);
        }
      }
      var found := storage.GetByID(id, env.disk);
      if found.Failure? {
        return Refused(if found.error == NotFound then PostNotFound else GET_FAILED);
      }
      if cache != null {
        cache.Set(KeyPost(id), One(found.value), TTL_POST, env.fill);
      }
      return Done(found.value);
    }

    method Create(d: Draft, env: Env, trim: Bytes -> Bytes) returns (r: Outcome<Post>)
      modifies storage, cache
      ensures (r, Now()) == DoCreate(old(Now()), d, env, trim)
    {
      if !CreateValid(d) {
        return Refused(INVALID);
      }
      var stored, _ := storage.Create(Trimmed(d, trim, ZERO), env.created, env.updated, env.disk);
      if stored.Failure? {
        return Refused(CREATE_FAILED);
      }
      Invalidate(0);
      return Done(stored.value);
    }

    method Update(id: int, d: Draft, env: Env, trim: Bytes -> Bytes) returns (r: Outcome<Post>)
      modifies storage, cache
      ensures (r, Now()) == DoUpdate(old(Now()), id, d, env, trim)
    {
      var existing := storage.GetByID(id, env.disk);
      if existing.Failure? {
        return Refused(if existing.error == NotFound then PostNotFound else GET_FAILED);
      }
      var post := existing.value;
      if d.userId != 0 {
        post := post.(userId := d.userId);
      }
      if d.title != [] {
        if |d.title| > MAX_TITLE {
          return Refused(ValidationFailed(Ascii("title too long")));
        }
        post := post.(title := trim(d.title));
      }
      if d.body != [] {
        if |d.body| > MAX_BODY {
          return Refused(ValidationFailed(Ascii("body too long")));
        }
        post := post.(body := trim(d.body));
      }
      var stored, _ := storage.Update(post, env.updated, env.disk);
      if stored.Failure? {
        return Refused(UPDATE_FAILED);
      }
      Invalidate(id);
      return Done(stored.value);
    }

    method Delete(id: int, env: Env) returns (r: Outcome<()>)
      modifies storage, cache
      ensures (r, Now()) == DoDelete(old(Now()), id, env)
    {
      var deleted := storage.Delete(id, env.disk);
      if deleted.Failure? {
        return Refused(if deleted.error == NotFound then PostNotFound else DELETE_FAILED);
      }
      Invalidate(id);
      return Done(());
    }

    method BulkCreate(items: seq<(Draft, Env)>, trim: Bytes -> Bytes) returns (r: BulkResponse)
      modifies storage, cache
      ensures r == Bulk(DoBulk(old(Now()), items, trim).0)
      ensures Now() == DoBulk(old(Now()), items, trim).1
    {
      var created: nat, failed: nat, postIds: seq<int> := 0, 0, [];
      ghost var outcomes: seq<Outcome<Post>> := [];
      for i := 0 to |items|
        invariant (outcomes, Now()) == DoBulk(old(Now()), items[..i], trim)
        invariant postIds == Successes(outcomes) && created == |postIds| && failed == Failures(outcomes)
      {
        assert items[..i + 1][..i] == items[..i];
        var post := Create(items[i].0, items[i].1, trim);
        outcomes := outcomes + [post];
        assert outcomes[..i] == outcomes[..|outcomes| - 1];
        if post.Refused? {
          failed := failed + 1;
        } else {
          created := created + 1;
          postIds := postIds + [post.value.id];
        }
      }
      assert items[..|items|] == items;
      r := BulkResponse(created, failed, postIds);
    }
  }
}
