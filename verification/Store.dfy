/**
 FileStorage: every operation reads the whole post list, changes it and writes it back. Marshalling
 and unmarshalling are taken to be inverse and a file write to be atomic.
 */
module Store {
  import opened Binary
  import opened Options
  import opened Posts

  datatype StoreError = NotFound | Invalid | Failed
  datatype Reply<+T> = Success(value: T) | Failure(error: StoreError)

  /** Whether reading and writing the file succeed. */
  datatype Disk = Disk(readable: bool, writable: bool)

  const MAX_TITLE := 500
  const MAX_BODY := 10000

  /** Post.Validate */
  predicate Valid(p: Post)
  {
    0 < |p.title| <= MAX_TITLE && 0 < |p.body| <= MAX_BODY
  }

  // ---------- the post list and the map it stands for

  /** Ids are positive and strictly increasing. */
  predicate IsStore(posts: seq<Post>)
  {
    && (forall i | 0 <= i < |posts| :: posts[i].id > 0)
    && forall i, j | 0 <= i < j < |posts| :: posts[i].id < posts[j].id
  }

  function Find(posts: seq<Post>, id: int): (r: Option<Post>)
    ensures r.Some? ==> r.value in posts && r.value.id == id
    ensures r.None? <==> forall p <- posts :: p.id != id
  {
    if posts == [] then None
    else if posts[0].id == id then Some(posts[0])
    else Find(posts[1..], id)
  }

  function Contents(posts: seq<Post>): map<int, Post>
  {
    map id | id in (set p | p in posts :: p.id) :: Find(posts, id).value
  }

  /** In a store every post is found under its own id. */
  lemma {:induction false} FindOwn(posts: seq<Post>, i: nat)
    requires IsStore(posts) && i < |posts|
    ensures Find(posts, posts[i].id) == Some(posts[i])
  {
    if i > 0 {
      FindOwn(posts[1..], i - 1);
    }
  }

  lemma {:induction false} ContentsAt(posts: seq<Post>, id: int)
    ensures id in Contents(posts) <==> Find(posts, id).Some?
    ensures id in Contents(posts) ==> Contents(posts)[id] == Find(posts, id).value
  {
    if Find(posts, id).Some? {
      assert Find(posts, id).value in posts;
    }
  }

  /** The map is m if m has exactly the posts of the store under their ids. */
  lemma ContentsAre(posts: seq<Post>, m: map<int, Post>)
    requires IsStore(posts)
    requires forall p <- posts :: p.id in m && m[p.id] == p
    requires forall id <- m :: exists i | 0 <= i < |posts| :: posts[i].id == id
    ensures Contents(posts) == m
  {
    hide Find;
    forall id ensures id in Contents(posts) <==> id in m {
      ContentsAt(posts, id);
      if id in m {
        var i :| 0 <= i < |posts| && posts[i].id == id;
        assert posts[i] in posts;
      }
    }
    forall id | id in Contents(posts) ensures Contents(posts)[id] == m[id] {
      ContentsAt(posts, id);
      assert Find(posts, id).value in posts;
    }
  }

  lemma InContents(posts: seq<Post>, p: Post)
    requires IsStore(posts) && p in posts
    ensures p.id in Contents(posts) && Contents(posts)[p.id] == p
  {
    var i :| 0 <= i < |posts| && posts[i] == p;
    FindOwn(posts, i);
    ContentsAt(posts, p.id);
  }

  lemma FromContents(posts: seq<Post>, id: int) returns (i: nat)
    requires IsStore(posts) && id in Contents(posts)
    ensures i < |posts| && posts[i] == Contents(posts)[id] && posts[i].id == id
  {
    ContentsAt(posts, id);
    i :| 0 <= i < |posts| && posts[i] == Find(posts, id).value;
  }

  // ---------- what the operations do to the list

  function MaxId(posts: seq<Post>): (m: nat)
    ensures forall p <- posts :: p.id <= m
  {
    if posts == [] then 0
    else
      var before := MaxId(posts[..|posts| - 1]);
      assert forall p <- posts :: p in posts[..|posts| - 1] || p == posts[|posts| - 1];
      if posts[|posts| - 1].id > before then posts[|posts| - 1].id else before
  }

  /** The batch numbered from next on, its missing times set. */
  function Numbered(batch: seq<Post>, next: int, now: Time, zero: Time): (r: seq<Post>)
    ensures |r| == |batch|
    ensures forall i | 0 <= i < |r| :: r[i].id == next + i && r[i] == Dated(batch[i], next + i, now, zero)
  {
    seq(|batch|, i requires 0 <= i < |batch| => Dated(batch[i], next + i, now, zero))
  }

  function Dated(p: Post, id: int, now: Time, zero: Time): Post
  {
    p.(id := id,
       createdAt := if p.createdAt == zero then now else p.createdAt,
       updatedAt := if p.updatedAt == zero then now else p.updatedAt)
  }

  function Replaced(posts: seq<Post>, p: Post): (r: seq<Post>)
    ensures |r| == |posts|
  {
    if posts == [] then []
    else if posts[0].id == p.id then [p] + posts[1..]
    else [posts[0]] + Replaced(posts[1..], p)
  }

  function Removed(posts: seq<Post>, id: int): seq<Post>
  {
    if posts == [] then []
    else
      var rest := Removed(posts[..|posts| - 1], id);
      if posts[|posts| - 1].id != id then rest + [posts[|posts| - 1]] else rest
  }

  // ---------- and to the map

  lemma {:induction false} AppendIsStore(posts: seq<Post>, more: seq<Post>)
    requires IsStore(posts) && forall i | 0 <= i < |more| :: more[i].id == MaxId(posts) + 1 + i
    ensures IsStore(posts + more) && IsStore(more)
    ensures forall id <- Contents(more) :: id !in Contents(posts)
  {
    hide Contents, Find;
    assert forall i, j | 0 <= i < |posts| && 0 <= j < |more| :: posts[i] in posts && posts[i].id < more[j].id;
    forall id | id in Contents(more) ensures id !in Contents(posts) {
      var j := FromContents(more, id);
      ContentsAt(posts, id);
      assert forall q <- posts :: q.id != more[j].id;
    }
  }

  /** Appending posts numbered from MaxId + 1 adds fresh ids and keeps every other post. */
  lemma {:induction false} AppendAdds(posts: seq<Post>, more: seq<Post>)
    requires IsStore(posts) && forall i | 0 <= i < |more| :: more[i].id == MaxId(posts) + 1 + i
    ensures IsStore(posts + more) && IsStore(more)
    ensures forall id <- Contents(more) :: id !in Contents(posts)
    ensures Contents(posts + more) == Contents(posts) + Contents(more)
  {
    AppendIsStore(posts, more);
    hide Contents, IsStore, MaxId;
    var all, m := posts + more, Contents(posts) + Contents(more);
    forall p | p in all ensures p.id in m && m[p.id] == p {
      if p in more {
        InContents(more, p);
      } else {
        InContents(posts, p);
      }
    }
    forall id | id in m ensures exists i | 0 <= i < |all| :: all[i].id == id {
      if id in Contents(more) {
        var j := FromContents(more, id);
        assert all[|posts| + j].id == id;
      } else {
        var i := FromContents(posts, id);
        assert all[i].id == id;
      }
    }
    ContentsAre(all, m);
  }

  /** A batch is added whole, under consecutive fresh ids. */
  lemma {:induction false} BatchAdds(posts: seq<Post>, batch: seq<Post>, now: Time, zero: Time)
    requires IsStore(posts)
    ensures var more := Numbered(batch, MaxId(posts) + 1, now, zero);
      && IsStore(posts + more) && Contents(posts + more) == Contents(posts) + Contents(more)
      && (forall id <- Contents(more) :: id !in Contents(posts))
      && |Contents(posts + more)| == |Contents(posts)| + |batch|
    ensures var more := Numbered(batch, MaxId(posts) + 1, now, zero);
      forall i | 0 <= i < |batch| ::
        more[i] == Post(MaxId(posts) + 1 + i, batch[i].userId, batch[i].title, batch[i].body,
          if batch[i].createdAt == zero then now else batch[i].createdAt,
          if batch[i].updatedAt == zero then now else batch[i].updatedAt)
  {
    var more := Numbered(batch, MaxId(posts) + 1, now, zero);
    hide Contents, IsStore, MaxId, Find;
    assert forall i | 0 <= i < |batch| :: more[i] == Dated(batch[i], MaxId(posts) + 1 + i, now, zero);
    hide Numbered;
    AppendAdds(posts, more);
    ContentsSize(posts);
    ContentsSize(posts + more);
  }

  lemma {:induction false} ContentsSize(posts: seq<Post>)
    requires IsStore(posts)
    ensures |Contents(posts)| == |posts|
  {
    assert Contents(posts).Keys == set p | p in posts :: p.id;
    IdsSize(posts);
    assert |Contents(posts)| == |Contents(posts).Keys|;
  }

  lemma {:induction false} IdsSize(posts: seq<Post>)
    requires IsStore(posts)
    ensures |set p | p in posts :: p.id| == |posts|
  {
    if posts != [] {
      var rest, last := posts[..|posts| - 1], posts[|posts| - 1];
      IdsSize(rest);
      assert forall p <- posts :: p in rest || p == last;
      assert (set p | p in posts :: p.id) == (set p | p in rest :: p.id) + {last.id};
    }
  }

  lemma {:induction false} ReplacedAt(posts: seq<Post>, p: Post, i: nat)
    requires IsStore(posts) && i < |posts|
    ensures Replaced(posts, p)[i] == if posts[i].id == p.id then p else posts[i]
  {
    if posts[0].id != p.id && i > 0 {
      ReplacedAt(posts[1..], p, i - 1);
    }
  }

  /** An update replaces one post in its place and keeps every other. */
  lemma {:induction false} ReplaceUpdates(posts: seq<Post>, p: Post)
    requires IsStore(posts) && p.id in Contents(posts)
    ensures IsStore(Replaced(posts, p))
    ensures Contents(Replaced(posts, p)) == Contents(posts)[p.id := p]
  {
    hide Find, Replaced, Contents;
    var r, m := Replaced(posts, p), Contents(posts)[p.id := p];
    forall i | 0 <= i < |posts|
      ensures r[i] == (if posts[i].id == p.id then p else posts[i]) && r[i].id == posts[i].id
    {
      ReplacedAt(posts, p, i);
    }
    forall q | q in r ensures q.id in m && m[q.id] == q {
      var i :| 0 <= i < |r| && r[i] == q;
      InContents(posts, posts[i]);
    }
    forall id | id in m ensures exists i | 0 <= i < |r| :: r[i].id == id {
      var i := FromContents(posts, id);
      assert r[i].id == id;
    }
    ContentsAre(r, m);
  }

  /** Removed keeps the posts with other ids, in their order. */
  lemma {:induction false} RemovedKeeps(posts: seq<Post>, id: int)
    requires IsStore(posts)
    ensures IsStore(Removed(posts, id))
    ensures forall p :: p in Removed(posts, id) <==> p in posts && p.id != id
  {
    if posts != [] {
      var rest, last := posts[..|posts| - 1], posts[|posts| - 1];
      RemovedKeeps(rest, id);
      assert posts == rest + [last];
      forall i | 0 <= i < |Removed(rest, id)| ensures Removed(rest, id)[i].id < last.id {
        assert Removed(rest, id)[i] in rest;
      }
    }
  }

  /** A delete removes exactly one post. */
  lemma {:induction false} RemoveDeletes(posts: seq<Post>, id: int)
    requires IsStore(posts)
    ensures IsStore(Removed(posts, id))
    ensures Contents(Removed(posts, id)) == Contents(posts) - {id}
    ensures id in Contents(posts) ==> |Removed(posts, id)| + 1 == |posts|
  {
    hide Find, Removed, Contents;
    RemovedKeeps(posts, id);
    var r, m := Removed(posts, id), Contents(posts) - {id};
    forall p | p in r ensures p.id in m && m[p.id] == p {
      InContents(posts, p);
    }
    forall k | k in m ensures exists i | 0 <= i < |r| :: r[i].id == k {
      var i := FromContents(posts, k);
      assert posts[i] in r;
    }
    ContentsAre(r, m);
    ContentsSize(r);
    ContentsSize(posts);
  }

  // ---------- how the writes act on Find

  lemma {:induction false} FindAppended(posts: seq<Post>, p: Post, id: int)
    ensures Find(posts, id).Some? ==> Find(posts + [p], id) == Find(posts, id)
    ensures Find(posts, id).None? ==> Find(posts + [p], id) == if p.id == id then Some(p) else None
  {
    if posts != [] {
      assert (posts + [p])[1..] == posts[1..] + [p];
      FindAppended(posts[1..], p, id);
    }
  }

  lemma {:induction false} FindReplaced(posts: seq<Post>, p: Post, id: int)
    requires id != p.id
    ensures Find(Replaced(posts, p), id) == Find(posts, id)
  {
    if posts != [] && posts[0].id != p.id {
      FindReplaced(posts[1..], p, id);
    }
  }

  lemma {:induction false} FindRemoved(posts: seq<Post>, gone: int, id: int)
    requires IsStore(posts) && id != gone
    ensures Find(Removed(posts, gone), id) == Find(posts, id)
  {
    hide Find, Removed, Contents;
    RemoveDeletes(posts, gone);
    ContentsAt(posts, id);
    ContentsAt(Removed(posts, gone), id);
  }

  lemma {:induction false} NoZero(posts: seq<Post>)
    requires IsStore(posts)
    ensures Find(posts, 0).None?
  {}

  /** The post to replace is not among the first i. */
  ghost predicate Searched(posts: seq<Post>, p: Post, i: nat)
    requires i <= |posts|
  {
    && Find(posts, p.id) == Find(posts[i..], p.id)
    && Replaced(posts, p) == posts[..i] + Replaced(posts[i..], p)
  }

  lemma SearchStarts(posts: seq<Post>, p: Post)
    ensures Searched(posts, p, 0)
  {
    assert posts[0..] == posts;
  }

  lemma {:induction false} SearchGoesOn(posts: seq<Post>, p: Post, i: nat)
    requires i < |posts| && Searched(posts, p, i)
    ensures posts[i].id == p.id ==> Find(posts, p.id).Some? && Replaced(posts, p) == posts[i := p]
    ensures posts[i].id != p.id ==> Searched(posts, p, i + 1)
  {
    hide Find, Replaced;
    First(posts[i..], p);
    Splits(posts, p, i, Replaced(posts[i + 1..], p));
  }

  lemma Splits(posts: seq<Post>, p: Post, i: nat, rest: seq<Post>)
    requires i < |posts|
    ensures posts[i..][1..] == posts[i + 1..] && posts[i..][0] == posts[i]
    ensures posts[i := p] == posts[..i] + ([p] + posts[i + 1..])
    ensures posts[..i] + ([posts[i]] + rest) == posts[..i + 1] + rest
  {}

  lemma {:induction false} First(posts: seq<Post>, p: Post)
    requires posts != []
    ensures posts[0].id == p.id ==> Find(posts, p.id) == Some(posts[0]) && Replaced(posts, p) == [p] + posts[1..]
    ensures posts[0].id != p.id ==>
      Find(posts, p.id) == Find(posts[1..], p.id) && Replaced(posts, p) == [posts[0]] + Replaced(posts[1..], p)
  {}

  lemma {:induction false} SearchEnds(posts: seq<Post>, p: Post, i: nat)
    requires i <= |posts| && Searched(posts, p, i)
    ensures i == |posts| ==> Find(posts, p.id).None?
  {}

  // ---------- the storage object

  class FileStorage {
    var file: seq<Post>

    /** A missing file is created empty. */
    constructor ()
      ensures file == []
    {
      file := [];
    }

    method GetAll(disk: Disk) returns (r: Reply<seq<Post>>)
      ensures r == if disk.readable then Success(file) else Failure(Failed)
    {
      if !disk.readable {
        return Failure(Failed);
      }
      return Success(file);
    }

    method GetByID(id: int, disk: Disk) returns (r: Reply<Post>)
      ensures r == FoundReply(file, id, disk)
      ensures r == Failure(Failed) <==> !disk.readable
      ensures r == Failure(NotFound) ==> forall i | 0 <= i < |file| :: file[i].id != id
      ensures r.Success? ==>
        exists i | 0 <= i < |file| ::
          file[i] == r.value && r.value.id == id && forall j | 0 <= j < i :: file[j].id != id
    {
      if !disk.readable {
        return Failure(Failed);
      }
      for i := 0 to |file|
        invariant Find(file, id) == Find(file[i..], id)
        invariant forall j | 0 <= j < i :: file[j].id != id
      {
        if file[i].id == id {
          return Success(file[i]);
        }
        assert file[i..][1..] == file[i + 1..];
      }
      return Failure(NotFound);
    }

    /** maxID over the posts read. */
    static method LargestId(posts: seq<Post>) returns (maxID: nat)
      ensures maxID == MaxId(posts)
    {
      maxID := 0;
      for i := 0 to |posts|
        invariant maxID == MaxId(posts[..i])
      {
        assert posts[..i + 1][..i] == posts[..i];
        if posts[i].id > maxID {
          maxID := posts[i].id;
        }
      }
      assert posts[..|posts|] == posts;
    }

    /** left is the caller's post after the call: it is numbered and dated even if the write then fails. */
    method Create(post: Post, created: Time, updated: Time, disk: Disk) returns (r: Reply<Post>, left: Post)
      modifies this
      ensures r == CreateReply(old(file), post, created, updated, disk)
      ensures file == if r.Success? then old(file) + [r.value] else old(file)
      ensures left == if Valid(post) && disk.readable
        then post.(id := MaxId(old(file)) + 1, createdAt := created, updatedAt := updated) else post
    {
      left := post;
      if !Valid(post) {
        return Failure(Invalid), left;
      }
      if !disk.readable {
        return Failure(Failed), left;
      }
      var maxID := LargestId(file);
      left := left.(id := maxID + 1, createdAt := created, updatedAt := updated);
      if !disk.writable {
        return Failure(Failed), left;
      }
      file := file + [left];
      return Success(left), left;
    }

    /** left is the caller's post after the call: it has its new time even if the write then fails. */
    method Update(post: Post, updated: Time, disk: Disk) returns (r: Reply<Post>, left: Post)
      modifies this
      ensures r == UpdateReply(old(file), post, updated, disk)
      ensures file == if r.Success? then Replaced(old(file), r.value) else old(file)
      ensures left == if Valid(post) && disk.readable && Find(old(file), post.id).Some?
        then post.(updatedAt := updated) else post
    {
      left := post;
      if !Valid(post) {
        return Failure(Invalid), left;
      }
      if !disk.readable {
        return Failure(Failed), left;
      }
      ghost var stored := post.(updatedAt := updated);
      var posts, found, i: nat := file, false, 0;
      SearchStarts(file, stored);
      hide Find, Replaced;
      while i < |posts| && !found
        invariant i <= |posts| == |file|
        invariant Searched(file, stored, i)
        invariant posts == if found then Replaced(file, stored) else file
        invariant left == if found then stored else post
        invariant found ==> Find(file, post.id).Some?
        invariant file == old(file)
        decreases |posts| - i, !found
      {
        SearchGoesOn(file, stored, i);
        if posts[i].id == post.id {
          left := left.(updatedAt := updated);
          posts, found := posts[i := left], true;
        } else {
          i := i + 1;
        }
      }
      if !found {
        SearchEnds(file, stored, i);
        assert Find(file, post.id).None?;
        return Failure(NotFound), left;
      }
      if !disk.writable {
        return Failure(Failed), left;
      }
      file := posts;
      return Success(left), left;
    }

    method Delete(id: int, disk: Disk) returns (r: Reply<()>)
      modifies this
      ensures r == DeleteReply(old(file), id, disk)
      ensures file == if r.Success? then Removed(old(file), id) else old(file)
    {
      if !disk.readable {
        return Failure(Failed);
      }
      var newPosts: seq<Post>, found := [], false;
      for i := 0 to |file|
        invariant newPosts == Removed(file[..i], id)
        invariant found <==> exists p <- file[..i] :: p.id == id
      {
        assert file[..i + 1][..i] == file[..i] && file[..i + 1] == file[..i] + [file[i]];
        if file[i].id != id {
          newPosts := newPosts + [file[i]];
        } else {
          found := true;
        }
      }
      assert file[..|file|] == file;
      if !found {
        return Failure(NotFound);
      }
      if !disk.writable {
        return Failure(Failed);
      }
      file := newPosts;
      return Success(());
    }

    /** zero is the time.Time whose IsZero holds; left is the caller's slice after the call. */
    method BatchCreate(newPosts: seq<Post>, now: Time, zero: Time, disk: Disk) returns (r: Reply<()>, left: seq<Post>)
      modifies this
      ensures r == if disk.readable && disk.writable then Success(()) else Failure(Failed)
      ensures file == if r.Success? then old(file) + left else old(file)
      ensures left == if disk.readable then Numbered(newPosts, MaxId(old(file)) + 1, now, zero) else newPosts
    {
      left := newPosts;
      if !disk.readable {
        return Failure(Failed), left;
      }
      var first := LargestId(file);
      var maxID := first;
      for i := 0 to |newPosts|
        invariant maxID == first + i && |left| == |newPosts|
        invariant left[..i] == Numbered(newPosts, first + 1, now, zero)[..i] && left[i..] == newPosts[i..]
      {
        maxID := maxID + 1;
        assert left[i] == left[i..][0] == newPosts[i];
        var p := left[i].(id := maxID);
        if p.createdAt == zero {
          p := p.(createdAt := now);
        }
        if p.updatedAt == zero {
          p := p.(updatedAt := now);
        }
        ghost var before := left;
        left := left[i := p];
        assert left[..i + 1] == before[..i] + [p] && left[i + 1..] == before[i..][1..];
      }
      assert left == left[..|newPosts|];
      if !disk.writable {
        return Failure(Failed), left;
      }
      file := file + left;
      return Success(()), left;
    }
  }

  function FoundReply(file: seq<Post>, id: int, disk: Disk): Reply<Post>
  {
    if !disk.readable then Failure(Failed)
    else if Find(file, id).Some? then Success(Find(file, id).value)
    else Failure(NotFound)
  }

  function CreateReply(file: seq<Post>, post: Post, created: Time, updated: Time, disk: Disk): Reply<Post>
  {
    if !Valid(post) then Failure(Invalid)
    else if !disk.readable || !disk.writable then Failure(Failed)
    else Success(post.(id := MaxId(file) + 1, createdAt := created, updatedAt := updated))
  }

  function UpdateReply(file: seq<Post>, post: Post, updated: Time, disk: Disk): Reply<Post>
  {
    if !Valid(post) then Failure(Invalid)
    else if !disk.readable then Failure(Failed)
    else if Find(file, post.id).None? then Failure(NotFound)
    else if !disk.writable then Failure(Failed)
    else Success(post.(updatedAt := updated))
  }

  function DeleteReply(file: seq<Post>, id: int, disk: Disk): Reply<()>
  {
    if !disk.readable then Failure(Failed)
    else if Find(file, id).None? then Failure(NotFound)
    else if !disk.writable then Failure(Failed)
    else Success(())
  }
}
