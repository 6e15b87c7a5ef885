/** Update reads the post and writes it back in two accesses: what a concurrent write in between does to it. */
module LostUpdate {
  import opened Binary
  import opened Options
  import opened Posts
  import opened Store
  import opened Service
  import opened CacheRace

  /** The post an update writes if it starts from p; stamp is the new update time. */
  function Rewritten(p: Post, d: Draft, trim: Bytes -> Bytes, stamp: Time): Post
    requires Edited(p, d, trim).Done?
  {
    Edited(p, d, trim).value.(updatedAt := stamp)
  }

  /** The fields the request leaves alone, and the creation time, agree. */
  predicate UntouchedAgree(read: Post, now: Post, d: Draft)
  {
    && read.createdAt == now.createdAt
    && (d.userId == 0 ==> read.userId == now.userId)
    && (d.title == [] ==> read.title == now.title)
    && (d.body == [] ==> read.body == now.body)
  }

  /** Thread t is about to write back the post its update made of what it read. */
  predicate WritesBack(s: World, a: Action, t: nat, d: Draft, trim: Bytes -> Bytes, stamp: Time)
    requires s.history != []
  {
    && Enabled(s, a) && a.Write? && a.t == t && a.c.Replace? && At(s, t).Editing?
    && Edited(At(s, t).post, d, trim).Done? && a.c.post == Rewritten(At(s, t).post, d, trim, stamp)
  }

  /**
   In every run, what an update stores is what it would have stored in a single step, over the post as it
   is at the write, exactly when nothing the request leaves alone has changed since its read. Otherwise
   it takes back somebody else's change.
   */
  lemma UpdateAtomicIff(
    ss: seq<World>, acts: seq<Action>, n: nat, t: nat, d: Draft, trim: Bytes -> Bytes, stamp: Time)
    requires IsRun(ss, acts) && Initial(ss[0]) && n < |acts| && WritesBack(ss[n], acts[n], t, d, trim, stamp)
    ensures var s, id := ss[n], At(ss[n], t).id;
      && Find(Current(s), id).Some? && Edited(Find(Current(s), id).value, d, trim).Done?
      && (Current(ss[n + 1]) == Replaced(Current(s), Rewritten(Find(Current(s), id).value, d, trim, stamp)) <==>
            UntouchedAgree(At(s, t).post, Find(Current(s), id).value, d))
  {
    InitialIsFresh(ss[0]);
    RunsStayReal(ss, acts, n);
    var s, id := ss[n], At(ss[n], t).id;
    assert ThreadGood(s, At(s, t));
    assert At(s, t).post.id == id;
    var atomic := Rewritten(Find(Current(s), id).value, d, trim, stamp);
    OnlyWritesChange(s, acts[n]);
    hide Do, Find, Replaced, Real;
    ReplacedApart(Current(s), acts[n].c.post, atomic);
  }

  /** Replacing one post by two different ones gives different lists. */
  lemma {:induction false} ReplacedApart(posts: seq<Post>, p: Post, q: Post)
    requires p.id == q.id && Find(posts, p.id).Some?
    ensures Replaced(posts, p) == Replaced(posts, q) <==> p == q
  {
    if posts[0].id == p.id {
      assert ([p] + posts[1..])[0] == p && ([q] + posts[1..])[0] == q;
    } else {
      ReplacedApart(posts[1..], p, q);
      var r, u := [posts[0]] + Replaced(posts[1..], p), [posts[0]] + Replaced(posts[1..], q);
      assert r[1..] == Replaced(posts[1..], p) && u[1..] == Replaced(posts[1..], q);
    }
  }

  /** A write of another post, or none. */
  predicate LeavesAlone(a: Action, id: int)
  {
    a.Write? ==> Of(id) !in Drops(a.c)
  }

  lemma {:induction false} StillAsRead(ss: seq<World>, acts: seq<Action>, i: nat, n: nat, t: nat, id: int)
    requires IsRun(ss, acts) && i < n < |ss| && acts[i] == ReadForUpdate(t, id) && IsStore(Current(ss[i]))
    requires forall j | i < j < n :: LeavesAlone(acts[j], id)
    ensures IsStore(Current(ss[n])) && Find(Current(ss[n]), id) == Find(Current(ss[i]), id)
    decreases n
  {
    hide Do, Enabled, IsStore, Drops;
    OnlyWritesChange(ss[n - 1], acts[n - 1]);
    assert ss[n] == Do(ss[n - 1], acts[n - 1]);
    if n - 1 > i {
      StillAsRead(ss, acts, i, n - 1, t, id);
      StaysStore(ss[n - 1], acts[n - 1]);
      assert Find(Current(ss[i]), id).Some? by {
        WasThere(ss[i], acts[i]);
      }
      if acts[n - 1].Write? {
        CouldWrite(ss[n - 1], acts[n - 1]);
        ViewKept(Current(ss[n - 1]), acts[n - 1].c, Of(id));
      }
    }
  }

  lemma WasThere(s: World, a: Action)
    requires s.history != [] && Enabled(s, a) && a.ReadForUpdate?
    ensures Find(Current(s), a.id).Some?
  {}

  lemma CouldWrite(s: World, a: Action)
    requires s.history != [] && Enabled(s, a) && a.Write?
    ensures Applies(Current(s), a.c)
  {}

  lemma {:induction false} KeepsEditing(ss: seq<World>, acts: seq<Action>, i: nat, n: nat, t: nat, id: int)
    requires IsRun(ss, acts) && i < n < |ss| && acts[i] == ReadForUpdate(t, id)
    requires forall j | i < j < n :: !((acts[j].Write? || acts[j].Finish?) && acts[j].t == t)
    ensures At(ss[n], t) == Editing(id, Find(Current(ss[i]), id).value, Version(ss[i]))
    decreases n
  {
    hide Do, Enabled, At;
    assert ss[n] == Do(ss[n - 1], acts[n - 1]);
    if n - 1 > i {
      KeepsEditing(ss, acts, i, n - 1, t, id);
      EditorStays(ss[n - 1], acts[n - 1], t);
    } else {
      EditorStarts(ss[i], acts[i]);
    }
  }

  lemma EditorStarts(s: World, a: Action)
    requires s.history != [] && Enabled(s, a) && a.ReadForUpdate?
    ensures Find(Current(s), a.id).Some?
    ensures At(Do(s, a), a.t) == Editing(a.id, Find(Current(s), a.id).value, Version(s))
  {}

  lemma EditorStays(s: World, a: Action, t: nat)
    requires s.history != [] && Enabled(s, a) && At(s, t).Editing? && !((a.Write? || a.Finish?) && a.t == t)
    ensures At(Do(s, a), t) == At(s, t)
  {
    hide View, Applied, Find;
  }

  /** As long as nobody writes the post between its read and its write, an update loses nothing. */
  lemma {:induction false} UndisturbedUpdateIsAtomic(
    ss: seq<World>, acts: seq<Action>, i: nat, n: nat, t: nat, id: int, d: Draft, trim: Bytes -> Bytes, stamp: Time)
    requires IsRun(ss, acts) && Initial(ss[0]) && IsStore(Current(ss[0])) && i < n < |acts|
    requires acts[i] == ReadForUpdate(t, id) && WritesBack(ss[n], acts[n], t, d, trim, stamp)
    requires forall j | i < j < n ::
      LeavesAlone(acts[j], id) && !((acts[j].Write? || acts[j].Finish?) && acts[j].t == t)
    ensures Find(Current(ss[n]), id) == Some(At(ss[n], t).post) && Edited(At(ss[n], t).post, d, trim).Done?
    ensures Current(ss[n + 1]) == Replaced(Current(ss[n]), Rewritten(At(ss[n], t).post, d, trim, stamp))
  {
    InitialIsFresh(ss[0]);
    RunsStayAccounted(ss, acts, i);
    StillAsRead(ss, acts, i, n, t, id);
    KeepsEditing(ss, acts, i, n, t, id);
    WasThere(ss[i], acts[i]);
    OnlyWritesChange(ss[n], acts[n]);
  }

  // ---------- two updates of one post

  const POST := Post(1, 7, [0x61], [0x62], ZERO, ZERO)
  const TITLED := Post(1, 7, [0x63], [0x62], ZERO, ZERO)
  const BODIED := Post(1, 7, [0x61], [0x64], ZERO, ZERO)

  const START: World := World([[POST]], map[], 0, map[], map[])
  const BOTH_READ: World := World([[POST]], map[], 0, map[1 := Editing(1, POST, 0), 2 := Editing(1, POST, 0)], map[])

  lemma BothRead() returns (s1: World)
    ensures Enabled(START, ReadForUpdate(1, 1)) && s1 == Do(START, ReadForUpdate(1, 1))
    ensures Enabled(s1, ReadForUpdate(2, 1)) && BOTH_READ == Do(s1, ReadForUpdate(2, 1))
  {
    assert Find([POST], 1) == Some(POST);
    s1 := World([[POST]], map[], 0, map[1 := Editing(1, POST, 0)], map[]);
  }

  lemma BothWrite() returns (s3: World, s4: World)
    ensures Enabled(BOTH_READ, Write(1, Replace(TITLED))) && s3 == Do(BOTH_READ, Write(1, Replace(TITLED)))
    ensures Enabled(s3, Write(2, Replace(BODIED))) && s4 == Do(s3, Write(2, Replace(BODIED)))
    ensures s3.history == [[POST], [TITLED]] && s4.history == [[POST], [TITLED], [BODIED]]
    ensures At(s3, 2) == Editing(1, POST, 0)
  {
    assert Find([POST], 1) == Some(POST) && Find([TITLED], 1) == Some(TITLED);
    assert Replaced([POST], TITLED) == [TITLED] && Replaced([TITLED], BODIED) == [BODIED];
    hide POST, TITLED, BODIED;
    s3 := Do(BOTH_READ, Write(1, Replace(TITLED)));
    s4 := Do(s3, Write(2, Replace(BODIED)));
  }

  /** One update sets the title, the other the body; both succeed and the new title is gone. */
  lemma UpdateIsLost(trim: Bytes -> Bytes) returns (ss: seq<World>, acts: seq<Action>, d: Draft)
    requires trim([0x64]) == [0x64]
    ensures IsRun(ss, acts) && Initial(ss[0]) && |acts| == 4 && d.title == [] && d.body == [0x64]
    ensures WritesBack(ss[3], acts[3], 2, d, trim, ZERO)
    ensures Current(ss[3]) == [TITLED] && Current(ss[4]) == [BODIED] && BODIED.title == POST.title != TITLED.title
  {
    d := Draft(0, [], [0x64]);
    acts := [ReadForUpdate(1, 1), ReadForUpdate(2, 1), Write(1, Replace(TITLED)), Write(2, Replace(BODIED))];
    var s1 := BothRead();
    var s3, s4 := BothWrite();
    ss := [START, s1, BOTH_READ, s3, s4];
    hide Do, Enabled;
  }
}
