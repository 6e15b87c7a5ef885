/** The list pipeline of PostService.GetAll: filter, sort in place, cut out a page. */
module Listing {
  import opened Binary
  import opened Message
  import opened Options
  import opened Transport
  import opened Posts
  import opened Sorting

  datatype Filter = Filter(userId: Option<int>, search: Bytes, sortBy: Bytes, sortOrder: Bytes)
  datatype Params = Params(page: int, pageSize: int, offset: int)
  datatype Meta =
    Meta(page: int, pageSize: int, totalItems: nat, totalPages: int, hasNext: bool, hasPrev: bool)

  // ---------- filtering

  /** lower is strings.ToLower. */
  predicate Keeps(f: Option<Filter>, lower: Bytes -> Bytes, p: Post)
  {
    f.None? ||
    (&& (f.value.userId.None? || p.userId == f.value.userId.value)
     && (f.value.search == [] || Contains(lower(p.title), lower(f.value.search)) ||
         Contains(lower(p.body), lower(f.value.search))))
  }

  function Filtered(posts: seq<Post>, f: Option<Filter>, lower: Bytes -> Bytes): seq<Post>
  {
    if posts == [] then []
    else
      var rest := Filtered(posts[..|posts| - 1], f, lower);
      var last := posts[|posts| - 1];
      if Keeps(f, lower, last) then rest + [last] else rest
  }

  /** The posts of the user asked for, if any, with the text searched for in the title or the body, if any. */
  lemma KeepsIff(f: Filter, lower: Bytes -> Bytes, p: Post)
    ensures Keeps(None, lower, p)
    ensures Keeps(Some(f), lower, p) <==>
      && (f.userId.Some? ==> p.userId == f.userId.value)
      && (f.search != [] ==>
            || (exists i | 0 <= i <= |lower(p.title)| :: lower(f.search) <= lower(p.title)[i..])
            || (exists i | 0 <= i <= |lower(p.body)| :: lower(f.search) <= lower(p.body)[i..]))
  {}

  /** Exactly the matching posts, each as often as it is there. */
  lemma {:induction false} FilteredCounts(posts: seq<Post>, f: Option<Filter>, lower: Bytes -> Bytes, p: Post)
    ensures multiset(Filtered(posts, f, lower))[p] == if Keeps(f, lower, p) then multiset(posts)[p] else 0
  {
    hide Keeps;
    if posts != [] {
      FilteredCounts(posts[..|posts| - 1], f, lower, p);
      assert posts == posts[..|posts| - 1] + [posts[|posts| - 1]];
    }
  }

  method FilterPosts(posts: seq<Post>, filter: Option<Filter>, lower: Bytes -> Bytes) returns (filtered: seq<Post>)
    ensures filtered == Filtered(posts, filter, lower)
  {
    if filter.None? {
      NoFilter(posts, lower);
      return posts;
    }
    var f := filter.value;
    filtered := [];
    for i := 0 to |posts|
      invariant filtered == Filtered(posts[..i], filter, lower)
    {
      assert posts[..i + 1] == posts[..i] + [posts[i]];
      assert posts[..i + 1][..i] == posts[..i];
      if f.userId.Some? && posts[i].userId != f.userId.value {
        continue;
      }
      if f.search != [] {
        var searchLower := lower(f.search);
        if !Contains(lower(posts[i].title), searchLower) && !Contains(lower(posts[i].body), searchLower) {
          continue;
        }
      }
      filtered := filtered + [posts[i]];
    }
    assert posts[..|posts|] == posts;
  }

  lemma {:induction false} NoFilter(posts: seq<Post>, lower: Bytes -> Bytes)
    ensures Filtered(posts, None, lower) == posts
  {
    if posts != [] {
      NoFilter(posts[..|posts| - 1], lower);
    }
  }

  // ---------- sorting

  const TITLE := Ascii("title")
  const CREATED_AT := Ascii("createdAt")
  const UPDATED_AT := Ascii("updatedAt")
  const DESC := Ascii("desc")

  /** The chosen key of x comes strictly before that of y. An unknown key stands for the id. */
  predicate Before(sortBy: Bytes, x: Post, y: Post)
  {
    if sortBy == TITLE then !StringLe(y.title, x.title)
    else if sortBy == CREATED_AT then x.createdAt.instant < y.createdAt.instant
    else if sortBy == UPDATED_AT then x.updatedAt.instant < y.updatedAt.instant
    else x.id < y.id
  }

  /** An empty order is descending; any other word than desc is ascending. */
  predicate Descending(f: Filter)
  {
    f.sortOrder == [] || f.sortOrder == DESC
  }

  /** The comparator given to sort.Slice. Descending, it also answers yes for equal keys. */
  predicate Less(f: Filter, x: Post, y: Post)
  {
    if Descending(f) then !Before(f.sortBy, x, y) else Before(f.sortBy, x, y)
  }

  /** x may stand before y in the answer. */
  predicate InOrder(f: Filter, x: Post, y: Post)
  {
    if Descending(f) then !Before(f.sortBy, x, y) else !Before(f.sortBy, y, x)
  }

  function Order(f: Filter): (Post, Post) -> bool
  {
    (x, y) => InOrder(f, x, y)
  }

  function Comparator(f: Filter): (Post, Post) -> bool
  {
    (x, y) => Less(f, x, y)
  }

  lemma BeforeIsStrict(sortBy: Bytes, x: Post, y: Post)
    ensures !(Before(sortBy, x, y) && Before(sortBy, y, x))
  {
    StringLeTotal(x.title, y.title);
  }

  lemma NotBeforeTransitive(sortBy: Bytes, x: Post, y: Post, z: Post)
    requires !Before(sortBy, x, y) && !Before(sortBy, y, z)
    ensures !Before(sortBy, x, z)
  {
    if sortBy == TITLE {
      StringLeTransitive(z.title, y.title, x.title);
    }
  }

  /** Even the non-strict descending comparator sorts by a total preorder. */
  lemma ComparatorSorts(f: Filter)
    ensures Preorder(Order(f)) && Follows(Comparator(f), Order(f))
  {
    hide Before, Descending;
    var le, less := Order(f), Comparator(f);
    forall x, y ensures le(x, y) || le(y, x) {
      BeforeIsStrict(f.sortBy, x, y);
    }
    forall x, y, z | le(x, y) && le(y, z) ensures le(x, z) {
      if Descending(f) {
        NotBeforeTransitive(f.sortBy, x, y, z);
      } else {
        NotBeforeTransitive(f.sortBy, z, y, x);
      }
    }
    forall x, y ensures if less(x, y) then le(x, y) else le(y, x) {
      BeforeIsStrict(f.sortBy, x, y);
    }
  }

  /** What the four keys and the two directions mean, in the fields of the posts. */
  lemma InOrderIff(f: Filter, x: Post, y: Post)
    ensures var down := f.sortOrder == [] || f.sortOrder == Ascii("desc");
      && (f.sortBy == Ascii("createdAt") ==>
            (InOrder(f, x, y) <==>
               if down then x.createdAt.instant >= y.createdAt.instant else x.createdAt.instant <= y.createdAt.instant))
      && (f.sortBy == Ascii("updatedAt") ==>
            (InOrder(f, x, y) <==>
               if down then x.updatedAt.instant >= y.updatedAt.instant else x.updatedAt.instant <= y.updatedAt.instant))
      && (f.sortBy == Ascii("title") ==>
            (InOrder(f, x, y) <==>
               if down then y.title <= x.title || Precedes(y.title, x.title)
               else x.title <= y.title || Precedes(x.title, y.title)))
      && (f.sortBy !in {Ascii("createdAt"), Ascii("updatedAt"), Ascii("title")} ==>
            (InOrder(f, x, y) <==> if down then x.id >= y.id else x.id <= y.id))
  {
    assert |Ascii("title")| == 5 && Ascii("createdAt")[0] == 99 && Ascii("updatedAt")[0] == 117;
    StringLeIff(x.title, y.title);
    StringLeIff(y.title, x.title);
    hide Ascii, Precedes, StringLe;
  }

  predicate Sorts(f: Option<Filter>)
  {
    f.Some? && f.value.sortBy != []
  }

  method SortPosts(posts: array<Post>, filter: Option<Filter>)
    modifies posts
    ensures multiset(posts[..]) == multiset(old(posts[..]))
    ensures Sorts(filter) ==> Ordered(posts[..], Order(filter.value))
    ensures filter.None? || filter.value.sortBy == [] ==> posts[..] == old(posts[..])
    ensures filter.Some? && filter.value.sortBy != [] ==>
      forall i, j | 0 <= i < j < posts.Length :: InOrder(filter.value, posts[i], posts[j])
  {
    if Sorts(filter) {
      ComparatorSorts(filter.value);
      InsertionSort(posts, Comparator(filter.value), Order(filter.value));
    }
  }

  // ---------- paging

  function CalculatePagination(totalItems: nat, params: Params): (m: Meta)
    requires params.pageSize != 0
  {
    var pages := Quotient(totalItems + params.pageSize - 1, params.pageSize);
    var totalPages := if pages == 0 then 1 else pages;
    Meta(params.page, params.pageSize, totalItems, totalPages, params.page < totalPages, params.page > 1)
  }

  /** Go's division truncates toward zero. */
  function Quotient(a: int, b: int): int
    requires b != 0
  {
    if a >= 0 then a / b else -(-a / b)
  }

  /** The slice of a page; for the parameters the service makes, start and end are never negative. */
  function PageSlice(posts: seq<Post>, p: Params): seq<Post>
    requires 0 <= p.offset && 0 <= p.pageSize
  {
    var start, end := p.offset, p.offset + p.pageSize;
    if start > |posts| then []
    else if end > |posts| then posts[start..]
    else posts[start..end]
  }

  function Page(page: int, pageSize: int): Params
  {
    Params(page, pageSize, (page - 1) * pageSize)
  }

  lemma OffsetPositive(page: int, pageSize: int)
    requires page >= 1 && pageSize >= 1
    ensures (page - 1) * pageSize >= 0 && page * pageSize == (page - 1) * pageSize + pageSize
  {}

  lemma Ceiling(total: nat, size: int)
    requires size >= 1
    ensures var pages := (total + size - 1) / size;
      && total <= pages * size
      && (if total == 0 then pages == 0 else pages >= 1 && (pages - 1) * size < total)
  {
    var pages := (total + size - 1) / size;
    assert total + size - 1 == pages * size + (total + size - 1) % size;
    if total == 0 {
      assert (size - 1) / size == 0;
    } else {
      assert pages * size >= total;
      assert pages >= 1 by {
        Monotone(pages, 0, size);
      }
    }
  }

  lemma Monotone(a: int, b: int, size: int)
    requires size >= 1
    ensures a <= b ==> a * size <= b * size
  {}

  /** The page data: what was asked for, and the fewest pages that hold the total, at least one. */
  lemma MetaIs(total: nat, page: int, size: int)
    requires page >= 1 && size >= 1
    ensures var m := CalculatePagination(total, Page(page, size));
      && m.page == page && m.pageSize == size && m.totalItems == total
      && (m.hasPrev <==> page > 1) && (m.hasNext <==> page * size < total)
      && m.totalPages >= 1 && m.totalPages * size >= total
      && (m.totalPages > 1 ==> (m.totalPages - 1) * size < total)
  {
    HasNextIff(total, page, size);
    Ceiling(total, size);
    Monotone(0, 1, size);
  }

  /** There is a next page exactly when items are left behind this one. */
  lemma HasNextIff(total: nat, page: int, size: int)
    requires page >= 1 && size >= 1
    ensures CalculatePagination(total, Page(page, size)).hasNext <==> page * size < total
    ensures CalculatePagination(total, Page(page, size)).totalPages >= 1
  {
    var pages := (total + size - 1) / size;
    Ceiling(total, size);
    if page < pages {
      Monotone(page, pages - 1, size);
    } else {
      Monotone(pages, page, size);
    }
    Monotone(1, page, size);
  }

  /** The items before the end of page k, cut page by page. */
  function FirstPages(posts: seq<Post>, size: int, k: nat): seq<Post>
    requires size >= 1
  {
    if k == 0 then []
    else
      OffsetPositive(k, size);
      FirstPages(posts, size, k - 1) + PageSlice(posts, Page(k, size))
  }

  function Upto(posts: seq<Post>, n: nat): seq<Post>
  {
    if n <= |posts| then posts[..n] else posts
  }

  lemma {:induction false} FirstPagesArePrefix(posts: seq<Post>, size: int, k: nat)
    requires size >= 1
    ensures k * size >= 0 && FirstPages(posts, size, k) == Upto(posts, k * size)
  {
    if k > 0 {
      OffsetPositive(k, size);
      FirstPagesArePrefix(posts, size, k - 1);
      NextPage(posts, (k - 1) * size, size);
      assert k * size == (k - 1) * size + size;
    } else {
      assert 0 * size == 0;
    }
  }

  lemma NextPage(posts: seq<Post>, start: nat, size: nat)
    ensures Upto(posts, start) + PageSlice(posts, Params(1, size, start)) == Upto(posts, start + size)
  {}

  /** Item j of a page is item (page - 1) * size + j of the list. */
  lemma PageAt(posts: seq<Post>, page: int, size: int, j: nat)
    requires page >= 1 && size >= 1
    ensures (page - 1) * size >= 0
    ensures var s := PageSlice(posts, Page(page, size)); var i := (page - 1) * size + j;
      (j < |s| <==> j < size && i < |posts|) && (j < |s| ==> s[j] == posts[i])
  {
    OffsetPositive(page, size);
  }

  /** Pages 1 to TotalPages concatenate to the list, later pages are empty. */
  lemma {:induction false} PagesCoverList(posts: seq<Post>, size: int, later: int)
    requires size >= 1
    ensures var total := CalculatePagination(|posts|, Page(1, size)).totalPages;
      && total >= 1 && FirstPages(posts, size, total) == posts
      && (later > total ==> (later - 1) * size >= 0 && PageSlice(posts, Page(later, size)) == [])
  {
    var total := CalculatePagination(|posts|, Page(1, size)).totalPages;
    TotalPagesEnough(|posts|, size);
    hide CalculatePagination;
    FirstPagesArePrefix(posts, size, total);
    if later > total {
      Monotone(total, later - 1, size);
      hide FirstPages, PageSlice;
      PastTheEnd(posts, Page(later, size));
    }
  }

  lemma TotalPagesEnough(items: nat, size: int)
    requires size >= 1
    ensures var total := CalculatePagination(items, Page(1, size)).totalPages; total >= 1 && items <= total * size
  {
    Ceiling(items, size);
  }

  lemma PastTheEnd(posts: seq<Post>, p: Params)
    requires p.offset >= |posts| && p.pageSize >= 0
    ensures PageSlice(posts, p) == []
  {}

  // ---------- the request on its way

  /** The int32 casts of the gateway, then adapt.ThriftPaginationToModel in the service. */
  function ServedParams(page: int, pageSize: int): Params
  {
    var p, s := ToInt32(page), ToInt32(pageSize);
    Page(if p < 1 then 1 else p, if s < 1 then 20 else s)
  }

  lemma Product(a: nat, b: nat, m: nat)
    requires a <= m && b <= m
    ensures 0 <= a * b <= m * m
  {
    assert a * b <= m * b <= m * m;
  }

  /**
   Whatever 64-bit numbers the client sends, the service divides by a positive size, its offset stays
   below 2^62 and no sum overflows 64 bits; it answers the page asked for exactly when both numbers
   are positive 32-bit integers.
   */
  lemma ServedPageSafe(page: int, pageSize: int, total: nat)
    requires total < 0x4000_0000_0000_0000
    ensures var q := ServedParams(page, pageSize);
      && 1 <= q.page < 0x8000_0000 && 1 <= q.pageSize < 0x8000_0000
      && 0 <= q.offset < 0x4000_0000_0000_0000
      && q.offset + q.pageSize < 0x8000_0000_0000_0000 && total + q.pageSize - 1 < 0x8000_0000_0000_0000
      && (-0x8000_0000 <= page < 1 ==> q.page == 1) && (-0x8000_0000 <= pageSize < 1 ==> q.pageSize == 20)
    ensures ServedParams(page, pageSize) == Page(page, pageSize) <==>
      1 <= page < 0x8000_0000 && 1 <= pageSize < 0x8000_0000
  {
    var q := ServedParams(page, pageSize);
    Product(q.page - 1, q.pageSize, 0x7FFF_FFFF);
  }

  /** parsePagination in the gateway, on the numbers of the query string, 0 for none. */
  function Parsed(page: int, pageSize: int): (int, int)
  {
    (if page < 1 then 1 else page, if pageSize < 1 || pageSize > 100 then 20 else pageSize)
  }

  /**
   Through the gateway's API the page asked for is answered exactly when its number fits 32 bits. A larger
   one wraps around: page 2^32 + 1 shows page 1 under its own number.
   */
  lemma ApiPageServed(page: int, pageSize: int)
    ensures var (p, s) := Parsed(page, pageSize);
      && 1 <= p && 1 <= s <= 100 && (page >= 1 ==> p == page) && (page < 1 ==> p == 1)
      && s == (if 1 <= pageSize <= 100 then pageSize else 20)
      && (ServedParams(p, s) == Page(p, s) <==> p < 0x8000_0000)
    ensures ServedParams(0x1_0000_0001, pageSize) == ServedParams(1, pageSize)
  {
    var (p, s) := Parsed(page, pageSize);
    ServedPageSafe(p, s, 0);
  }

  // ---------- GetAll after the posts have been fetched

  /** One answer of GetAll to the fetched posts. sort.Slice need not be stable, so ties may come in any order. */
  ghost predicate Answers(
    fetched: seq<Post>, f: Option<Filter>, lower: Bytes -> Bytes, params: Option<Params>, posts: seq<Post>,
    meta: Option<Meta>)
  {
    exists all: seq<Post> :: ListOf(fetched, f, lower, all) && PageOf(all, params, posts, meta)
  }

  /** all is what the pipeline may hold before paging. */
  ghost predicate ListOf(fetched: seq<Post>, f: Option<Filter>, lower: Bytes -> Bytes, all: seq<Post>)
  {
    && multiset(all) == multiset(Filtered(fetched, f, lower))
    && (if Sorts(f) then Ordered(all, Order(f.value)) else all == Filtered(fetched, f, lower))
  }

  predicate PageOf(all: seq<Post>, params: Option<Params>, posts: seq<Post>, meta: Option<Meta>)
  {
    if params.None? then posts == all && meta.None?
    else
      var p := params.value;
      && p.offset >= 0 && p.pageSize >= 1
      && posts == PageSlice(all, p) && meta == Some(CalculatePagination(|all|, p))
  }

  method ListPosts(fetched: seq<Post>, filter: Option<Filter>, lower: Bytes -> Bytes, params: Option<Params>)
    returns (posts: seq<Post>, meta: Option<Meta>)
    requires params.Some? ==> params.value.offset >= 0 && params.value.pageSize >= 1
    ensures Answers(fetched, filter, lower, params, posts, meta)
  {
    var filtered := FilterPosts(fetched, filter, lower);
    var slice := new Post[|filtered|](i requires 0 <= i < |filtered| => filtered[i]);
    assert slice[..] == filtered;
    SortPosts(slice, filter);
    posts := slice[..];
    assert ListOf(fetched, filter, lower, posts);
    if params.None? {
      meta := None;
    } else {
      meta := Some(CalculatePagination(|posts|, params.value));
      var start, end := params.value.offset, params.value.offset + params.value.pageSize;
      if start > |posts| {
        posts := [];
      } else if end > |posts| {
        posts := posts[start..];
      } else {
        posts := posts[start..end];
      }
    }
  }

  /**
   Read page by page, an answer is a permutation of exactly the matching posts: those of the user asked for
   with the text searched for in title or body. In it the chosen keys stand in the chosen direction.
   */
  lemma AnswerIsMatchingPosts(fetched: seq<Post>, f: Filter, lower: Bytes -> Bytes, all: seq<Post>, p: Post)
    requires ListOf(fetched, Some(f), lower, all)
    ensures multiset(all)[p] ==
      if && (f.userId.Some? ==> p.userId == f.userId.value)
         && (f.search != [] ==>
               || (exists i | 0 <= i <= |lower(p.title)| :: lower(f.search) <= lower(p.title)[i..])
               || (exists i | 0 <= i <= |lower(p.body)| :: lower(f.search) <= lower(p.body)[i..]))
      then multiset(fetched)[p] else 0
    ensures f.sortBy != [] ==> forall i, j | 0 <= i < j < |all| :: InOrder(f, all[i], all[j])
  {
    FilteredCounts(fetched, Some(f), lower, p);
    KeepsIff(f, lower, p);
  }

  /** Without a filter all posts are listed as they are stored, without a key the matching ones are. */
  lemma {:induction false} UnsortedAnswer(fetched: seq<Post>, f: Option<Filter>, lower: Bytes -> Bytes, all: seq<Post>)
    requires ListOf(fetched, f, lower, all)
    ensures f.None? ==> all == fetched
    ensures f.Some? && f.value.sortBy == [] ==> all == Filtered(fetched, f, lower)
  {
    NoFilter(fetched, lower);
  }

  /** Which of two posts of an answer comes first, by the key and the direction asked for. */
  lemma AnswerInOrder(fetched: seq<Post>, f: Filter, lower: Bytes -> Bytes, all: seq<Post>, i: nat, j: nat)
    requires ListOf(fetched, Some(f), lower, all) && f.sortBy != [] && i < j < |all|
    ensures var down := f.sortOrder == [] || f.sortOrder == Ascii("desc");
      && (f.sortBy == Ascii("createdAt") ==>
            if down then all[i].createdAt.instant >= all[j].createdAt.instant
            else all[i].createdAt.instant <= all[j].createdAt.instant)
      && (f.sortBy == Ascii("updatedAt") ==>
            if down then all[i].updatedAt.instant >= all[j].updatedAt.instant
            else all[i].updatedAt.instant <= all[j].updatedAt.instant)
      && (f.sortBy == Ascii("title") ==>
            if down then all[j].title <= all[i].title || Precedes(all[j].title, all[i].title)
            else all[i].title <= all[j].title || Precedes(all[i].title, all[j].title))
      && (f.sortBy !in {Ascii("createdAt"), Ascii("updatedAt"), Ascii("title")} ==>
            if down then all[i].id >= all[j].id else all[i].id <= all[j].id)
  {
    assert Order(f)(all[i], all[j]);
    InOrderIff(f, all[i], all[j]);
    hide Ascii, Precedes;
  }
}
