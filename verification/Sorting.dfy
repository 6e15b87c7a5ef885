/** sort.Slice and sort.Ints on short slices: insertion sort in place, driven by a comparator. */
module Sorting {
  /** le is a total preorder. */
  ghost predicate Preorder<T(!new)>(le: (T, T) -> bool)
  {
    && (forall x, y {:trigger le(x, y)} :: le(x, y) || le(y, x))
    && (forall x, y, z {:trigger le(x, y), le(y, z)} :: le(x, y) && le(y, z) ==> le(x, z))
  }

  /**
   The comparator never contradicts le; on ties it may answer either way, even both ways at once, as
   the negation of a strict order does.
   */
  ghost predicate Follows<T(!new)>(less: (T, T) -> bool, le: (T, T) -> bool)
  {
    forall x, y {:trigger less(x, y)} :: if less(x, y) then le(x, y) else le(y, x)
  }

  lemma Answer<T(!new)>(less: (T, T) -> bool, le: (T, T) -> bool, x: T, y: T)
    requires Follows(less, le)
    ensures if less(x, y) then le(x, y) else le(y, x)
  {}

  ghost predicate Ordered<T(!new)>(s: seq<T>, le: (T, T) -> bool)
  {
    forall i, j | 0 <= i < j < |s| :: le(s[i], s[j])
  }

  /** The first n elements are in order, but for the one at j, which belongs at j or further left. */
  ghost predicate AllButOne<T(!new)>(s: seq<T>, le: (T, T) -> bool, n: nat, j: nat)
    requires j < n <= |s|
  {
    && (forall p, q | 0 <= p < q < n && p != j && q != j :: le(s[p], s[q]))
    && (forall q | j < q < n :: le(s[j], s[q]))
  }

  lemma Unplaced<T(!new)>(s: seq<T>, le: (T, T) -> bool, i: nat)
    requires i < |s| && Ordered(s[..i], le)
    ensures AllButOne(s, le, i + 1, i)
  {
    forall p, q | 0 <= p < q < i ensures le(s[p], s[q]) {
      assert s[..i][p] == s[p] && s[..i][q] == s[q];
    }
  }

  /** Elements j - 1 and j exchanged. */
  function Exchanged<T>(s: seq<T>, j: nat): (t: seq<T>)
    requires 0 < j < |s|
    ensures |t| == |s|
  {
    s[j := s[j - 1]][j - 1 := s[j]]
  }

  lemma Swapped<T(!new)>(s: seq<T>, le: (T, T) -> bool, n: nat, j: nat)
    requires 0 < j < n <= |s| && AllButOne(s, le, n, j) && le(s[j], s[j - 1])
    ensures AllButOne(Exchanged(s, j), le, n, j - 1)
  {
    var t := Exchanged(s, j);
    forall p, q | 0 <= p < q < n && p != j - 1 && q != j - 1 ensures le(t[p], t[q]) {
      assert p != j && q != j ==> t[p] == s[p] && t[q] == s[q];
      assert p == j ==> t[p] == s[j - 1] && t[q] == s[q] && q > j;
      assert q == j ==> t[q] == s[j - 1] && t[p] == s[p] && p < j - 1;
    }
  }

  lemma Placed<T(!new)>(s: seq<T>, le: (T, T) -> bool, n: nat, j: nat)
    requires Preorder(le) && j < n <= |s| && AllButOne(s, le, n, j) && (j == 0 || le(s[j - 1], s[j]))
    ensures Ordered(s[..n], le)
  {
    forall p, q | 0 <= p < q < n ensures le(s[p], s[q]) {
      if q == j && p != j - 1 {
        assert le(s[p], s[j - 1]);
      }
    }
  }

  /** The array has the elements it began with. */
  ghost predicate Rearranged<T>(s: seq<T>, t: seq<T>)
  {
    multiset(s) == multiset(t)
  }

  lemma SwapKeeps<T>(s: seq<T>, t: seq<T>, j: nat)
    requires 0 < j < |s| && Rearranged(s, t)
    ensures Rearranged(Exchanged(s, j), t)
  {}

  method Exchange<T>(a: array<T>, j: nat)
    requires 0 < j < a.Length
    modifies a
    ensures a[..] == Exchanged(old(a[..]), j)
  {
    a[j], a[j - 1] := a[j - 1], a[j];
  }

  method InsertionSort<T(!new)>(a: array<T>, less: (T, T) -> bool, ghost le: (T, T) -> bool)
    requires Preorder(le) && Follows(less, le)
    modifies a
    ensures multiset(a[..]) == multiset(old(a[..])) && Ordered(a[..], le)
  {
    hide Preorder, Follows;
    var i := 1;
    while i < a.Length
      invariant 1 <= i && (i <= a.Length || a.Length == 0)
      invariant multiset(a[..]) == multiset(old(a[..]))
      invariant i <= a.Length ==> Ordered(a[..i], le)
    {
      Insert(a, i, less, le);
      i := i + 1;
    }
    assert a.Length > 0 ==> a[..a.Length] == a[..];
  }

  /** The inner loop: element i moves left past every element it is less than. */
  method Insert<T(!new)>(a: array<T>, i: nat, less: (T, T) -> bool, ghost le: (T, T) -> bool)
    requires Preorder(le) && Follows(less, le)
    requires i < a.Length && Ordered(a[..i], le)
    modifies a
    ensures Rearranged(a[..], old(a[..])) && Ordered(a[..i + 1], le)
  {
    hide Preorder;
    var j := i;
    assert AllButOne(a[..], le, i + 1, i) by {
      Unplaced(a[..], le, i);
      assert a[..][..i] == a[..i];
    }
    assert Rearranged(a[..], old(a[..]));
    hide AllButOne, Ordered, Rearranged, Follows, Exchanged;
    while j > 0 && less(a[j], a[j - 1])
      invariant 0 <= j <= i
      invariant Rearranged(a[..], old(a[..]))
      invariant AllButOne(a[..], le, i + 1, j)
    {
      Answer(less, le, a[j], a[j - 1]);
      Swapped(a[..], le, i + 1, j);
      SwapKeeps(a[..], old(a[..]), j);
      Exchange(a, j);
      j := j - 1;
    }
    if j > 0 {
      Answer(less, le, a[j], a[j - 1]);
    }
    Placed(a[..], le, i + 1, j);
    assert a[..][..i + 1] == a[..i + 1];
  }

  lemma FirstIsLeast<T(!new)>(s: seq<T>, x: T, le: (T, T) -> bool)
    requires Preorder(le) && Ordered(s, le) && x in multiset(s)
    ensures le(s[0], x)
  {
    var i :| 0 <= i < |s| && s[i] == x;
    assert i == 0 ==> le(x, x);
  }

  ghost predicate Antisymmetric<T(!new)>(le: (T, T) -> bool)
  {
    forall x, y {:trigger le(x, y)} :: le(x, y) && le(y, x) ==> x == y
  }

  lemma SameFirst<T(!new)>(s: seq<T>, t: seq<T>, le: (T, T) -> bool)
    requires Preorder(le) && Antisymmetric(le) && Ordered(s, le) && Ordered(t, le)
    requires s != [] && multiset(s) == multiset(t)
    ensures t != [] && s[0] == t[0] && multiset(s[1..]) == multiset(t[1..])
    ensures Ordered(s[1..], le) && Ordered(t[1..], le)
  {
    assert s[0] in multiset(t);
    assert t[0] in multiset(s);
    FirstIsLeast(s, t[0], le);
    FirstIsLeast(t, s[0], le);
    assert s == [s[0]] + s[1..] && t == [t[0]] + t[1..];
    assert multiset(s[1..]) == multiset(s) - multiset{s[0]};
  }

  /** Two orderings of the same elements by an antisymmetric order are the same sequence. */
  lemma {:induction false} OrderedUnique<T(!new)>(s: seq<T>, t: seq<T>, le: (T, T) -> bool)
    requires Preorder(le) && Antisymmetric(le) && Ordered(s, le) && Ordered(t, le)
    requires multiset(s) == multiset(t)
    ensures s == t
  {
    hide Preorder, Ordered, Antisymmetric;
    if s != [] {
      SameFirst(s, t, le);
      OrderedUnique(s[1..], t[1..], le);
      assert s == [s[0]] + s[1..] && t == [t[0]] + t[1..];
    } else {
      assert |t| == |multiset(s)|;
    }
  }
}
