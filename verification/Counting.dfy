/** Go maps used as counters. */
module Counting {
  /** The map that counts the elements of ms. */
  function Tally<T>(ms: multiset<T>): map<T, nat>
  {
    map x | x in ms :: ms[x]
  }

  /** Indexing a Go map of counts: a missing key reads as 0. */
  function At<T>(m: map<T, nat>, x: T): nat
  {
    if x in m then m[x] else 0
  }

  /** m[x]++ */
  function Inc<T>(m: map<T, nat>, x: T): map<T, nat>
  {
    m[x := At(m, x) + 1]
  }

  lemma TallyOne<T>(ms: multiset<T>, x: T)
    ensures Tally(ms + multiset{x}) == Inc(Tally(ms), x)
  {}

  lemma TallyNext<T>(s: seq<T>, x: T)
    ensures Tally(multiset(s + [x])) == Inc(Tally(multiset(s)), x)
  {
    TallyOne(multiset(s), x);
    assert multiset(s + [x]) == multiset(s) + multiset{x};
  }

  lemma EmptyTally<T>()
    ensures Tally<T>(multiset([])) == map[]
  {}

  function Places<T(==)>(s: seq<T>, x: T): set<int>
  {
    set i | 0 <= i < |s| && s[i] == x
  }

  lemma {:induction false} PlacesCount<T>(s: seq<T>, x: T)
    ensures multiset(s)[x] == |Places(s, x)|
  {
    if s != [] {
      var front, last := s[..|s| - 1], s[|s| - 1];
      PlacesCount(front, x);
      assert s == front + [last];
      assert Places(s, x) == if last == x then Places(front, x) + {|front|} else Places(front, x);
    }
  }

  /** A tally holds each element with the number of places where it stands. */
  lemma TallyAt<T>(s: seq<T>, x: T)
    ensures x in Tally(multiset(s)) <==> exists i | 0 <= i < |s| :: s[i] == x
    ensures x in Tally(multiset(s)) ==> Tally(multiset(s))[x] == |Places(s, x)|
  {
    PlacesCount(s, x);
    assert x in multiset(s) <==> x in s;
  }

  /** An element found at two places is counted twice. */
  lemma TwoPlaces<T>(s: seq<T>, i: nat, j: nat)
    requires i < |s| && j < |s| && i != j && s[i] == s[j]
    ensures multiset(s)[s[i]] >= 2
  {
    var a, b := if i < j then i else j, if i < j then j else i;
    assert s == s[..a] + [s[a]] + s[a + 1..b] + [s[b]] + s[b + 1..];
  }

  lemma SomeKey(keys: set<int>)
    ensures keys == {} || exists x :: x in keys
  {
    if forall x :: x !in keys {
      assert keys == {};
    }
  }

  lemma TallyAtMost<T>(ms: multiset<T>, x: T)
    requires x in ms
    ensures Tally(ms)[x] <= |ms|
  {
    assert ms == ms[x := 0] + multiset{}[x := ms[x]];
  }

  lemma {:induction false} KeysBelow(n: nat, keys: set<int>)
    requires forall k <- keys :: 0 <= k < n
    ensures |keys| <= n
  {
    if n > 0 {
      KeysBelow(n - 1, keys - {n - 1});
    } else {
      SomeKey(keys);
    }
  }

  /** The sum of the counts of some of the keys. */
  ghost function Sum<T>(m: map<T, nat>, keys: set<T>): nat
    requires keys <= m.Keys
  {
    if keys == {} then 0
    else
      var x :| x in keys;
      m[x] + Sum(m, keys - {x})
  }

  /** The counts of a tally sum to the number of elements counted. */
  lemma {:induction false} TallySums<T>(ms: multiset<T>, keys: set<T>)
    requires forall x :: x in keys <==> x in ms
    ensures keys <= Tally(ms).Keys && Sum(Tally(ms), keys) == |ms|
    decreases keys
  {
    if keys == {} {
      assert ms == multiset{};
    } else {
      var x :| x in keys && Sum(Tally(ms), keys) == Tally(ms)[x] + Sum(Tally(ms), keys - {x});
      var rest := ms[x := 0];
      TallySums(rest, keys - {x});
      SumsAgree(Tally(ms), Tally(rest), keys - {x});
      assert ms == rest + multiset{}[x := ms[x]];
    }
  }

  lemma {:induction false} SumsAgree<T>(m: map<T, nat>, n: map<T, nat>, keys: set<T>)
    requires keys <= m.Keys && keys <= n.Keys && forall x <- keys :: m[x] == n[x]
    ensures Sum(m, keys) == Sum(n, keys)
  {
    if keys != {} {
      var x :| x in keys && Sum(m, keys) == m[x] + Sum(m, keys - {x});
      SumsAgree(m, n, keys - {x});
      SumPick(n, keys, x);
    }
  }

  /** The order in which the keys are summed does not matter. */
  lemma {:induction false} SumPick<T>(m: map<T, nat>, keys: set<T>, x: T)
    requires keys <= m.Keys && x in keys
    ensures Sum(m, keys) == m[x] + Sum(m, keys - {x})
    decreases keys
  {
    var y :| y in keys && Sum(m, keys) == m[y] + Sum(m, keys - {y});
    if y != x {
      SumPick(m, keys - {y}, x);
      SumPick(m, keys - {x}, y);
      assert keys - {y} - {x} == keys - {x} - {y};
    }
  }
}
