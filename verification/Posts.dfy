/** Posts, and Go's comparison and search on strings. */
module Posts {
  import opened Binary

  /** Instants are nanoseconds; hour is the hour of day CreatedAt has in its own location. */
  datatype Time = Time(instant: int, hour: nat)
  datatype Post = Post(id: int, userId: int, title: Bytes, body: Bytes, createdAt: Time, updatedAt: Time)

  /** a <= b for Go strings: bytewise, a proper prefix first. */
  predicate StringLe(a: Bytes, b: Bytes)
  {
    a == [] || (b != [] && (a[0] < b[0] || (a[0] == b[0] && StringLe(a[1..], b[1..]))))
  }

  lemma {:induction false} StringLeTotal(a: Bytes, b: Bytes)
    ensures StringLe(a, b) || StringLe(b, a)
  {
    if a != [] && b != [] {
      StringLeTotal(a[1..], b[1..]);
    }
  }

  lemma {:induction false} StringLeTransitive(a: Bytes, b: Bytes, c: Bytes)
    requires StringLe(a, b) && StringLe(b, c)
    ensures StringLe(a, c)
  {
    if a != [] {
      if a[0] == b[0] == c[0] {
        StringLeTransitive(a[1..], b[1..], c[1..]);
      }
    }
  }

  /** That is lexicographic byte order: a is the start of b, or smaller where they first differ. */
  lemma {:induction false} StringLeIff(a: Bytes, b: Bytes)
    ensures StringLe(a, b) <==> a <= b || Precedes(a, b)
    decreases |a|
  {
    if a != [] && b != [] {
      StringLeIff(a[1..], b[1..]);
      if a[0] < b[0] {
        PrecedesAt(a, b, 0);
      } else if a[0] == b[0] {
        PrecedesBehind(a, b);
      }
    }
  }

  lemma PrecedesBehind(a: Bytes, b: Bytes)
    requires a != [] && b != [] && a[0] == b[0]
    ensures Precedes(a, b) <==> Precedes(a[1..], b[1..])
    ensures a <= b <==> a[1..] <= b[1..]
  {
    if k :| 0 <= k < |a| && k < |b| && a[..k] == b[..k] && a[k] < b[k] {
      assert a[1..][..k - 1] == a[..k][1..] && b[1..][..k - 1] == b[..k][1..];
      PrecedesAt(a[1..], b[1..], k - 1);
    }
    if k :| 0 <= k < |a| - 1 && k < |b| - 1 && a[1..][..k] == b[1..][..k] && a[1..][k] < b[1..][k] {
      assert a[..k + 1] == [a[0]] + a[1..][..k] && b[..k + 1] == [b[0]] + b[1..][..k];
      PrecedesAt(a, b, k + 1);
    }
    assert a == [a[0]] + a[1..] && b == [b[0]] + b[1..];
  }

  predicate Contains(s: Bytes, sub: Bytes)
  {
    exists i | 0 <= i <= |s| :: sub <= s[i..]
  }
}
