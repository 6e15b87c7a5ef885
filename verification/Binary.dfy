/**
 The primitives of the Thrift binary protocol, over byte sequences: big-endian two's
 complement integers, length-prefixed strings, field, list and map headers, and the
 skipping of a value whose type is known but whose meaning is not.

 A reader receives the rest of the buffer and answers how many bytes it consumed. The
 number in `Err` is the offset that the failing call still reports.
 */
module Binary {

  type Byte = b: int | 0 <= b < 256
  type Bytes = seq<Byte>

  datatype Read<+T> = Ok(value: T, n: nat) | Err(n: nat)

  const STOP := 0
  const BOOL := 2
  const BYTE := 3
  const DOUBLE := 4
  const I16 := 6
  const I32 := 8
  const I64 := 10
  const STRING := 11
  const STRUCT := 12
  const MAP := 13
  const SET := 14
  const LIST := 15

  const MAX_SIZE := 0x8000_0000  // sizes are non-negative 32-bit integers

  // ---------- integers

  function Pow256(w: nat): (p: nat)
    ensures p >= 1
  {
    if w == 0 then 1 else 256 * Pow256(w - 1)
  }

  function PutUint(u: nat, w: nat): (s: Bytes)
    requires u < Pow256(w)
    ensures |s| == w
  {
    if w == 0 then [] else PutUint(u / 256, w - 1) + [u % 256]
  }

  function GetUint(s: Bytes): (u: nat)
    ensures u < Pow256(|s|)
  {
    if s == [] then 0 else GetUint(s[..|s| - 1]) * 256 + s[|s| - 1]
  }

  lemma {:induction false} GetPutUint(u: nat, w: nat)
    requires u < Pow256(w)
    ensures GetUint(PutUint(u, w)) == u
  {
    if w > 0 {
      var s := PutUint(u, w);
      assert s[..w - 1] == PutUint(u / 256, w - 1);
      GetPutUint(u / 256, w - 1);
    }
  }

  /** v is representable in w bytes of two's complement. */
  predicate Fits(v: int, w: nat)
  {
    w > 0 && -128 * Pow256(w - 1) <= v < 128 * Pow256(w - 1)
  }

  /** The low w bytes of v: a value that does not fit is truncated, as an integer conversion does. */
  function PutInt(v: int, w: nat): (s: Bytes)
    ensures |s| == w
  {
    PutUint(v % Pow256(w), w)
  }

  function GetInt(s: Bytes): (v: int)
    requires s != []
    ensures Fits(v, |s|)
  {
    var u := GetUint(s);
    if u < 128 * Pow256(|s| - 1) then u else u - Pow256(|s|)
  }

  lemma GetPutInt(v: int, w: nat)
    requires Fits(v, w)
    ensures GetInt(PutInt(v, w)) == v
  {
    var p := Pow256(w);
    assert p == 256 * Pow256(w - 1);
    ModNear(v, p);
    GetPutUint(v % p, w);
  }

  lemma ModNear(v: int, p: int)
    requires p > 0 && -p <= v < p
    ensures v % p == if v < 0 then v + p else v
  {
    if v < 0 {
      assert v == p * -1 + (v + p);
    }
  }

  lemma {:induction false} PutGetUint(s: Bytes)
    ensures PutUint(GetUint(s), |s|) == s
  {
    if s != [] {
      var front, last := s[..|s| - 1], s[|s| - 1];
      PutGetUint(front);
      Digits(GetUint(front), last);
      assert s == front + [last];
    }
  }

  lemma Digits(u: nat, b: Byte)
    ensures (u * 256 + b) / 256 == u && (u * 256 + b) % 256 == b
  {}

  /** Every byte sequence is the two's complement of the integer it is read as. */
  lemma PutGetInt(s: Bytes)
    requires s != []
    ensures PutInt(GetInt(s), |s|) == s
  {
    var p := Pow256(|s|);
    assert p == 256 * Pow256(|s| - 1);
    ModNear(GetInt(s), p);
    PutGetUint(s);
  }

  // ---------- the order of the bytes

  /** s comes before t in lexicographic byte order, and neither is the start of the other. */
  predicate Precedes(s: Bytes, t: Bytes)
  {
    exists k | 0 <= k < |s| && k < |t| :: s[..k] == t[..k] && s[k] < t[k]
  }

  /** Big end first: of two sequences of one length the lexicographically smaller one is the smaller number. */
  lemma {:induction false} BigEndFirst(s: Bytes, t: Bytes)
    requires |s| == |t|
    ensures GetUint(s) < GetUint(t) <==> Precedes(s, t)
    decreases |s|
  {
    if s != [] {
      var n := |s| - 1;
      BigEndFirst(s[..n], t[..n]);
      if GetUint(s) < GetUint(t) {
        LastByteDecides(s, t);
      }
      if k :| 0 <= k < |s| && k < |t| && s[..k] == t[..k] && s[k] < t[k] {
        if k < n {
          assert s[..n][..k] == t[..n][..k] && s[..n][k] < t[..n][k];
          assert Precedes(s[..n], t[..n]);
        }
      }
    }
  }

  lemma {:induction false} LastByteDecides(s: Bytes, t: Bytes)
    requires |s| == |t| > 0 && GetUint(s) < GetUint(t)
    requires var n := |s| - 1; GetUint(s[..n]) < GetUint(t[..n]) <==> Precedes(s[..n], t[..n])
    ensures Precedes(s, t)
  {
    hide Precedes;
    var n := |s| - 1;
    var a, b := s[..n], t[..n];
    assert GetUint(s) == GetUint(a) * 256 + s[n] && GetUint(t) == GetUint(b) * 256 + t[n];
    hide GetUint;
    if GetUint(a) == GetUint(b) {
      SameNumber(a, b);
      PrecedesAt(s, t, n);
    } else {
      PrecedesInFront(s, t, n);
    }
  }

  lemma PrecedesAt(s: Bytes, t: Bytes, k: nat)
    requires k < |s| && k < |t| && s[..k] == t[..k] && s[k] < t[k]
    ensures Precedes(s, t)
  {}

  lemma PrecedesInFront(s: Bytes, t: Bytes, n: nat)
    requires n <= |s| && n <= |t| && Precedes(s[..n], t[..n])
    ensures Precedes(s, t)
  {
    var k :| 0 <= k < n && s[..n][..k] == t[..n][..k] && s[..n][k] < t[..n][k];
    assert s[..n][..k] == s[..k] && t[..n][..k] == t[..k];
    PrecedesAt(s, t, k);
  }

  lemma {:induction false} SameNumber(s: Bytes, t: Bytes)
    requires |s| == |t| && GetUint(s) == GetUint(t)
    ensures s == t
  {
    PutGetUint(s);
    PutGetUint(t);
  }

  lemma {:induction false} PutUintAt(u: nat, w: nat, i: nat)
    requires u < Pow256(w) && i < w
    ensures PutUint(u, w)[i] == u / Pow256(w - 1 - i) % 256
    decreases w
  {
    if i < w - 1 {
      PutUintAt(u / 256, w - 1, i);
      DivideTwice(u, Pow256(w - 2 - i));
    }
  }

  lemma DivideTwice(u: nat, p: nat)
    requires p >= 1
    ensures u / 256 / p == u / (256 * p)
  {
    var q, r := u / (256 * p), u % (256 * p);
    assert u == 256 * (q * p) + r;
    assert u / 256 == q * p + r / 256;
    assert r / 256 < p;
    QuotientIs(u / 256, p, q, r / 256);
  }

  lemma QuotientIs(x: int, p: nat, q: int, r: nat)
    requires x == q * p + r && r < p
    ensures x / p == q && x % p == r
  {
    var e, f := x / p, x % p;
    Difference(e, q, p, f, r);
  }

  lemma Difference(e: int, q: int, p: nat, f: nat, r: nat)
    requires e * p + f == q * p + r && f < p && r < p
    ensures e == q && f == r
  {
    assert (e - q) * p == r - f;
    AtLeast(e - q, p);
  }

  lemma AtLeast(e: int, p: int)
    requires p >= 0
    ensures (e >= 1 ==> e * p >= p) && (e <= -1 ==> e * p <= -p)
  {}

  /** Byte i of an integer of w bytes is its digit for 256 to the power w - 1 - i, negative integers included. */
  lemma {:induction false} PutIntAt(v: int, w: nat, i: nat)
    requires i < w
    ensures PutInt(v, w)[i] == v / Pow256(w - 1 - i) % 256
  {
    var p, d := Pow256(w), Pow256(w - 1 - i);
    PutUintAt(v % p, w, i);
    var m := PowersApart(w - 1 - i, w);
    LowDigit(v, d, m);
  }

  /** Taking a remainder by 256 * m * d leaves the digit for d alone. */
  lemma LowDigit(v: int, d: nat, m: nat)
    requires d >= 1 && m >= 1
    ensures 256 * m * d >= 1 && v % (256 * m * d) / d % 256 == v / d % 256
  {
    Product(m, d);
    var p := 256 * m * d;
    var q, r := v / p, v % p;
    var k := q * m;
    assert q * p == 256 * k * d by {
      Regroup(q, m, d);
    }
    assert (256 * k + r / d) * d == 256 * k * d + r / d * d;
    QuotientIs(v, d, 256 * k + r / d, r % d);
    QuotientIs(v / d, 256, k + r / d / 256, r / d % 256);
  }

  lemma Product(m: nat, d: nat)
    requires d >= 1 && m >= 1
    ensures m * d >= 1
  {}

  lemma Regroup(q: int, m: nat, d: nat)
    ensures q * (256 * m * d) == 256 * (q * m) * d
  {
    assert q * (m * d) == q * m * d;
  }

  lemma {:induction false} PowersApart(j: nat, w: nat) returns (m: nat)
    requires j < w
    ensures Pow256(w) == 256 * m * Pow256(j) && m >= 1
  {
    if j == w - 1 {
      m := 1;
    } else {
      var n := PowersApart(j, w - 1);
      m := 256 * n;
    }
  }

  /** The first byte shows the sign, the last one is the remainder by 256. */
  lemma PutIntEnds(v: int, w: nat)
    requires Fits(v, w)
    ensures PutInt(v, w)[0] >= 0x80 <==> v < 0
    ensures PutInt(v, w)[w - 1] == v % 256
  {
    PutIntAt(v, w, 0);
    PutIntAt(v, w, w - 1);
    TopDigit(v, Pow256(w - 1));
  }

  lemma TopDigit(v: int, d: nat)
    requires d >= 1 && -128 * d <= v < 128 * d
    ensures -128 <= v / d < 128 && (v < 0 <==> v / d < 0)
  {
    var q, r := v / d, v % d;
    assert v == q * d + r && 0 <= r < d;
    Scale(128, q, d);
    Scale(q + 1, -128, d);
    Scale(0, q, d);
    Scale(q + 1, 0, d);
    assert (q + 1) * d == q * d + d;
  }

  lemma Scale(a: int, b: int, d: int)
    requires d >= 0
    ensures a <= b ==> a * d <= b * d
  {}

  lemma Widths()
    ensures Pow256(1) == 0x100 && Pow256(2) == 0x1_0000 && Pow256(3) == 0x100_0000
    ensures Pow256(7) == 0x100_0000_0000_0000
    ensures forall v {:trigger Fits(v, 4)} :: Fits(v, 4) <==> -0x8000_0000 <= v < 0x8000_0000
    ensures forall v {:trigger Fits(v, 2)} :: Fits(v, 2) <==> -0x8000 <= v < 0x8000
    ensures forall v {:trigger Fits(v, 8)} :: Fits(v, 8) <==> -0x8000_0000_0000_0000 <= v < 0x8000_0000_0000_0000
  {
    assert Pow256(1) == 256 * Pow256(0);
    assert Pow256(3) == 256 * Pow256(2);
    assert Pow256(5) == 256 * Pow256(4);
    assert Pow256(7) == 256 * Pow256(6);
  }

  // ---------- bounds-checked reads

  function ReadInt(s: Bytes, w: nat): (r: Read<int>)
    requires w > 0
    ensures r.n <= |s|
    ensures r.Ok? ==> r.n == w && Fits(r.value, w)
  {
    if |s| < w then Err(0) else Ok(GetInt(s[..w]), w)
  }

  function ReadBool(s: Bytes): (r: Read<bool>)
    ensures r.n <= |s| && (r.Ok? ==> r.n == 1)
  {
    if |s| < 1 then Err(0) else Ok(s[0] == 1, 1)
  }

  function ReadString(s: Bytes): (r: Read<Bytes>)
    ensures r.n <= |s|
    ensures r.Ok? ==> |r.value| < MAX_SIZE && r.n == 4 + |r.value| && r.value == s[4..r.n]
  {
    Widths();
    match ReadInt(s, 4)
    case Err(_) => Err(0)
    case Ok(len, _) => if len < 0 || |s| < 4 + len then Err(0) else Ok(s[4..4 + len], 4 + len)
  }

  /** Type code and field id; a stop byte is a header of its own. */
  function ReadFieldBegin(s: Bytes): (r: Read<(int, int)>)
    ensures r.n <= |s|
    ensures r.Ok? ==> r.n == if r.value.0 == STOP then 1 else 3
  {
    if |s| < 1 then Err(0)
    else if s[0] == STOP then Ok((STOP, 0), 1)
    else if |s| < 3 then Err(0)
    else Ok((s[0], GetInt(s[1..3])), 3)
  }

  /** Element type and size. */
  function ReadListBegin(s: Bytes): (r: Read<(int, nat)>)
    ensures r.n <= |s| && (r.Ok? ==> r.n == 5)
  {
    if |s| < 5 || GetInt(s[1..5]) < 0 then Err(0) else Ok((s[0], GetInt(s[1..5])), 5)
  }

  /** Key type, value type and size. */
  function ReadMapBegin(s: Bytes): (r: Read<(int, int, nat)>)
    ensures r.n <= |s| && (r.Ok? ==> r.n == 6)
  {
    if |s| < 6 || GetInt(s[2..6]) < 0 then Err(0) else Ok((s[0], s[1], GetInt(s[2..6])), 6)
  }

  // ---------- skipping

  /** Bytes taken by a type of fixed size, 0 for the others. */
  function FixedSize(t: int): nat
  {
    if t == BOOL || t == BYTE then 1
    else if t == I16 then 2
    else if t == I32 then 4
    else if t == I64 || t == DOUBLE then 8
    else 0
  }

  function Skip(s: Bytes, t: int): (r: Read<()>)
    ensures r.n <= |s|
    ensures if r.Ok? then r.n >= 1 else r.n == 0
    decreases |s|, 1
  {
    if FixedSize(t) > 0 then
      if |s| < FixedSize(t) then Err(0) else Ok((), FixedSize(t))
    else if t == STRING then
      match ReadString(s)
      case Err(_) => Err(0)
      case Ok(_, n) => Ok((), n)
    else if t == STRUCT then
      SkipFields(s)
    else if t == LIST || t == SET then
      match ReadListBegin(s)
      case Err(_) => Err(0)
      case Ok((et, size), n) => Advance(n, SkipItems(s[n..], et, size))
    else if t == MAP then
      match ReadMapBegin(s)
      case Err(_) => Err(0)
      case Ok((kt, vt, size), n) => Advance(n, SkipEntries(s[n..], kt, vt, size))
    else
      Err(0)
  }

  function SkipFields(s: Bytes): (r: Read<()>)
    ensures r.n <= |s|
    ensures if r.Ok? then r.n >= 1 else r.n == 0
    decreases |s|, 0
  {
    match ReadFieldBegin(s)
    case Err(_) => Err(0)
    case Ok((t, _), n) =>
      if t == STOP then Ok((), n)
      else
        match Skip(s[n..], t)
        case Err(_) => Err(0)
        case Ok(_, m) => Advance(n + m, SkipFields(s[n + m..]))
  }

  function SkipItems(s: Bytes, t: int, count: nat): (r: Read<()>)
    ensures r.n <= |s|
    ensures r.Err? ==> r.n == 0
    decreases |s|, 2
  {
    if count == 0 then Ok((), 0)
    else
      match Skip(s, t)
      case Err(_) => Err(0)
      case Ok(_, n) => Advance(n, SkipItems(s[n..], t, count - 1))
  }

  function SkipEntries(s: Bytes, k: int, v: int, count: nat): (r: Read<()>)
    ensures r.n <= |s|
    ensures r.Err? ==> r.n == 0
    decreases |s|, 2
  {
    if count == 0 then Ok((), 0)
    else
      match Skip(s, k)
      case Err(_) => Err(0)
      case Ok(_, n) =>
        match Skip(s[n..], v)
        case Err(_) => Err(0)
        case Ok(_, m) => Advance(n + m, SkipEntries(s[n + m..], k, v, count - 1))
  }

  function Advance(n: nat, r: Read<()>): Read<()>
  {
    if r.Ok? then Ok((), n + r.n) else Err(0)
  }
}
