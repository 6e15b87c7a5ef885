/**
 How Go decodes a string into runes and encodes a rune as a string: the UTF-8 of RFC 3629,
 sections 3 and 4, where a byte that starts no well-formed character is decoded as U+FFFD, width 1.
 */
module Utf8 {
  import opened Binary

  const REPLACEMENT := 0xFFFD

  predicate Continues(b: Byte)
  {
    0x80 <= b <= 0xBF
  }

  /** Length of the character a byte leads, 0 if it leads none. */
  function LeadWidth(b: Byte): nat
  {
    if b < 0x80 then 1
    else if 0xC2 <= b <= 0xDF then 2
    else if 0xE0 <= b <= 0xEF then 3
    else if 0xF0 <= b <= 0xF4 then 4
    else 0
  }

  /** Section 4 narrows the second byte: no overlong form, no surrogate, nothing above U+10FFFF. */
  predicate Second(lead: Byte, b: Byte)
  {
    (if lead == 0xE0 then 0xA0 else if lead == 0xF0 then 0x90 else 0x80) <= b
    <= (if lead == 0xED then 0x9F else if lead == 0xF4 then 0x8F else 0xBF)
  }

  /** s starts with a well-formed character. */
  predicate WellFormed(s: Bytes)
  {
    && s != []
    && 1 <= LeadWidth(s[0]) <= |s|
    && (LeadWidth(s[0]) > 1 ==> Second(s[0], s[1]))
    && forall i | 1 <= i < LeadWidth(s[0]) :: Continues(s[i])
  }

  function Width(s: Bytes): (w: nat)
    requires s != []
    ensures 1 <= w <= |s| && w <= 4
  {
    if WellFormed(s) then LeadWidth(s[0]) else 1
  }

  /** The low six bits of a continuation byte. */
  function Low(b: Byte): int
  {
    b as int - 0x80
  }

  function Decode(s: Bytes): int
    requires s != []
  {
    if !WellFormed(s) then REPLACEMENT
    else if LeadWidth(s[0]) == 1 then s[0]
    else if LeadWidth(s[0]) == 2 then (s[0] as int - 0xC0) * 64 + Low(s[1])
    else if LeadWidth(s[0]) == 3 then (s[0] as int - 0xE0) * 4096 + Low(s[1]) * 64 + Low(s[2])
    else (s[0] as int - 0xF0) * 262144 + Low(s[1]) * 4096 + Low(s[2]) * 64 + Low(s[3])
  }

  /** The runes a range loop over the string visits. */
  function Runes(s: Bytes): (r: seq<int>)
    ensures (r == []) == (s == [])
  {
    if s == [] then [] else [Decode(s)] + Runes(s[Width(s)..])
  }

  /** A Unicode scalar value. */
  predicate Scalar(r: int)
  {
    0 <= r < 0xD800 || 0xDFFF < r <= 0x10FFFF
  }

  /** The conversion string(r). */
  function Encode(r: int): Bytes
  {
    if !Scalar(r) then [0xEF, 0xBF, 0xBD]
    else if r < 0x80 then [r]
    else if r < 0x800 then [0xC0 + r / 64, 0x80 + r % 64]
    else if r < 0x1_0000 then [0xE0 + r / 4096, 0x80 + r / 64 % 64, 0x80 + r % 64]
    else [0xF0 + r / 262144, 0x80 + r / 4096 % 64, 0x80 + r / 64 % 64, 0x80 + r % 64]
  }

  // ---------- round trips

  lemma DecodedIsScalar(s: Bytes)
    requires s != []
    ensures Scalar(Decode(s))
  {}

  lemma Digits(r: nat)
    ensures r == r / 64 * 64 + r % 64
    ensures r / 64 == r / 4096 * 64 + r / 64 % 64
    ensures r / 4096 == r / 262144 * 64 + r / 4096 % 64
  {
    assert r / 64 / 64 == r / 4096;
    assert r / 4096 / 64 == r / 262144;
  }

  /** Decoding inverts encoding, whatever follows. */
  lemma EncodedReadsBack(r: int, tail: Bytes)
    requires Scalar(r)
    ensures WellFormed(Encode(r) + tail)
    ensures Decode(Encode(r) + tail) == r && Width(Encode(r) + tail) == |Encode(r)|
  {
    Digits(r);
    EncodedIsWellFormed(r, tail);
    var e, s := Encode(r), Encode(r) + tail;
    assert forall i | 0 <= i < |e| :: s[i] == e[i];
    hide WellFormed;
    assert LeadWidth(s[0]) == |e|;
  }

  lemma EncodedIsWellFormed(r: int, tail: Bytes)
    requires Scalar(r)
    ensures WellFormed(Encode(r) + tail)
  {
    Digits(r);
    var e, s := Encode(r), Encode(r) + tail;
    assert forall i | 0 <= i < |e| :: s[i] == e[i];
    assert LeadWidth(s[0]) == |e|;
  }

  /** One to four bytes by the size of the rune, with the lead and continuation bytes of section 4. */
  lemma EncodedShape(r: int)
    requires Scalar(r)
    ensures var e := Encode(r);
      && |e| == (if r < 0x80 then 1 else if r < 0x800 then 2 else if r < 0x1_0000 then 3 else 4)
      && (|e| == 1 ==> e[0] == r) && (|e| == 2 ==> 0xC2 <= e[0] <= 0xDF)
      && (|e| == 3 ==> 0xE0 <= e[0] <= 0xEF) && (|e| == 4 ==> 0xF0 <= e[0] <= 0xF4)
      && forall i | 1 <= i < |e| :: 0x80 <= e[i] <= 0xBF
  {}

  /** Section 1 of RFC 3629: encoded characters stand in the byte order of their numbers. */
  lemma EncodedInOrder(r: int, t: int)
    requires Scalar(r) && Scalar(t) && r < t
    ensures Precedes(Encode(r), Encode(t))
  {
    EncodedShape(r);
    EncodedShape(t);
    var a, b := Encode(r), Encode(t);
    if |a| != |b| {
      PrecedesAt(a, b, 0);
    } else {
      Digits(r);
      Digits(t);
      var k := if a[0] != b[0] then 0 else if a[1] != b[1] then 1 else if a[2] != b[2] then 2 else 3;
      SameStart(a, b, k);
      PrecedesAt(a, b, k);
    }
  }

  lemma SameStart(a: Bytes, b: Bytes, k: nat)
    requires k <= 4 && k <= |a| && k <= |b| && forall i | 0 <= i < k :: a[i] == b[i]
    ensures a[..k] == b[..k]
  {}

  lemma DivMod(q: nat, m: nat)
    requires m < 64
    ensures (q * 64 + m) / 64 == q && (q * 64 + m) % 64 == m
  {}

  /** Encoding inverts decoding of every well-formed character: no other bytes stand for the same rune. */
  lemma DecodedEncodesBack(s: Bytes)
    requires WellFormed(s)
    ensures Encode(Decode(s)) == s[..Width(s)]
  {
    DecodedIsScalar(s);
    if LeadWidth(s[0]) == 2 {
      DivMod(s[0] as int - 0xC0, Low(s[1]));
    } else if LeadWidth(s[0]) == 3 {
      Three(s[0] as int - 0xE0, Low(s[1]), Low(s[2]));
    } else if LeadWidth(s[0]) == 4 {
      Four(s[0] as int - 0xF0, Low(s[1]), Low(s[2]), Low(s[3]));
    }
  }

  /** Bytes that start with no encoded character lose one byte to U+FFFD. */
  lemma StrayByte(s: Bytes)
    requires s != [] && forall r | Scalar(r) :: !(Encode(r) <= s)
    ensures Decode(s) == 0xFFFD && Width(s) == 1
  {
    if WellFormed(s) {
      DecodedIsScalar(s);
      DecodedEncodesBack(s);
      assert false;
    }
  }

  lemma Three(a: nat, b: nat, c: nat)
    requires b < 64 && c < 64
    ensures var r := a * 4096 + b * 64 + c; r / 4096 == a && r / 64 % 64 == b && r % 64 == c
  {
    DivMod(a * 64 + b, c);
    DivMod(a, b);
  }

  lemma Four(a: nat, b: nat, c: nat, d: nat)
    requires b < 64 && c < 64 && d < 64
    ensures var r := a * 262144 + b * 4096 + c * 64 + d;
      r / 262144 == a && r / 4096 % 64 == b && r / 64 % 64 == c && r % 64 == d
  {
    DivMod(a * 4096 + b * 64 + c, d);
    Three(a, b, c);
    var q := a * 4096 + b * 64 + c;
    assert (q * 64 + d) / 64 == q;
    assert (q * 64 + d) / 4096 == q / 64 && (q * 64 + d) / 262144 == q / 4096;
  }

  lemma {:induction false} RunesAreScalar(s: Bytes)
    ensures forall r <- Runes(s) :: Scalar(r)
  {
    if s != [] {
      DecodedIsScalar(s);
      RunesAreScalar(s[Width(s)..]);
    }
  }

  /** A rune counted in any text survives being sent as a string and read back with []rune(s)[0]. */
  lemma {:induction false} CountedRuneSurvives(text: Bytes, r: int)
    requires r in Runes(text)
    ensures Runes(Encode(r)) == [r]
  {
    RunesAreScalar(text);
    EncodedReadsBack(r, []);
    assert Encode(r) + [] == Encode(r);
    assert Encode(r)[|Encode(r)|..] == [];
  }

  predicate AllScalar(t: seq<int>)
  {
    forall i | 0 <= i < |t| :: Scalar(t[i])
  }

  // ---------- ASCII bytes

  /** An ASCII byte completes no character begun before it. */
  lemma FirstBeforeAscii(a: Bytes, b: Bytes)
    requires a != [] && (b == [] || b[0] < 0x80)
    ensures Width(a + b) == Width(a) && Decode(a + b) == Decode(a)
  {
    var s := a + b;
    assert forall i | 0 <= i < |a| :: s[i] == a[i];
    if WellFormed(s) {
      assert LeadWidth(s[0]) > |a| ==> s[|a|] == b[0] && Continues(s[|a|]);
      assert WellFormed(a);
    } else if WellFormed(a) {
      assert WellFormed(s);
    }
  }

  /** So whatever comes before it, well formed or not, decodes as if it stood alone. */
  lemma {:induction false} AsciiBoundary(a: Bytes, b: Bytes)
    requires b == [] || b[0] < 0x80
    ensures Runes(a + b) == Runes(a) + Runes(b)
    decreases |a|
  {
    hide WellFormed, Width, Decode, Runes;
    if a == [] {
      assert a + b == b;
      assert Runes([]) == [];
    } else {
      FirstBeforeAscii(a, b);
      RunesOfFirst(a);
      RunesOfFirst(a + b);
      assert (a + b)[Width(a)..] == a[Width(a)..] + b;
      AsciiBoundary(a[Width(a)..], b);
    }
  }

  lemma {:induction false} AsciiFirst(b: Byte, rest: Bytes)
    requires b < 0x80
    ensures Runes([b] + rest) == [b as int] + Runes(rest)
  {
    assert ([b] + rest)[1..] == rest;
  }

  /** A cut beside an ASCII byte splits the runes. */
  lemma {:induction false} CutBesideAscii(a: Bytes, b: Bytes)
    requires a == [] || b == [] || a[|a| - 1] < 0x80 || b[0] < 0x80
    ensures Runes(a + b) == Runes(a) + Runes(b)
  {
    NoRunes();
    hide Runes;
    if a == [] {
      assert a + b == b;
    } else if b == [] || b[0] < 0x80 {
      AsciiBoundary(a, b);
    } else {
      assert a == a[..|a| - 1] + [a[|a| - 1]];
      CutAfterAscii(a[..|a| - 1], a[|a| - 1], b);
    }
  }

  lemma {:induction false} CutAfterAscii(a: Bytes, q: Byte, b: Bytes)
    requires q < 0x80
    ensures Runes(a + [q] + b) == Runes(a + [q]) + Runes(b)
  {
    NoRunes();
    hide Runes;
    assert a + [q] + b == a + ([q] + b);
    AsciiBoundary(a, [q] + b);
    AsciiBoundary(a, [q] + []);
    AsciiFirst(q, b);
    AsciiFirst(q, []);
    Regroup(a, [q]);
    assert Runes(a) + ([q as int] + Runes(b)) == Runes(a) + ([q as int] + []) + Runes(b);
  }

  lemma Regroup(a: Bytes, q: Bytes)
    ensures a + (q + []) == a + q
  {}

  lemma NoRunes()
    ensures Runes([]) == []
  {}

  predicate AllAscii(s: Bytes)
  {
    forall i | 0 <= i < |s| :: s[i] < 0x80
  }

  lemma {:induction false} AsciiRunes(s: Bytes)
    requires AllAscii(s)
    ensures Runes(s) == s
  {
    if s != [] {
      AsciiRunes(s[1..]);
      AsciiFirst(s[0], s[1..]);
      assert [s[0]] + s[1..] == s;
    }
  }

  /** An ASCII rune comes only from its own byte. */
  lemma {:induction false} AsciiRuneIsByte(s: Bytes, i: nat)
    requires i < |Runes(s)| && Runes(s)[i] < 0x80
    ensures exists j | 0 <= j < |s| :: s[j] as int == Runes(s)[i]
    decreases |s|
  {
    hide Runes;
    RunesOfFirst(s);
    if i == 0 {
      SmallIsOneByte(s);
      assert s[0] as int == Runes(s)[0];
    } else {
      var w := Width(s);
      hide Width, Decode, WellFormed;
      AsciiRuneIsByte(s[w..], i - 1);
      var j :| 0 <= j < |s[w..]| && s[w..][j] as int == Runes(s[w..])[i - 1];
      assert s[w + j] == s[w..][j];
    }
  }

  lemma SmallIsOneByte(s: Bytes)
    requires s != [] && Decode(s) < 0x80
    ensures s[0] as int == Decode(s)
  {}

  // ---------- cutting a string in two

  /** The decoder of s stops at c. */
  predicate Boundary(s: Bytes, c: nat)
    requires c <= |s|
  {
    c == 0 || (Width(s) <= c && Boundary(s[Width(s)..], c - Width(s)))
  }

  /** The first character does not change when what follows it is cut away. */
  lemma FirstOfPrefix(s: Bytes, c: nat)
    requires 0 < c <= |s|
    requires Width(s) <= c
    ensures Width(s[..c]) == Width(s) && Decode(s[..c]) == Decode(s)
  {
    if WellFormed(s[..c]) {
      assert WellFormed(s);
    }
  }

  lemma {:induction false} RunesOfFirst(s: Bytes)
    requires s != []
    ensures Runes(s) == [Decode(s)] + Runes(s[Width(s)..])
  {}

  lemma RunesOfPrefix(s: Bytes, c: nat)
    requires 0 < c <= |s|
    requires Width(s) <= c
    ensures Runes(s[..c]) == [Decode(s)] + Runes(s[Width(s)..][..c - Width(s)])
  {
    FirstOfPrefix(s, c);
    assert s[..c][Width(s)..] == s[Width(s)..][..c - Width(s)];
  }

  lemma {:induction false} CutAtBoundary(s: Bytes, c: nat)
    requires c <= |s| && Boundary(s, c)
    ensures Runes(s) == Runes(s[..c]) + Runes(s[c..])
    decreases c
  {
    hide WellFormed, Width, Decode, Runes;
    if c == 0 {
      assert s[..0] == [] && s[0..] == s;
    } else {
      var w := Width(s);
      RunesOfFirst(s);
      RunesOfPrefix(s, c);
      CutAtBoundary(s[w..], c - w);
      assert s[c..] == s[w..][c - w..];
    }
  }

  function Replacements(n: nat): seq<int>
  {
    seq(n, _ => REPLACEMENT)
  }

  /** A byte that starts no well-formed character is one replacement rune. */
  lemma {:induction false} Stray(s: Bytes)
    requires s != [] && !WellFormed(s)
    ensures Runes(s) == Replacements(1) + Runes(s[1..])
  {}

  /** n stray bytes in a row. */
  lemma {:induction false} Strays(s: Bytes, n: nat)
    requires n <= |s| && forall i | 0 <= i < n :: !WellFormed(s[i..])
    ensures Runes(s) == Replacements(n) + Runes(s[n..])
    decreases n
  {
    hide WellFormed, Width, Decode, Runes;
    assert s[0..] == s;
    if n > 0 {
      Stray(s);
      forall i | 0 <= i < n - 1 ensures !WellFormed(s[1..][i..]) {
        assert s[1..][i..] == s[i + 1..];
      }
      Strays(s[1..], n - 1);
      assert s[1..][n - 1..] == s[n..];
      assert Replacements(1) + Replacements(n - 1) == Replacements(n);
    }
  }

  lemma ContinuationIsStray(s: Bytes)
    requires s != [] && Continues(s[0])
    ensures !WellFormed(s)
  {}

  /** What is left of the character when it is cut at c, and what remains of it on the right. */
  lemma CutPiecesStray(s: Bytes, c: nat)
    requires s != [] && 0 < c < Width(s)
    ensures forall i | 0 <= i < c :: !WellFormed(s[..c][i..])
    ensures forall i | 0 <= i < Width(s) - c :: !WellFormed(s[c..][i..])
  {
    assert !WellFormed(s[..c]);
    assert s[..c][0..] == s[..c];
    forall i | 1 <= i < c ensures !WellFormed(s[..c][i..]) {
      assert Continues(s[i]);
      ContinuationIsStray(s[..c][i..]);
    }
    forall i | 0 <= i < Width(s) - c ensures !WellFormed(s[c..][i..]) {
      assert Continues(s[c + i]);
      ContinuationIsStray(s[c..][i..]);
    }
  }

  /** A cut inside the first character turns each of its bytes into U+FFFD. */
  lemma CutFirst(s: Bytes, c: nat)
    requires s != [] && 0 < c < Width(s)
    ensures Runes(s[..c]) + Runes(s[c..]) == Replacements(Width(s)) + Runes(s[Width(s)..])
  {
    hide WellFormed, Width, Decode, Runes;
    var w := Width(s);
    CutPiecesStray(s, c);
    Strays(s[..c], c);
    assert s[..c][c..] == [] && Runes([]) == [];
    Strays(s[c..], w - c);
    assert s[c..][w - c..] == s[w..];
    assert Replacements(c) + Replacements(w - c) == Replacements(w);
  }

  /** A cut inside a character of width w replaces its rune by w copies of U+FFFD and touches nothing else. */
  lemma {:induction false} CutInside(s: Bytes, c: nat) returns (i: nat, w: nat)
    requires c <= |s| && !Boundary(s, c)
    ensures 2 <= w <= 4 && i < |Runes(s)|
    ensures Runes(s[..c]) + Runes(s[c..]) == Runes(s)[..i] + Replacements(w) + Runes(s)[i + 1..]
    decreases c
  {
    hide WellFormed, Width, Decode, Runes, Replacements;
    w := Width(s);
    RunesOfFirst(s);
    if c < w {
      i := 0;
      CutFirst(s, c);
      assert Runes(s)[1..] == Runes(s[w..]);
    } else {
      var first := w;
      var rest := s[first..];
      RunesOfPrefix(s, c);
      i, w := CutInside(rest, c - first);
      assert s[c..] == rest[c - first..];
      assert Runes(s)[..i + 1] == [Decode(s)] + Runes(rest)[..i];
      assert Runes(s)[i + 2..] == Runes(rest)[i + 1..];
      assert Runes(s[..c]) + Runes(s[c..]) == [Decode(s)] + (Runes(rest[..c - first]) + Runes(rest[c - first..]));
      i := i + 1;
    }
  }

  /** Cutting again further right does not move a boundary, as long as a whole character fits in between. */
  lemma {:induction false} BoundaryOfPrefix(s: Bytes, d: nat, c: nat)
    requires c + 3 <= d <= |s|
    ensures Boundary(s[..d], c) <==> Boundary(s, c)
    decreases c
  {
    if c > 0 {
      FirstOfPrefix(s, d);
      var w := Width(s);
      if w <= c {
        BoundaryOfPrefix(s[w..], d - w, c - w);
        assert s[..d][w..] == s[w..][..d - w];
      }
    }
  }
}
