/** Counting the runes of a text, in one pass or by four workers that merge their counts in any order. */
module CharCount {
  import opened Binary
  import opened Counting
  import opened Utf8

  const CHUNK_SIZE := 1000
  const WORKERS := 4

  function Simple(text: Bytes): multiset<int>
  {
    multiset(Runes(text))
  }

  // ---------- the chunks

  function ChunkLen(n: nat): nat
  {
    (n + WORKERS - 1) / WORKERS
  }

  /** Where chunk i starts and chunk i - 1 ends. */
  function Cut(n: nat, i: nat): (c: nat)
    ensures c <= n
  {
    if i * ChunkLen(n) > n then n else i * ChunkLen(n)
  }

  lemma Cuts(n: nat, i: nat)
    requires n > CHUNK_SIZE && i < WORKERS
    ensures Cut(n, 0) == 0 && Cut(n, WORKERS) == n
    ensures Cut(n, i) + 3 <= Cut(n, i + 1)
  {
    var l := ChunkLen(n);
    assert Cut(n, 0) == 0 && Cut(n, 1) == l && Cut(n, 2) == 2 * l && Cut(n, 3) == 3 * l && Cut(n, 4) == n;
  }

  function Chunk(text: Bytes, i: nat): Bytes
    requires |text| > CHUNK_SIZE && i < WORKERS
  {
    Cuts(|text|, i);
    text[Cut(|text|, i)..Cut(|text|, i + 1)]
  }

  lemma ChunkIs(text: Bytes, i: nat)
    requires |text| > CHUNK_SIZE && i < WORKERS
    ensures var c, d := Cut(|text|, i), Cut(|text|, i + 1);
      c + 3 <= d && text[..d][..c] == text[..c] && text[..d][c..] == Chunk(text, i)
  {
    Cuts(|text|, i);
  }

  /** A quarter of the bytes each, rounded up, and the rest for the last. */
  lemma ChunkSizes(text: Bytes)
    requires |text| > CHUNK_SIZE
    ensures |Chunk(text, 0)| == |Chunk(text, 1)| == |Chunk(text, 2)| == (|text| + 3) / 4
  {}

  /** The chunks, none of them empty, are the text cut into four pieces. */
  lemma ChunksPartition(text: Bytes)
    requires |text| > CHUNK_SIZE
    ensures Chunk(text, 0) + Chunk(text, 1) + Chunk(text, 2) + Chunk(text, 3) == text
    ensures Chunk(text, 0) != [] && Chunk(text, 1) != [] && Chunk(text, 2) != [] && Chunk(text, 3) != []
  {
    Cuts(|text|, 0);
    hide Chunk, Cut;
    ChunkIs(text, 0);
    ChunkIs(text, 1);
    ChunkIs(text, 2);
    ChunkIs(text, 3);
    assert text[..Cut(|text|, 1)] == Chunk(text, 0);
    assert text[..Cut(|text|, 2)] == text[..Cut(|text|, 1)] + Chunk(text, 1);
    assert text[..Cut(|text|, 3)] == text[..Cut(|text|, 2)] + Chunk(text, 2);
    assert text == text[..Cut(|text|, 3)] + Chunk(text, 3);
  }

  /** What the first k workers count together. */
  function FirstChunks(text: Bytes, k: nat): multiset<int>
    requires |text| > CHUNK_SIZE && k <= WORKERS
  {
    if k == 0 then multiset{} else FirstChunks(text, k - 1) + Simple(Chunk(text, k - 1))
  }

  lemma FirstChunksStep(text: Bytes, k: nat)
    requires |text| > CHUNK_SIZE && k < WORKERS
    ensures FirstChunks(text, k + 1) == FirstChunks(text, k) + Simple(Chunk(text, k))
    ensures k == 0 ==> FirstChunks(text, 1) == Simple(text[..Cut(|text|, 1)])
  {
    ChunkIs(text, k);
    hide Simple, Chunk;
    if k == 0 {
      assert Cut(|text|, 0) == 0;
      assert FirstChunks(text, 0) == multiset{};
    }
  }

  function Chunked(text: Bytes): multiset<int>
    requires |text| > CHUNK_SIZE
  {
    FirstChunks(text, WORKERS)
  }

  // ---------- how the two counts compare

  /** Counting with k cuts instead of none: up to k runes of a kind lost, up to 4 * k U+FFFD gained. */
  ghost predicate Spread(whole: multiset<int>, parts: multiset<int>, k: nat)
  {
    && (forall r | r != REPLACEMENT :: whole[r] - k <= parts[r] <= whole[r])
    && whole[REPLACEMENT] <= parts[REPLACEMENT] <= whole[REPLACEMENT] + 4 * k
  }

  lemma {:induction false} CountReplacements(n: nat)
    ensures multiset(Replacements(n)) == multiset{}[REPLACEMENT := n]
  {
    if n > 0 {
      CountReplacements(n - 1);
      assert Replacements(n) == Replacements(n - 1) + [REPLACEMENT];
    }
  }

  /** One cut changes the counts exactly when it is not a boundary, and then U+FFFD is counted too often. */
  lemma {:induction false} CutEffect(s: Bytes, c: nat)
    requires c <= |s|
    ensures Spread(Simple(s), Simple(s[..c]) + Simple(s[c..]), 1)
    ensures if Boundary(s, c) then Simple(s[..c]) + Simple(s[c..]) == Simple(s)
      else Simple(s)[REPLACEMENT] < (Simple(s[..c]) + Simple(s[c..]))[REPLACEMENT]
  {
    hide Runes, Boundary, Replacements;
    var left, right, runes := Runes(s[..c]), Runes(s[c..]), Runes(s);
    assert multiset(left + right) == multiset(left) + multiset(right);
    if Boundary(s, c) {
      CutAtBoundary(s, c);
    } else {
      var i, w := CutInside(s, c);
      CountReplacements(w);
      assert runes == runes[..i] + [runes[i]] + runes[i + 1..];
      assert multiset(runes) == multiset(runes[..i]) + multiset{runes[i]} + multiset(runes[i + 1..]);
      assert multiset(left + right) == multiset(runes[..i]) + multiset(Replacements(w)) + multiset(runes[i + 1..]);
    }
  }

  /** The first k chunks against the same text in one piece. */
  lemma {:induction false} FirstChunksCompare(text: Bytes, k: nat)
    requires |text| > CHUNK_SIZE && 1 <= k <= WORKERS
    ensures var whole, parts := Simple(text[..Cut(|text|, k)]), FirstChunks(text, k);
      && Spread(whole, parts, k - 1)
      && (if forall i: nat | 1 <= i < k :: Boundary(text, Cut(|text|, i)) then parts == whole
          else whole[REPLACEMENT] < parts[REPLACEMENT])
    decreases k
  {
    hide Cut, Boundary, Simple, Chunk, FirstChunks;
    var s, c := text[..Cut(|text|, k)], Cut(|text|, k - 1);
    FirstChunksStep(text, k - 1);
    ChunkIs(text, k - 1);
    if k > 1 {
      FirstChunksCompare(text, k - 1);
      BoundaryOfPrefix(text, Cut(|text|, k), c);
      CutEffect(s, c);
    }
  }

  /**
   Chunked and simple counting agree exactly when no cut splits a character. In general every other
   rune is short by at most 3, and U+FFFD is over by at most 12 and never short.
   */
  lemma {:induction false} ChunkedAgainstSimple(text: Bytes)
    requires |text| > CHUNK_SIZE
    ensures Chunked(text) == Simple(text) <==> forall i: nat | 1 <= i < WORKERS :: Boundary(text, Cut(|text|, i))
    ensures forall r | r != REPLACEMENT :: Chunked(text)[r] <= Simple(text)[r] <= Chunked(text)[r] + 3
    ensures Simple(text)[REPLACEMENT] <= Chunked(text)[REPLACEMENT] <= Simple(text)[REPLACEMENT] + 12
  {
    Cuts(|text|, 0);
    hide Cut, Boundary, Simple, FirstChunks;
    FirstChunksCompare(text, WORKERS);
    assert text[..|text|] == text;
  }

  // ---------- a text on which they differ

  function As(n: nat): Bytes
  {
    seq(n, _ => 0x61)
  }

  /** An e with an acute accent right where the first cut falls. */
  function SplitText(): Bytes
  {
    As(250) + [0xC3, 0xA9] + As(752)
  }

  lemma {:induction false} AfterAs(n: nat, s: Bytes, c: nat)
    requires c <= |s|
    ensures Boundary(As(n) + s, n + c) == Boundary(s, c)
    decreases n
  {
    if n == 0 {
      assert As(0) + s == s;
    } else {
      var t := As(n) + s;
      assert t[0] == 0x61 && Width(t) == 1;
      assert t[1..] == As(n - 1) + s;
      AfterAs(n - 1, s, c);
    }
  }

  lemma ChunkedDiffers()
    ensures |SplitText()| > CHUNK_SIZE && Chunked(SplitText()) != Simple(SplitText())
  {
    var rest := [0xC3, 0xA9] + As(752);
    assert SplitText() == As(250) + rest;
    assert Width(rest) == 2;
    AfterAs(250, rest, 1);
    assert Cut(|SplitText()|, 1) == 251;
    ChunkedAgainstSimple(SplitText());
  }

  // ---------- the counting loops

  method CountRunes(text: Bytes) returns (count: map<int, nat>)
    ensures count == Tally(Simple(text))
  {
    count := map[];
    var rest := text;
    ghost var seen: seq<int> := [];
    hide Decode, Width, Tally, At, Runes;
    EmptyTally<int>();
    while rest != []
      invariant seen + Runes(rest) == Runes(text)
      invariant count == Tally(multiset(seen))
      decreases |rest|
    {
      var ch := Decode(rest);
      TallyOne(multiset(seen), ch);
      assert multiset(seen + [ch]) == multiset(seen) + multiset{ch};
      RunesOfFirst(rest);
      count := count[ch := At(count, ch) + 1];
      seen := seen + [ch];
      rest := rest[Width(rest)..];
    }
    assert seen + Runes(rest) == seen;
  }

  /** The keys of b outside pending have been added to a. */
  ghost predicate Added(sum: map<int, nat>, a: map<int, nat>, b: map<int, nat>, pending: set<int>)
  {
    && pending <= b.Keys
    && sum.Keys == a.Keys + (b.Keys - pending)
    && forall r :: At(sum, r) == At(a, r) + if r in pending then 0 else At(b, r)
  }

  lemma AddOne(sum: map<int, nat>, a: map<int, nat>, b: map<int, nat>, pending: set<int>, ch: int)
    requires Added(sum, a, b, pending) && ch in pending
    ensures Added(sum[ch := At(sum, ch) + b[ch]], a, b, pending - {ch})
  {
    var more := sum[ch := At(sum, ch) + b[ch]];
    forall r ensures At(more, r) == At(a, r) + if r in pending - {ch} then 0 else At(b, r) {
      assert At(sum, r) == At(a, r) + if r in pending then 0 else At(b, r);
    }
  }

  /** Adds a worker's counts to the shared ones, key by key in any order, while it holds the lock. */
  method Merge(charCount: map<int, nat>, localCount: map<int, nat>) returns (sum: map<int, nat>)
    ensures sum.Keys == charCount.Keys + localCount.Keys
    ensures forall r :: At(sum, r) == At(charCount, r) + At(localCount, r)
  {
    sum := charCount;
    var pending: set<int> := localCount.Keys;
    while pending != {}
      invariant pending <= localCount.Keys && Added(sum, charCount, localCount, pending)
      decreases pending
    {
      SomeKey(pending);
      var ch :| ch in pending;
      AddOne(sum, charCount, localCount, pending, ch);
      sum := sum[ch := At(sum, ch) + localCount[ch]];
      pending := pending - {ch};
    }
  }

  lemma TallySum(a: multiset<int>, b: multiset<int>, sum: map<int, nat>)
    requires sum.Keys == Tally(a).Keys + Tally(b).Keys
    requires forall r :: At(sum, r) == At(Tally(a), r) + At(Tally(b), r)
    ensures sum == Tally(a + b)
  {
    forall r | r in sum ensures r in Tally(a + b) && sum[r] == Tally(a + b)[r] {
      assert At(sum, r) == At(Tally(a), r) + At(Tally(b), r);
    }
  }

  function Share(text: Bytes, done: set<nat>, i: nat): multiset<int>
    requires |text| > CHUNK_SIZE && i < WORKERS
  {
    if i in done then Simple(Chunk(text, i)) else multiset{}
  }

  /** What the workers in done have contributed. */
  function Merged(text: Bytes, done: set<nat>): multiset<int>
    requires |text| > CHUNK_SIZE
  {
    Share(text, done, 0) + Share(text, done, 1) + Share(text, done, 2) + Share(text, done, 3)
  }

  lemma Shares(text: Bytes, done: set<nat>, i: nat, j: nat)
    requires |text| > CHUNK_SIZE && i < WORKERS && j < WORKERS && i !in done
    ensures Share(text, done + {i}, j) == if i == j then Simple(Chunk(text, i)) else Share(text, done, j)
    ensures i == j ==> Share(text, done, j) == multiset{}
  {}

  lemma MergedMore(text: Bytes, done: set<nat>, i: nat)
    requires |text| > CHUNK_SIZE && i < WORKERS && i !in done
    ensures Merged(text, done + {i}) == Merged(text, done) + Simple(Chunk(text, i))
  {
    hide Simple, Chunk;
    hide Share;
    Shares(text, done, i, 0);
    Shares(text, done, i, 1);
    Shares(text, done, i, 2);
    Shares(text, done, i, 3);
    if i == 0 {
    } else if i == 1 {
    } else if i == 2 {
    } else {
      assert i == 3;
    }
  }

  lemma MergedAll(text: Bytes)
    requires |text| > CHUNK_SIZE
    ensures Merged(text, {0, 1, 2, 3}) == Chunked(text)
    ensures Chunked(text) ==
      Simple(Chunk(text, 0)) + Simple(Chunk(text, 1)) + Simple(Chunk(text, 2)) + Simple(Chunk(text, 3))
  {
    hide Simple, Chunk;
    assert FirstChunks(text, 1) == Simple(Chunk(text, 0));
    assert FirstChunks(text, 2) == FirstChunks(text, 1) + Simple(Chunk(text, 1));
    assert FirstChunks(text, 3) == FirstChunks(text, 2) + Simple(Chunk(text, 2));
    assert FirstChunks(text, 4) == FirstChunks(text, 3) + Simple(Chunk(text, 3));
  }

  /** The chunked count is that of the four chunks, each decoded by itself. */
  lemma ChunkedIs(text: Bytes)
    requires |text| > 1000
    ensures Chunked(text) == multiset(Runes(Chunk(text, 0))) + multiset(Runes(Chunk(text, 1))) +
      multiset(Runes(Chunk(text, 2))) + multiset(Runes(Chunk(text, 3)))
  {
    hide Runes, Chunk;
    MergedAll(text);
  }

  lemma NothingMerged(text: Bytes)
    requires |text| > CHUNK_SIZE
    ensures Tally(Merged(text, {})) == map[]
  {}

  /** The workers may take the lock in any order. */
  method CountCharacters(text: Bytes) returns (charCount: map<int, nat>)
    ensures charCount == Tally(if |text| <= 1000 then multiset(Runes(text)) else Chunked(text))
  {
    if |text| <= CHUNK_SIZE {
      charCount := CountRunes(text);
      return;
    }
    NothingMerged(text);
    hide Tally, At, Merged, Chunk, Simple, Chunked, Runes;
    charCount := map[];
    var running: set<nat> := {0, 1, 2, 3};
    ghost var done: set<nat> := {};
    while running != {}
      invariant running !! done && running + done == {0, 1, 2, 3}
      invariant charCount == Tally(Merged(text, done))
      decreases running
    {
      var i :| i in running;
      var localCount := CountRunes(Chunk(text, i));
      ghost var before := Merged(text, done);
      charCount := Merge(charCount, localCount);
      TallySum(before, Simple(Chunk(text, i)), charCount);
      MergedMore(text, done, i);
      running := running - {i};
      done := done + {i};
    }
    assert done == {0, 1, 2, 3};
    MergedAll(text);
  }
}
