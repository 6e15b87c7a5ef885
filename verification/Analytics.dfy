/** AnalyzeCharacterFrequency and its statistics. Averages and frequencies are reals. */
module Analytics {
  import opened Binary
  import opened Counting
  import opened Utf8
  import opened Posts
  import opened Sorting

  datatype CharacterStat = CharacterStat(character: int, count: nat, frequency: real)
  datatype Period = Night | Morning | Afternoon | Evening
  datatype Result = Result(
    totalPosts: nat, totalCharacters: nat, uniqueChars: nat, charFrequency: map<int, nat>,
    topCharacters: seq<CharacterStat>, average: real, median: int, postsPerUser: map<int, nat>,
    timeDistribution: map<Period, nat>)

  const TOP := 20

  // ---------- what is counted

  function Text(p: Post): Bytes
  {
    p.title + [0x20] + p.body
  }

  lemma TextIs(p: Post)
    ensures |Text(p)| == |p.title| + 1 + |p.body|
    ensures Runes(Text(p)) == Runes(p.title) + [0x20] + Runes(p.body)
  {
    hide Runes;
    CutBesideAscii(p.title + [0x20], p.body);
    CutBesideAscii(p.title, [0x20]);
    AsciiFirst(0x20, []);
    NoRunes();
    assert [0x20 as Byte] + [] == [0x20];
  }

  function Texts(posts: seq<Post>): seq<int>
  {
    if posts == [] then [] else Texts(posts[..|posts| - 1]) + Runes(Text(posts[|posts| - 1]))
  }

  function Users(posts: seq<Post>): seq<int>
  {
    seq(|posts|, i requires 0 <= i < |posts| => posts[i].userId)
  }

  function Lengths(posts: seq<Post>): (l: seq<int>)
    ensures |l| == |posts|
  {
    seq(|posts|, i requires 0 <= i < |posts| => |Text(posts[i])|)
  }

  function PeriodOf(hour: nat): Period
  {
    if hour < 6 then Night else if hour < 12 then Morning else if hour < 18 then Afternoon else Evening
  }

  lemma PeriodIs(hour: nat)
    ensures PeriodOf(hour) == Night <==> hour < 6
    ensures PeriodOf(hour) == Morning <==> 6 <= hour < 12
    ensures PeriodOf(hour) == Afternoon <==> 12 <= hour < 18
    ensures PeriodOf(hour) == Evening <==> hour >= 18
  {}

  function Periods(posts: seq<Post>): seq<Period>
  {
    seq(|posts|, i requires 0 <= i < |posts| => PeriodOf(posts[i].createdAt.hour))
  }

  // ---------- top characters

  function Highest(): (CharacterStat, CharacterStat) -> bool
  {
    (x: CharacterStat, y: CharacterStat) => x.count >= y.count
  }

  function Higher(): (CharacterStat, CharacterStat) -> bool
  {
    (x: CharacterStat, y: CharacterStat) => x.count > y.count
  }

  function StatOf(freq: map<int, nat>, total: nat, c: int): CharacterStat
    requires c in freq && total > 0
  {
    CharacterStat(c, freq[c], freq[c] as real / total as real * 100.0)
  }

  /** One entry for each of the characters. */
  ghost predicate Stats(stats: seq<CharacterStat>, freq: map<int, nat>, total: nat, chars: set<int>)
    requires total > 0 || chars == {}
  {
    && |stats| == |chars| && chars <= freq.Keys
    && (forall s <- stats :: s.character in chars && s == StatOf(freq, total, s.character))
    && (forall c <- chars :: exists i | 0 <= i < |stats| :: stats[i].character == c)
    && (forall i, j | 0 <= i < j < |stats| :: stats[i].character != stats[j].character)
  }

  /**
   The highest counts, each character once, non-increasing; no character left out has a higher count
   than one kept.
   */
  ghost predicate IsTop(top: seq<CharacterStat>, freq: map<int, nat>, total: nat)
    requires total > 0 || freq == map[]
  {
    && |top| == (if |freq| < TOP then |freq| else TOP)
    && (forall s <- top :: s.character in freq && s == StatOf(freq, total, s.character))
    && (forall i, j | 0 <= i < j < |top| :: top[i].character != top[j].character && top[i].count >= top[j].count)
    && (forall c <- freq ::
          (exists i | 0 <= i < |top| :: top[i].character == c) || forall s <- top :: s.count >= freq[c])
  }

  lemma StatsStart(freq: map<int, nat>, total: nat)
    requires total > 0 || freq == map[]
    ensures Stats([], freq, total, {})
  {}

  lemma StatsGrow(stats: seq<CharacterStat>, freq: map<int, nat>, total: nat, chars: set<int>, c: int)
    requires total > 0 && Stats(stats, freq, total, chars) && c in freq && c !in chars
    ensures Stats(stats + [StatOf(freq, total, c)], freq, total, chars + {c})
  {
    var more := stats + [StatOf(freq, total, c)];
    hide StatOf;
    assert more[|stats|].character == c by {
      StatCharacter(freq, total, c);
    }
    forall d | d in chars + {c} ensures exists i | 0 <= i < |more| :: more[i].character == d {
      if d != c {
        var i :| 0 <= i < |stats| && stats[i].character == d;
        assert more[i].character == d;
      }
    }
    forall i | 0 <= i < |stats| ensures more[i].character != c {
      assert stats[i] in stats;
    }
  }

  lemma StatCharacter(freq: map<int, nat>, total: nat, c: int)
    requires c in freq && total > 0
    ensures StatOf(freq, total, c).character == c
  {}

  lemma StatsPermuted(
    stats: seq<CharacterStat>, sorted: seq<CharacterStat>, freq: map<int, nat>, total: nat, chars: set<int>)
    requires (total > 0 || chars == {}) && Stats(stats, freq, total, chars) && multiset(stats) == multiset(sorted)
    ensures Stats(sorted, freq, total, chars)
  {
    assert |stats| == |multiset(stats)| == |sorted|;
    forall s | s in sorted ensures s in stats {
      assert s in multiset(sorted);
    }
    forall c | c in chars ensures exists i | 0 <= i < |sorted| :: sorted[i].character == c {
      var i :| 0 <= i < |stats| && stats[i].character == c;
      assert stats[i] in multiset(sorted);
      var j :| 0 <= j < |sorted| && sorted[j] == stats[i];
    }
    Distinct(stats, sorted);
  }

  lemma Distinct(stats: seq<CharacterStat>, sorted: seq<CharacterStat>)
    requires multiset(stats) == multiset(sorted)
    requires forall i, j | 0 <= i < j < |stats| :: stats[i].character != stats[j].character
    ensures forall i, j | 0 <= i < j < |sorted| :: sorted[i].character != sorted[j].character
  {
    forall i, j | 0 <= i < j < |sorted| ensures sorted[i].character != sorted[j].character {
      var x, y := sorted[i], sorted[j];
      assert x in multiset(stats) && y in multiset(stats);
      var p :| 0 <= p < |stats| && stats[p] == x;
      var q :| 0 <= q < |stats| && stats[q] == y;
      if p == q {
        TwoPlaces(sorted, i, j);
        OnceInSeq(stats, p);
      }
    }
  }

  lemma OnceInSeq<T>(s: seq<T>, p: nat)
    requires p < |s| && forall i | 0 <= i < |s| && i != p :: s[i] != s[p]
    ensures multiset(s)[s[p]] == 1
  {
    assert s == s[..p] + [s[p]] + s[p + 1..];
    assert s[p] !in s[..p] && s[p] !in s[p + 1..];
  }

  /** The first n of the sorted statistics. */
  lemma KeptAreHighest(sorted: seq<CharacterStat>, freq: map<int, nat>, total: nat, n: nat, c: int)
    requires (total > 0 || freq == map[]) && Stats(sorted, freq, total, freq.Keys) && Ordered(sorted, Highest())
    requires n <= |sorted| && c in freq
    ensures (exists i | 0 <= i < n :: sorted[..n][i].character == c) || forall s <- sorted[..n] :: s.count >= freq[c]
  {
    var i :| 0 <= i < |sorted| && sorted[i].character == c;
    assert sorted[i] in sorted && sorted[i].count == freq[c];
    if i < n {
      assert sorted[..n][i].character == c;
    } else {
      forall s | s in sorted[..n] ensures s.count >= freq[c] {
        var j :| 0 <= j < n && sorted[..n][j] == s;
        assert Highest()(sorted[j], sorted[i]);
      }
    }
  }

  lemma KeptInOrder(sorted: seq<CharacterStat>, freq: map<int, nat>, total: nat, n: nat)
    requires (total > 0 || freq == map[]) && Stats(sorted, freq, total, freq.Keys) && Ordered(sorted, Highest())
    requires n <= |sorted|
    ensures forall i, j | 0 <= i < j < n ::
      sorted[..n][i].character != sorted[..n][j].character && sorted[..n][i].count >= sorted[..n][j].count
    ensures forall s <- sorted[..n] :: s.character in freq && s == StatOf(freq, total, s.character)
    ensures |sorted| == |freq|
  {
    hide StatOf;
    assert |freq| == |freq.Keys|;
    forall i, j | 0 <= i < j < n ensures sorted[i].count >= sorted[j].count {
      assert Highest()(sorted[i], sorted[j]);
    }
    forall s | s in sorted[..n] ensures s in sorted {}
  }

  lemma TopOfSorted(sorted: seq<CharacterStat>, freq: map<int, nat>, total: nat, n: nat)
    requires (total > 0 || freq == map[]) && Stats(sorted, freq, total, freq.Keys) && Ordered(sorted, Highest())
    requires n == if |freq| < TOP then |freq| else TOP
    ensures |sorted| == |freq| && IsTop(sorted[..n], freq, total)
  {
    hide Stats, Ordered, Highest, StatOf;
    StatsSize(sorted, freq, total);
    KeptInOrder(sorted, freq, total, n);
    forall c | c in freq
      ensures (exists i | 0 <= i < n :: sorted[..n][i].character == c) || forall s <- sorted[..n] :: s.count >= freq[c]
    {
      KeptAreHighest(sorted, freq, total, n, c);
    }
  }

  lemma StatsSize(sorted: seq<CharacterStat>, freq: map<int, nat>, total: nat)
    requires (total > 0 || freq == map[]) && Stats(sorted, freq, total, freq.Keys)
    ensures |sorted| == |freq|
  {
    assert |freq| == |freq.Keys|;
  }

  lemma HighestSorts()
    ensures Preorder(Highest()) && Follows(Higher(), Highest())
  {}

  method CalculateTopCharacters(charFreq: map<int, nat>, totalChars: nat) returns (top: seq<CharacterStat>)
    requires charFreq != map[] ==> totalChars > 0
    ensures IsTop(top, charFreq, totalChars)
  {
    HighestSorts();
    hide Stats, IsTop, StatOf, Preorder, Follows, Ordered, Higher, Highest;
    var pending := charFreq.Keys;
    var stats: seq<CharacterStat> := [];
    StatsStart(charFreq, totalChars);
    assert charFreq.Keys - pending == {};
    while pending != {}
      invariant pending <= charFreq.Keys
      invariant Stats(stats, charFreq, totalChars, charFreq.Keys - pending)
      decreases pending
    {
      SomeKey(pending);
      var c :| c in pending;
      StatsGrow(stats, charFreq, totalChars, charFreq.Keys - pending, c);
      assert charFreq.Keys - pending + {c} == charFreq.Keys - (pending - {c});
      stats := stats + [StatOf(charFreq, totalChars, c)];
      pending := pending - {c};
    }
    assert charFreq.Keys - pending == charFreq.Keys;
    var slice := new CharacterStat[|stats|](i requires 0 <= i < |stats| => stats[i]);
    assert slice[..] == stats;
    InsertionSort(slice, Higher(), Highest());
    top := slice[..];
    StatsPermuted(stats, top, charFreq, totalChars, charFreq.Keys);
    TopOfSorted(top, charFreq, totalChars, if |charFreq| < TOP then |charFreq| else TOP);
    if |top| > TOP {
      top := top[..TOP];
    } else {
      assert top[..|top|] == top;
    }
  }

  // ---------- average and median

  function Total(values: seq<int>): int
  {
    if values == [] then 0 else Total(values[..|values| - 1]) + values[|values| - 1]
  }

  lemma {:induction false} TotalAppend(a: seq<int>, b: seq<int>)
    ensures Total(a + b) == Total(a) + Total(b)
    ensures forall x: int {:trigger Total([x])} :: Total([x]) == x
    decreases |b|
  {
    forall x: int ensures Total([x]) == x {
      assert [x][..0] == [];
    }
    if b == [] {
      assert a + b == a;
    } else {
      assert (a + b)[..|a + b| - 1] == a + b[..|b| - 1];
      TotalAppend(a, b[..|b| - 1]);
    }
  }

  method CalculateAverage(values: seq<int>) returns (average: real)
    ensures if values == [] then average == 0.0 else average * |values| as real == Total(values) as real
  {
    if |values| == 0 {
      return 0.0;
    }
    var sum := 0;
    for i := 0 to |values|
      invariant sum == Total(values[..i])
    {
      assert values[..i + 1][..i] == values[..i];
      sum := sum + values[i];
    }
    assert values[..|values|] == values;
    average := sum as real / |values| as real;
  }

  function AtMost(): (int, int) -> bool
  {
    (x, y) => x <= y
  }

  function Below(): (int, int) -> bool
  {
    (x, y) => x < y
  }

  /** Go's division by two truncates toward zero. */
  function Half(x: int): int
  {
    if x >= 0 then x / 2 else -(-x / 2)
  }

  function Middle(s: seq<int>): int
    requires s != []
  {
    var mid := |s| / 2;
    if |s| % 2 == 0 then Half(s[mid - 1] + s[mid]) else s[mid]
  }

  /** m is the middle of the values in order. */
  ghost predicate IsMedian(values: seq<int>, m: int)
  {
    exists s: seq<int> ::
      multiset(s) == multiset(values) && Ordered(s, AtMost()) && s != [] && m == Middle(s)
  }

  method CalculateMedian(values: seq<int>) returns (median: int)
    ensures if values == [] then median == 0 else IsMedian(values, median)
    ensures values != [] ==> exists s: seq<int> ::
      && multiset(s) == multiset(values) && |s| == |values| && (forall i, j | 0 <= i < j < |s| :: s[i] <= s[j])
      && (if |s| % 2 == 1 then median == s[|s| / 2]
          else var sum := s[|s| / 2 - 1] + s[|s| / 2]; median == if sum >= 0 then sum / 2 else -(-sum / 2))
  {
    if |values| == 0 {
      return 0;
    }
    var sorted := new int[|values|](i requires 0 <= i < |values| => values[i]);
    assert sorted[..] == values;
    InsertionSort(sorted, Below(), AtMost());
    ghost var s := sorted[..];
    assert |s| == |multiset(s)| == |values|;
    var mid := sorted.Length / 2;
    if sorted.Length % 2 == 0 {
      median := Half(sorted[mid - 1] + sorted[mid]);
    } else {
      median := sorted[mid];
    }
    assert median == Middle(s);
    assert forall i, j | 0 <= i < j < |s| :: AtMost()(s[i], s[j]);
  }

  lemma AtMostIsOrder()
    ensures Preorder(AtMost()) && Antisymmetric(AtMost())
  {}

  lemma SameElements<T>(s: seq<T>, t: seq<T>, x: T)
    requires multiset(s) == multiset(t) && x in s
    ensures x in t
  {
    assert x in multiset(s);
  }

  /** There is one median, whatever the sort does with equal values. */
  lemma MedianUnique(values: seq<int>, m: int, m': int)
    requires IsMedian(values, m) && IsMedian(values, m')
    ensures m == m'
  {
    var s: seq<int> :| multiset(s) == multiset(values) && Ordered(s, AtMost()) && s != [] && m == Middle(s);
    var t: seq<int> :| multiset(t) == multiset(values) && Ordered(t, AtMost()) && t != [] && m' == Middle(t);
    AtMostIsOrder();
    hide Preorder, Antisymmetric, Ordered, Middle, AtMost;
    OrderedUnique(s, t, AtMost());
  }

  /** The values do not all lie on one side of it. */
  lemma MedianBetween(values: seq<int>, m: int)
    requires IsMedian(values, m)
    ensures exists i, j | 0 <= i < |values| && 0 <= j < |values| :: values[i] <= m <= values[j]
  {
    var s: seq<int> :| multiset(s) == multiset(values) && Ordered(s, AtMost()) && s != [] && m == Middle(s);
    MiddleBetween(s);
    hide Ordered, Middle, AtMost;
    SameElements(s, values, s[0]);
    SameElements(s, values, s[|s| - 1]);
  }

  lemma MiddleBetween(s: seq<int>)
    requires s != [] && Ordered(s, AtMost())
    ensures s[0] <= Middle(s) <= s[|s| - 1]
  {
    var mid := |s| / 2;
    assert mid > 0 ==> AtMost()(s[0], s[mid]);
    assert mid < |s| - 1 ==> AtMost()(s[mid], s[|s| - 1]);
    if |s| % 2 == 0 {
      assert AtMost()(s[mid - 1], s[mid]);
      assert mid - 1 > 0 ==> AtMost()(s[0], s[mid - 1]);
    }
  }

  // ---------- the whole analysis

  method CalculateTimeDistribution(posts: seq<Post>) returns (distribution: map<Period, nat>)
    ensures distribution == Tally(multiset(Periods(posts)))
  {
    distribution := map[];
    EmptyTally<Period>();
    hide Tally, Inc;
    for i := 0 to |posts|
      invariant distribution == Tally(multiset(Periods(posts)[..i]))
    {
      var period := PeriodOf(posts[i].createdAt.hour);
      TallyNext(Periods(posts)[..i], period);
      assert Periods(posts)[..i + 1] == Periods(posts)[..i] + [period];
      distribution := Inc(distribution, period);
    }
    assert Periods(posts)[..|posts|] == Periods(posts);
  }

  /** Counts the runes of one text on top of those already counted. */
  method CountText(text: Bytes, freq: map<int, nat>, total: nat, ghost before: seq<int>)
    returns (freq': map<int, nat>, total': nat)
    requires freq == Tally(multiset(before)) && total == |before|
    ensures freq' == Tally(multiset(before + Runes(text))) && total' == |before + Runes(text)|
  {
    hide Tally, Inc, Runes, Decode, Width;
    freq', total' := freq, total;
    var rest := text;
    ghost var seen: seq<int> := [];
    assert before + [] == before;
    while rest != []
      invariant seen + Runes(rest) == Runes(text)
      invariant freq' == Tally(multiset(before + seen)) && total' == |before| + |seen|
      decreases |rest|
    {
      var ch := Decode(rest);
      TallyNext(before + seen, ch);
      RunesOfFirst(rest);
      assert before + seen + [ch] == before + (seen + [ch]);
      freq' := Inc(freq', ch);
      total' := total' + 1;
      seen := seen + [ch];
      rest := rest[Width(rest)..];
    }
    assert seen + Runes(rest) == seen;
  }

  /** The result of analysing posts. */
  ghost predicate IsAnalysis(posts: seq<Post>, r: Result)
  {
    && r.totalPosts == |posts|
    && r.charFrequency == Tally(multiset(Texts(posts))) && r.totalCharacters == |Texts(posts)|
    && r.uniqueChars == |r.charFrequency|
    && (r.totalCharacters > 0 || r.charFrequency == map[])
    && IsTop(r.topCharacters, r.charFrequency, r.totalCharacters)
    && r.postsPerUser == Tally(multiset(Users(posts)))
    && r.timeDistribution == Tally(multiset(Periods(posts)))
    && (if posts == [] then r.average == 0.0 else r.average * |posts| as real == Total(Lengths(posts)) as real)
    && (if posts == [] then r.median == 0 else IsMedian(Lengths(posts), r.median))
  }

  /** What the loop has counted when it has seen the posts in seen. */
  ghost predicate Counted(seen: seq<Post>, freq: map<int, nat>, total: nat, users: map<int, nat>, lengths: seq<int>)
  {
    && freq == Tally(multiset(Texts(seen))) && total == |Texts(seen)|
    && users == Tally(multiset(Users(seen)))
    && lengths == Lengths(seen)
  }

  lemma CountedNone()
    ensures Counted([], map[], 0, map[], [])
  {
    EmptyTally<int>();
  }

  lemma {:induction false} CountedMore(
    seen: seq<Post>, freq: map<int, nat>, total: nat, users: map<int, nat>, lengths: seq<int>, p: Post,
    freq': map<int, nat>, total': nat)
    requires Counted(seen, freq, total, users, lengths)
    requires freq' == Tally(multiset(Texts(seen) + Runes(Text(p)))) && total' == |Texts(seen) + Runes(Text(p))|
    ensures Counted(seen + [p], freq', total', Inc(users, p.userId), lengths + [|Text(p)|])
  {
    hide Tally, Inc, Runes, Text;
    assert (seen + [p])[..|seen|] == seen;
    TallyNext(Users(seen), p.userId);
    assert Users(seen + [p]) == Users(seen) + [p.userId];
    assert Lengths(seen + [p]) == Lengths(seen) + [|Text(p)|];
  }

  method Analyze(posts: seq<Post>) returns (r: Result)
    ensures IsAnalysis(posts, r)
  {
    hide Tally, Inc, Runes, IsTop, IsMedian, Counted, Text;
    var charFrequency: map<int, nat>, totalChars: nat, postsPerUser: map<int, nat> := map[], 0, map[];
    var postLengths: seq<int> := [];
    CountedNone();
    for i := 0 to |posts|
      invariant Counted(posts[..i], charFrequency, totalChars, postsPerUser, postLengths)
    {
      var text := Text(posts[i]);
      CountedParts(posts[..i], charFrequency, totalChars, postsPerUser, postLengths);
      var freq, total := CountText(text, charFrequency, totalChars, Texts(posts[..i]));
      CountedMore(posts[..i], charFrequency, totalChars, postsPerUser, postLengths, posts[i], freq, total);
      assert posts[..i + 1] == posts[..i] + [posts[i]];
      charFrequency, totalChars := freq, total;
      postsPerUser := Inc(postsPerUser, posts[i].userId);
      postLengths := postLengths + [|text|];
    }
    assert posts[..|posts|] == posts;
    CountedParts(posts, charFrequency, totalChars, postsPerUser, postLengths);
    NothingCounted(Texts(posts));
    var top := CalculateTopCharacters(charFrequency, totalChars);
    var average := CalculateAverage(postLengths);
    var median := CalculateMedian(postLengths);
    var distribution := CalculateTimeDistribution(posts);
    r := Result(|posts|, totalChars, |charFrequency|, charFrequency, top, average, median, postsPerUser, distribution);
  }

  lemma {:induction false} CountedParts(
    seen: seq<Post>, freq: map<int, nat>, total: nat, users: map<int, nat>, lengths: seq<int>)
    requires Counted(seen, freq, total, users, lengths)
    ensures freq == Tally(multiset(Texts(seen))) && total == |Texts(seen)|
    ensures users == Tally(multiset(Users(seen))) && lengths == Lengths(seen)
  {}

  lemma NothingCounted(s: seq<int>)
    ensures |s| > 0 || Tally(multiset(s)) == map[]
  {
    if s == [] {
      EmptyTally<int>();
    }
  }

  /** The three families of counts add up, and every listed character survives the trip as a string. */
  lemma AnalysisAddsUp(posts: seq<Post>, r: Result)
    requires IsAnalysis(posts, r)
    ensures Sum(r.charFrequency, r.charFrequency.Keys) == r.totalCharacters
    ensures Sum(r.postsPerUser, r.postsPerUser.Keys) == r.totalPosts
    ensures Sum(r.timeDistribution, r.timeDistribution.Keys) == r.totalPosts
    ensures forall s <- r.topCharacters :: Runes(Encode(s.character)) == [s.character]
  {
    hide Runes, Encode, Sum, IsMedian;
    TallySums(multiset(Texts(posts)), r.charFrequency.Keys);
    TallySums(multiset(Users(posts)), r.postsPerUser.Keys);
    TallySums(multiset(Periods(posts)), r.timeDistribution.Keys);
    forall s | s in r.topCharacters ensures Runes(Encode(s.character)) == [s.character] {
      assert s.character in multiset(Texts(posts));
      InSomeText(posts, s.character);
    }
  }

  lemma {:induction false} InSomeText(posts: seq<Post>, c: int)
    requires c in Texts(posts)
    ensures Runes(Encode(c)) == [c]
  {
    hide Runes, Encode;
    if posts != [] {
      var last := posts[|posts| - 1];
      if c in Runes(Text(last)) {
        CountedRuneSurvives(Text(last), c);
      } else {
        InSomeText(posts[..|posts| - 1], c);
      }
    }
  }

  lemma {:induction false} TextsAreScalar(posts: seq<Post>)
    ensures forall c <- Texts(posts) :: Scalar(c)
  {
    if posts != [] {
      hide Runes, Text, Scalar;
      TextsAreScalar(posts[..|posts| - 1]);
      RunesAreScalar(Text(posts[|posts| - 1]));
    }
  }

  /** There are no more different characters than code points. */
  lemma FewCharacters(posts: seq<Post>, r: Result)
    requires IsAnalysis(posts, r)
    ensures r.uniqueChars <= 0x11_0000
  {
    hide IsTop, IsMedian, Runes;
    TextsAreScalar(posts);
    forall k | k in r.charFrequency.Keys ensures 0 <= k < 0x11_0000 {
      assert k in multiset(Texts(posts)) && Scalar(k);
    }
    KeysBelow(0x11_0000, r.charFrequency.Keys);
    assert |r.charFrequency| == |r.charFrequency.Keys|;
  }

  lemma MedianNotNegative(posts: seq<Post>, r: Result)
    requires IsAnalysis(posts, r)
    ensures r.median >= 0
  {
    hide IsTop, IsMedian;
    if posts != [] {
      MedianBetween(Lengths(posts), r.median);
    }
  }

  /** The characters counted are those of the titles and bodies, and one blank for each post. */
  lemma {:induction false} TextsMore(posts: seq<Post>, p: Post)
    ensures Texts([]) == [] && Texts(posts + [p]) == Texts(posts) + (Runes(p.title) + [0x20] + Runes(p.body))
  {
    TextIs(p);
    assert (posts + [p])[..|posts|] == posts;
  }

  lemma AnalysisParts(posts: seq<Post>, r: Result)
    requires IsAnalysis(posts, r)
    ensures r.postsPerUser == Tally(multiset(Users(posts))) && r.timeDistribution == Tally(multiset(Periods(posts)))
    ensures posts != [] ==> r.average * |posts| as real == Total(Lengths(posts)) as real
  {
    hide Tally, IsTop, IsMedian, Texts;
  }

  lemma FrequencyIs(freq: map<int, nat>, total: nat, s: CharacterStat)
    requires s.character in freq && total > 0 && s == StatOf(freq, total, s.character)
    ensures s.count == freq[s.character]
    ensures s.frequency * total as real == s.count as real * 100.0
  {
    Percentage(s.count as real, total as real);
  }

  lemma Percentage(n: real, t: real)
    requires t > 0.0
    ensures n / t * 100.0 * t == n * 100.0
  {
    assert n / t * t == n;
    assert n / t * 100.0 * t == n / t * t * 100.0;
  }

  lemma UsersAre(posts: seq<Post>, r: Result)
    requires r.postsPerUser == Tally(multiset(Users(posts)))
    ensures forall u :: u in r.postsPerUser <==> exists i | 0 <= i < |posts| :: posts[i].userId == u
    ensures forall u <- r.postsPerUser :: r.postsPerUser[u] == |set i | 0 <= i < |posts| && posts[i].userId == u|
  {
    hide Tally;
    forall u ensures u in r.postsPerUser <==> exists i | 0 <= i < |posts| :: posts[i].userId == u {
      TallyAt(Users(posts), u);
      if i :| 0 <= i < |posts| && posts[i].userId == u {
        assert Users(posts)[i] == u;
      }
    }
    forall u | u in r.postsPerUser
      ensures r.postsPerUser[u] == |set i | 0 <= i < |posts| && posts[i].userId == u|
    {
      var us := Users(posts);
      TallyAt(us, u);
      assert Places(us, u) == set i | 0 <= i < |posts| && posts[i].userId == u;
    }
  }

  lemma PeriodsAre(posts: seq<Post>, r: Result)
    requires r.timeDistribution == Tally(multiset(Periods(posts)))
    ensures forall p <- r.timeDistribution ::
      r.timeDistribution[p] == |set i | 0 <= i < |posts| && PeriodOf(posts[i].createdAt.hour) == p|
  {
    hide Tally;
    forall p | p in r.timeDistribution
      ensures r.timeDistribution[p] == |set i | 0 <= i < |posts| && PeriodOf(posts[i].createdAt.hour) == p|
    {
      var ps := Periods(posts);
      TallyAt(ps, p);
      assert Places(ps, p) == set i | 0 <= i < |posts| && PeriodOf(posts[i].createdAt.hour) == p;
    }
  }

  /** What the numbers of an analysis are, in the fields of the posts. */
  lemma AnalysisIs(posts: seq<Post>, r: Result)
    requires IsAnalysis(posts, r)
    ensures forall u :: u in r.postsPerUser <==> exists i | 0 <= i < |posts| :: posts[i].userId == u
    ensures forall u <- r.postsPerUser :: r.postsPerUser[u] == |set i | 0 <= i < |posts| && posts[i].userId == u|
    ensures forall p <- r.timeDistribution ::
      r.timeDistribution[p] == |set i | 0 <= i < |posts| && PeriodOf(posts[i].createdAt.hour) == p|
    ensures posts != [] ==> r.average * |posts| as real == Total(Lengths(posts)) as real
    ensures forall i | 0 <= i < |posts| :: Lengths(posts)[i] == |posts[i].title| + 1 + |posts[i].body|
  {
    AnalysisParts(posts, r);
    hide IsAnalysis, Tally;
    UsersAre(posts, r);
    PeriodsAre(posts, r);
  }

  /** A top character is listed with its count and the percentage that count is of all characters. */
  lemma TopCharacterIs(posts: seq<Post>, r: Result, s: CharacterStat)
    requires IsAnalysis(posts, r) && s in r.topCharacters
    ensures s.character in r.charFrequency && s.count == r.charFrequency[s.character]
    ensures s.frequency * r.totalCharacters as real == s.count as real * 100.0
  {
    hide *;
    TopIsStat(posts, r, s);
    FrequencyIs(r.charFrequency, r.totalCharacters, s);
  }

  lemma TopIsStat(posts: seq<Post>, r: Result, s: CharacterStat)
    requires IsAnalysis(posts, r) && s in r.topCharacters
    ensures r.totalCharacters > 0 && s.character in r.charFrequency
    ensures s == StatOf(r.charFrequency, r.totalCharacters, s.character)
  {
    hide Tally, IsMedian, Texts, StatOf;
  }
}
