/** AnalyzePosts through the RPC server and client: the answer as bytes, its casts and what they change. */
module AnalysisOverWire {
  import opened Binary
  import opened Wire
  import opened Message
  import opened Options
  import opened Writing
  import opened Schemas
  import opened Arriving
  import opened Transport
  import opened Counting
  import opened Utf8
  import opened Posts
  import opened Analytics

  datatype TopStat = TopStat(character: int, count: int, frequency: real)

  /** models.AnalyticsResult but for CharFrequency, which the message has no field for. */
  datatype Answer = Answer(
    totalPosts: int, totalCharacters: int, uniqueChars: int, top: seq<TopStat>, average: real, median: int,
    postsPerUser: map<int, int>, timeDistribution: map<Bytes, int>)

  function PeriodName(p: Period): (s: Bytes)
    ensures |s| < MAX_SIZE
  {
    match p
    case Night => Ascii("night")
    case Morning => Ascii("morning")
    case Afternoon => Ascii("afternoon")
    case Evening => Ascii("evening")
  }

  lemma PeriodNamesDiffer(p: Period, q: Period)
    requires PeriodName(p) == PeriodName(q)
    ensures p == q
  {
    assert Ascii("night")[0] == 110 && Ascii("morning")[0] == 109;
    assert Ascii("afternoon")[0] == 97 && Ascii("evening")[0] == 101;
  }

  /** A map of counts under the names of its periods. */
  function Named(m: map<Period, nat>): map<Bytes, int>
  {
    assert forall p, q | PeriodName(p) == PeriodName(q) :: p == q by {
      forall p, q | PeriodName(p) == PeriodName(q) ensures p == q { PeriodNamesDiffer(p, q); }
    }
    map p | p in m :: PeriodName(p) := m[p]
  }

  function Report(r: Result): Answer
  {
    Answer(r.totalPosts, r.totalCharacters, r.uniqueChars,
      seq(|r.topCharacters|, i requires 0 <= i < |r.topCharacters| =>
        var s := r.topCharacters[i]; TopStat(s.character, s.count, s.frequency)),
      r.average, r.median, map u | u in r.postsPerUser :: r.postsPerUser[u], Named(r.timeDistribution))
  }

  lemma NamedAt(m: map<Period, nat>, p: Period)
    requires p in m
    ensures PeriodName(p) in Named(m) && Named(m)[PeriodName(p)] == m[p]
  {
    forall q | PeriodName(q) == PeriodName(p) ensures q == p {
      PeriodNamesDiffer(q, p);
    }
  }

  /** What the service reports, number by number. */
  lemma ReportIs(r: Result)
    ensures var a := Report(r);
      && a.totalPosts == r.totalPosts && a.totalCharacters == r.totalCharacters && a.uniqueChars == r.uniqueChars
      && a.average == r.average && a.median == r.median && a.postsPerUser.Keys == r.postsPerUser.Keys
      && (forall u <- r.postsPerUser :: a.postsPerUser[u] == r.postsPerUser[u])
      && |a.top| == |r.topCharacters|
      && (forall i | 0 <= i < |a.top| ::
            a.top[i] == TopStat(r.topCharacters[i].character, r.topCharacters[i].count, r.topCharacters[i].frequency))
    ensures forall p <- r.timeDistribution ::
      var name := match p case Night => "night" case Morning => "morning" case Afternoon => "afternoon"
        case Evening => "evening";
      Ascii(name) in Report(r).timeDistribution && Report(r).timeDistribution[Ascii(name)] == r.timeDistribution[p]
  {
    forall p | p in r.timeDistribution
      ensures PeriodName(p) in Named(r.timeDistribution)
        && Named(r.timeDistribution)[PeriodName(p)] == r.timeDistribution[p]
    {
      NamedAt(r.timeDistribution, p);
    }
    hide Ascii, Named;
  }

  // ---------- the message

  /** bits is math.Float64bits of the nearest double. */
  function StatFields(s: TopStat, bits: real -> int): map<int, Val>
  {
    map[1 := VStr(Encode(s.character)), 2 := VInt(s.count), 3 := VDouble(bits(s.frequency))]
  }

  function TopVals(top: seq<TopStat>, bits: real -> int): (xs: seq<Val>)
    ensures |xs| == |top|
  {
    seq(|top|, i requires 0 <= i < |top| => VStruct(StatFields(top[i], bits)))
  }

  function UserVals(m: map<int, int>): map<Val, Val>
  {
    map u | u in m :: VInt(u) := VInt(ToInt32(m[u]))
  }

  function PeriodVals(m: map<Bytes, int>): map<Val, Val>
  {
    map s | s in m :: VStr(s) := VInt(ToInt32(m[s]))
  }

  function StatsFields(a: Answer, bits: real -> int): map<int, Val>
  {
    map[1 := VDouble(bits(a.average)), 2 := VInt(ToInt32(a.median)), 3 := VMap(UserVals(a.postsPerUser)),
        4 := VMap(PeriodVals(a.timeDistribution))]
  }

  function AnalyzeResponse(a: Answer, bits: real -> int): map<int, Val>
  {
    map[1 := VInt(ToInt32(a.totalPosts)), 2 := VInt(a.totalCharacters), 3 := VInt(ToInt32(a.uniqueChars)),
        4 := VList(TopVals(a.top, bits)), 5 := VStruct(StatsFields(a, bits)), 255 := OK_RESP]
  }

  /** The numbers of the answer's fields. */
  lemma AnswerFieldsAre(a: Answer, bits: real -> int)
    ensures var f := AnalyzeResponse(a, bits);
      && f.Keys == {1, 2, 3, 4, 5, 255} && f[1] == VInt(ToInt32(a.totalPosts)) && f[2] == VInt(a.totalCharacters)
      && f[3] == VInt(ToInt32(a.uniqueChars)) && f[4].VList? && |f[4].xs| == |a.top|
      && (forall i | 0 <= i < |a.top| ::
            f[4].xs[i] == VStruct(map[1 := VStr(Encode(a.top[i].character)), 2 := VInt(a.top[i].count),
                                      3 := VDouble(bits(a.top[i].frequency))]))
      && f[5].VStruct? && f[5].f.Keys == {1, 2, 3, 4} && f[5].f[1] == VDouble(bits(a.average))
      && f[5].f[2] == VInt(ToInt32(a.median))
  {
    hide Encode, ToInt32, UserVals, PeriodVals, OK_RESP;
  }

  // ---------- what the client makes of it

  predicate IsStat(v: Val)
  {
    v.VStruct? && {1, 2, 3} <= v.f.Keys && v.f[1].VStr? && v.f[2].VInt? && v.f[3].VDouble?
  }

  /** The first rune of the string, 0 for none; float is math.Float64frombits. */
  function StatBack(v: Val, float: int -> real): TopStat
    requires IsStat(v)
  {
    var runes := Runes(v.f[1].s);
    TopStat(if runes == [] then 0 else runes[0], v.f[2].i, float(v.f[3].bits))
  }

  predicate IsStats(v: Val)
  {
    && v.VStruct? && {1, 2, 3, 4} <= v.f.Keys && v.f[1].VDouble? && v.f[2].VInt? && v.f[3].VMap? && v.f[4].VMap?
    && (forall k <- v.f[3].m :: k.VInt? && v.f[3].m[k].VInt?)
    && (forall k <- v.f[4].m :: k.VStr? && v.f[4].m[k].VInt?)
  }

  predicate IsAnswer(f: map<int, Val>)
  {
    && {1, 2, 3, 4, 5, 255} <= f.Keys && f[1].VInt? && f[2].VInt? && f[3].VInt?
    && f[4].VList? && (forall x <- f[4].xs :: IsStat(x))
    && IsStats(f[5]) && IsBaseResp(f[255])
  }

  function UsersBack(m: map<Val, Val>): map<int, int>
    requires forall k <- m :: k.VInt? && m[k].VInt?
  {
    map k | k in m :: k.i := m[k].i
  }

  function PeriodsBack(m: map<Val, Val>): map<Bytes, int>
    requires forall k <- m :: k.VStr? && m[k].VInt?
  {
    map k | k in m :: k.s := m[k].i
  }

  function AnswerOf(f: map<int, Val>, float: int -> real): Answer
    requires IsAnswer(f)
  {
    Answer(f[1].i, f[2].i, f[3].i,
      seq(|f[4].xs|, i requires 0 <= i < |f[4].xs| => StatBack(f[4].xs[i], float)),
      float(f[5].f[1].bits), f[5].f[2].i, UsersBack(f[5].f[3].m), PeriodsBack(f[5].f[4].m))
  }

  // ---------- what arrives

  function ReceivedStat(s: TopStat, bits: real -> int, float: int -> real): TopStat
  {
    TopStat(Decode(Encode(s.character)), s.count, float(bits(s.frequency)))
  }

  /** All counts but the number of characters and those of the top characters are cast to 32 bits. */
  function Received(a: Answer, bits: real -> int, float: int -> real): Answer
  {
    Answer(ToInt32(a.totalPosts), a.totalCharacters, ToInt32(a.uniqueChars),
      seq(|a.top|, i requires 0 <= i < |a.top| => ReceivedStat(a.top[i], bits, float)),
      float(bits(a.average)), ToInt32(a.median),
      map u | u in a.postsPerUser :: ToInt32(a.postsPerUser[u]),
      map s | s in a.timeDistribution :: ToInt32(a.timeDistribution[s]))
  }

  predicate SendableAnswer(a: Answer)
  {
    && Fits(a.totalCharacters, 8) && |a.top| < MAX_SIZE && (forall s <- a.top :: Fits(s.count, 8))
    && |a.postsPerUser| < MAX_SIZE && (forall u <- a.postsPerUser :: Fits(u, 8))
    && |a.timeDistribution| < MAX_SIZE && (forall s <- a.timeDistribution :: |s| < MAX_SIZE)
  }

  // ---------- field by field

  lemma DoubleArrives(id: int, b: int)
    requires Fits(b, 8)
    ensures Arrives(Req(id, FLOAT), VDouble(b), VDouble(b))
  {}

  lemma StatIds()
    ensures |CHARACTER_STAT| == 3 && Ids(CHARACTER_STAT) == {1, 2, 3}
    ensures CHARACTER_STAT[0] == Req(2, INT64) && CHARACTER_STAT[1] == Req(3, FLOAT) && CHARACTER_STAT[2] == Req(1, STR)
  {}

  lemma StatArrives(s: TopStat, bits: real -> int)
    requires Fits(s.count, 8) && Fits(bits(s.frequency), 8)
    ensures var v := VStruct(StatFields(s, bits));
      (HasType(TStruct(CHARACTER_STAT), v) && Norm(TStruct(CHARACTER_STAT), v) == v)
  {
    StatIds();
    StringArrives(1, Encode(s.character));
    NumbersArrive(2, s.count);
    DoubleArrives(3, bits(s.frequency));
    StatsSchemasValid();
    hide Arrives, CHARACTER_STAT, Ids, ValidSchema, Fits, Encode;
    assert AllArrive(CHARACTER_STAT, StatFields(s, bits), StatFields(s, bits));
    StructArrives(Req(0, TStruct(CHARACTER_STAT)), CHARACTER_STAT, StatFields(s, bits), StatFields(s, bits));
  }

  lemma TopArrives(top: seq<TopStat>, bits: real -> int)
    requires |top| < MAX_SIZE && (forall s <- top :: Fits(s.count, 8)) && forall x :: Fits(bits(x), 8)
    ensures var v := VList(TopVals(top, bits)); Arrives(Req(4, TList(TStruct(CHARACTER_STAT))), v, v)
  {
    hide HasType, Norm, Arrives, CHARACTER_STAT, Fits;
    var xs := TopVals(top, bits);
    forall x | x in xs ensures HasType(TStruct(CHARACTER_STAT), x) && Norm(TStruct(CHARACTER_STAT), x) == x {
      var i :| 0 <= i < |xs| && xs[i] == x;
      StatArrives(top[i], bits);
    }
    ListArrives(Req(4, TList(TStruct(CHARACTER_STAT))), TStruct(CHARACTER_STAT), xs);
  }

  lemma UsersArrive(m: map<int, int>)
    requires |m| < MAX_SIZE && forall u <- m :: Fits(u, 8)
    ensures Arrives(Req(3, TMap(SI64, SI32)), VMap(UserVals(m)), VMap(UserVals(m)))
  {
    Widths();
    SameSize(m, UserVals(m), (u: int) => VInt(u));
    ValueArrives(Req(3, TMap(SI64, SI32)), VMap(UserVals(m)));
  }

  lemma PeriodValsTyped(m: map<Bytes, int>)
    requires forall s <- m :: |s| < MAX_SIZE
    ensures forall x <- PeriodVals(m) :: HasScalar(SStr, x) && HasScalar(SI32, PeriodVals(m)[x])
  {
    Widths();
    hide ToInt32;
  }

  lemma PeriodsArrive(m: map<Bytes, int>)
    requires |m| < MAX_SIZE && forall s <- m :: |s| < MAX_SIZE
    ensures Arrives(Req(4, TMap(SStr, SI32)), VMap(PeriodVals(m)), VMap(PeriodVals(m)))
  {
    assert |PeriodVals(m)| == |m| by {
      SameSize(m, PeriodVals(m), (s: Bytes) => VStr(s));
    }
    PeriodValsTyped(m);
    hide PeriodVals, HasScalar;
    ValueArrives(Req(4, TMap(SStr, SI32)), VMap(PeriodVals(m)));
  }

  /** Renaming the keys of a map one to one keeps its size. */
  lemma {:induction false} SameSize<K, V, W>(m: map<K, V>, n: map<Val, W>, name: K -> Val)
    requires forall x, y | name(x) == name(y) :: x == y
    requires n.Keys == set x | x in m :: name(x)
    ensures |n| == |m|
    decreases |m|
  {
    if m.Keys == {} {
      assert n.Keys == {};
    } else {
      var x :| x in m;
      var m', n' := m - {x}, n - {name(x)};
      assert m'.Keys == m.Keys - {x} && n'.Keys == n.Keys - {name(x)};
      assert |m'.Keys| == |m'| && |n'.Keys| == |n'| && |m.Keys| == |m| && |n.Keys| == |n|;
      SameSize(m', n', name);
    }
  }

  lemma StatsIds()
    ensures |ANALYTICS_STATS| == 4 && Ids(ANALYTICS_STATS) == {1, 2, 3, 4}
    ensures ANALYTICS_STATS[0] == Req(1, FLOAT) && ANALYTICS_STATS[1] == Req(2, INT32)
    ensures ANALYTICS_STATS[2] == Req(3, TMap(SI64, SI32)) && ANALYTICS_STATS[3] == Req(4, TMap(SStr, SI32))
  {}

  lemma StatsArrive(a: Answer, bits: real -> int)
    requires SendableAnswer(a) && forall x :: Fits(bits(x), 8)
    ensures var v := VStruct(StatsFields(a, bits)); Arrives(Req(5, TStruct(ANALYTICS_STATS)), v, v)
  {
    hide Arrives, UserVals, PeriodVals, ToInt32, ANALYTICS_STATS, Fits;
    DoubleArrives(1, bits(a.average));
    CastArrives(2, a.median);
    UsersArrive(a.postsPerUser);
    PeriodsArrive(a.timeDistribution);
    StatsPartsArrive(StatsFields(a, bits));
  }

  lemma StatsPartsArrive(f: map<int, Val>)
    requires f.Keys == {1, 2, 3, 4} && Arrives(Req(1, FLOAT), f[1], f[1]) && Arrives(Req(2, INT32), f[2], f[2])
    requires Arrives(Req(3, TMap(SI64, SI32)), f[3], f[3]) && Arrives(Req(4, TMap(SStr, SI32)), f[4], f[4])
    ensures Arrives(Req(5, TStruct(ANALYTICS_STATS)), VStruct(f), VStruct(f))
  {
    hide Arrives, ANALYTICS_STATS, Ids, ValidSchema;
    StatsIds();
    StatsSchemasValid();
    assert AllArrive(ANALYTICS_STATS, f, f);
    StructArrives(Req(5, TStruct(ANALYTICS_STATS)), ANALYTICS_STATS, f, f);
  }

  lemma CastArrives(id: int, x: int)
    ensures Arrives(Req(id, INT32), VInt(ToInt32(x)), VInt(ToInt32(x)))
  {
    Widths();
    NumbersArrive(id, ToInt32(x));
  }

  lemma AnswerIds()
    ensures |ANALYZE_POSTS_RESPONSE| == 6 && Ids(ANALYZE_POSTS_RESPONSE) == {1, 2, 3, 4, 5, 255}
    ensures ANALYZE_POSTS_RESPONSE[0] == Req(1, INT32) && ANALYZE_POSTS_RESPONSE[1] == Req(2, INT64)
    ensures ANALYZE_POSTS_RESPONSE[2] == Req(3, INT32)
    ensures ANALYZE_POSTS_RESPONSE[3] == Req(4, TList(TStruct(CHARACTER_STAT)))
    ensures ANALYZE_POSTS_RESPONSE[4] == Req(5, TStruct(ANALYTICS_STATS))
    ensures ANALYZE_POSTS_RESPONSE[5] == Req(255, TStruct(BASE_RESP))
  {
    var sch := ANALYZE_POSTS_RESPONSE;
    assert sch[0].id == 1 && sch[1].id == 2 && sch[2].id == 3 && sch[3].id == 4 && sch[4].id == 5 && sch[5].id == 255;
  }

  lemma AnswerFieldsArrive(a: Answer, bits: real -> int)
    requires SendableAnswer(a) && forall x :: Fits(bits(x), 8)
    ensures AllArrive(ANALYZE_POSTS_RESPONSE, AnalyzeResponse(a, bits), AnalyzeResponse(a, bits))
  {
    hide HasType, Normal, Arrives, BASE_RESP, CHARACTER_STAT, ANALYTICS_STATS, ANALYZE_POSTS_RESPONSE, OK_RESP, TopVals,
      StatsFields, ToInt32, Fits;
    CastArrives(1, a.totalPosts);
    NumbersArrive(2, a.totalCharacters);
    CastArrives(3, a.uniqueChars);
    TopArrives(a.top, bits);
    StatsArrive(a, bits);
    ErrRespTyped(Other([]));
    ValueArrives(Req(255, TStruct(BASE_RESP)), OK_RESP);
    AnswerPartsArrive(AnalyzeResponse(a, bits));
  }

  lemma AnswerPartsArrive(f: map<int, Val>)
    requires f.Keys == {1, 2, 3, 4, 5, 255}
    requires Arrives(Req(1, INT32), f[1], f[1]) && Arrives(Req(2, INT64), f[2], f[2])
    requires Arrives(Req(3, INT32), f[3], f[3]) && Arrives(Req(4, TList(TStruct(CHARACTER_STAT))), f[4], f[4])
    requires Arrives(Req(5, TStruct(ANALYTICS_STATS)), f[5], f[5])
    requires Arrives(Req(255, TStruct(BASE_RESP)), f[255], f[255])
    ensures AllArrive(ANALYZE_POSTS_RESPONSE, f, f)
  {
    hide Arrives, BASE_RESP, CHARACTER_STAT, ANALYTICS_STATS, ANALYZE_POSTS_RESPONSE, Ids;
    AnswerIds();
  }

  // ---------- and back

  lemma StatReturns(s: TopStat, bits: real -> int, float: int -> real)
    ensures var v := VStruct(StatFields(s, bits)); IsStat(v) && StatBack(v, float) == ReceivedStat(s, bits, float)
  {
    assert Runes(Encode(s.character)) != [];
  }

  lemma UserValsAre(m: map<int, int>)
    ensures forall k <- UserVals(m) :: k.VInt? && k.i in m && UserVals(m)[k] == VInt(ToInt32(m[k.i]))
    ensures forall u <- m :: VInt(u) in UserVals(m)
  {
    hide ToInt32;
  }

  lemma UsersReturn(m: map<int, int>)
    ensures forall k <- UserVals(m) :: k.VInt? && UserVals(m)[k].VInt?
    ensures UsersBack(UserVals(m)) == map u | u in m :: ToInt32(m[u])
  {
    UserValsAre(m);
    hide ToInt32, UserVals;
    forall u | u in m ensures u in UsersBack(UserVals(m)) {
      assert VInt(u) in UserVals(m);
    }
  }

  lemma PeriodValsAre(m: map<Bytes, int>)
    ensures forall k <- PeriodVals(m) :: k.VStr? && k.s in m && PeriodVals(m)[k] == VInt(ToInt32(m[k.s]))
    ensures forall s <- m :: VStr(s) in PeriodVals(m)
  {
    hide ToInt32;
  }

  lemma PeriodsReturn(m: map<Bytes, int>)
    ensures forall k <- PeriodVals(m) :: k.VStr? && PeriodVals(m)[k].VInt?
    ensures PeriodsBack(PeriodVals(m)) == map s | s in m :: ToInt32(m[s])
  {
    PeriodValsAre(m);
    hide ToInt32, PeriodVals;
    forall s | s in m ensures s in PeriodsBack(PeriodVals(m)) {
      assert VStr(s) in PeriodVals(m);
    }
  }

  lemma AnswerReturns(a: Answer, bits: real -> int, float: int -> real)
    ensures IsAnswer(AnalyzeResponse(a, bits))
    ensures AnswerOf(AnalyzeResponse(a, bits), float) == Received(a, bits, float)
  {
    hide ToInt32, UserVals, PeriodVals, UsersBack, PeriodsBack, StatFields, StatBack, IsStat, ReceivedStat, OK_RESP,
      IsBaseResp;
    UsersReturn(a.postsPerUser);
    PeriodsReturn(a.timeDistribution);
    OkReported();
    var xs := TopVals(a.top, bits);
    forall i | 0 <= i < |xs| ensures IsStat(xs[i]) && StatBack(xs[i], float) == ReceivedStat(a.top[i], bits, float) {
      StatReturns(a.top[i], bits, float);
    }
  }

  /** The client gets the cast answer, whatever order the maps were written in, and no error with it. */
  lemma {:induction false} AnalysisArrives(a: Answer, bits: real -> int, float: int -> real, w: Tree, tail: Bytes)
    requires SendableAnswer(a) && forall x :: Fits(bits(x), 8)
    requires HasType(TStruct(ANALYZE_POSTS_RESPONSE), VStruct(AnalyzeResponse(a, bits)))
    requires Writes(TStruct(ANALYZE_POSTS_RESPONSE), VStruct(AnalyzeResponse(a, bits)), w)
    ensures var r := ReadStruct(ANALYZE_POSTS_RESPONSE, Zero(ANALYZE_POSTS_RESPONSE), Print(w) + tail);
      && r.Ok? && IsAnswer(r.value)
      && AnswerOf(r.value, float) == Received(a, bits, float) && RpcErr(r.value[255]) == None
  {
    ResponseSchemasValid();
    AnswerFieldsArrive(a, bits);
    hide ReadStruct, Writes, Print, HasType, ValidSchema, AllArrive, Zero, Length, ANALYZE_POSTS_RESPONSE, OK_RESP,
      RpcErr, IsBaseResp, IsAnswer, AnswerOf, Received, SendableAnswer, TopVals, StatsFields;
    MessageArrives(ANALYZE_POSTS_RESPONSE, AnalyzeResponse(a, bits), AnalyzeResponse(a, bits), w, tail);
    AnswerReturns(a, bits, float);
    OkReported();
  }

  // ---------- when nothing changes

  /** The doubles of an analysis are those read from their own bits. */
  predicate ExactDoubles(r: Result, bits: real -> int, float: int -> real)
  {
    float(bits(r.average)) == r.average && forall s <- r.topCharacters :: float(bits(s.frequency)) == s.frequency
  }

  lemma TopUnchanged(posts: seq<Post>, r: Result, bits: real -> int, float: int -> real)
    requires IsAnalysis(posts, r) && ExactDoubles(r, bits, float)
    ensures Received(Report(r), bits, float).top == Report(r).top
  {
    hide Runes, Encode, Decode, IsTop, IsMedian, Sum;
    AnalysisAddsUp(posts, r);
    forall i | 0 <= i < |r.topCharacters|
      ensures ReceivedStat(Report(r).top[i], bits, float) == Report(r).top[i]
    {
      var s := r.topCharacters[i];
      assert s in r.topCharacters;
      FirstRune(Encode(s.character), s.character);
    }
  }

  lemma {:induction false} FirstRune(s: Bytes, c: int)
    requires Runes(s) == [c]
    ensures Decode(s) == c
  {
    hide Decode, Width;
    assert s != [];
    assert Runes(s)[0] == Decode(s);
  }

  lemma Cast(x: nat)
    ensures ToInt32(x) == x <==> x < 0x8000_0000
  {}

  /** A count of some posts is at most the number of posts. */
  lemma CountsFit(posts: seq<Post>, r: Result)
    requires IsAnalysis(posts, r) && |posts| < 0x8000_0000
    ensures forall u <- r.postsPerUser :: ToInt32(r.postsPerUser[u]) == r.postsPerUser[u]
    ensures forall p <- r.timeDistribution :: ToInt32(r.timeDistribution[p]) == r.timeDistribution[p]
  {
    hide IsTop, IsMedian, ToInt32;
    forall u | u in r.postsPerUser ensures ToInt32(r.postsPerUser[u]) == r.postsPerUser[u] {
      TallyAtMost(multiset(Users(posts)), u);
      Cast(r.postsPerUser[u]);
    }
    forall p | p in r.timeDistribution ensures ToInt32(r.timeDistribution[p]) == r.timeDistribution[p] {
      TallyAtMost(multiset(Periods(posts)), p);
      Cast(r.timeDistribution[p]);
    }
  }

  lemma NamedCasts(m: map<Period, nat>)
    requires forall p <- m :: ToInt32(m[p]) == m[p]
    ensures Named(m) == map s | s in Named(m) :: ToInt32(Named(m)[s])
  {
    hide ToInt32;
    forall s | s in Named(m) ensures ToInt32(Named(m)[s]) == Named(m)[s] {
      var p :| p in m && PeriodName(p) == s && Named(m)[s] == m[p];
    }
  }

  lemma AnalysisCounts(posts: seq<Post>, r: Result)
    requires IsAnalysis(posts, r)
    ensures r.totalPosts == |posts|
  {}

  lemma DoublesBack(r: Result, bits: real -> int, float: int -> real)
    requires ExactDoubles(r, bits, float)
    ensures float(bits(r.average)) == r.average
  {}

  /**
   The whole analysis arrives unchanged, the full character counts apart, exactly when the number of
   posts and the median length are below 2^31.
   */
  lemma AnalysisUnchangedIff(posts: seq<Post>, r: Result, bits: real -> int, float: int -> real)
    requires IsAnalysis(posts, r) && ExactDoubles(r, bits, float)
    ensures Received(Report(r), bits, float) == Report(r) <==> |posts| < 0x8000_0000 && r.median < 0x8000_0000
  {
    hide IsAnalysis, ToInt32, ReceivedStat, Named, ExactDoubles;
    var a, a' := Report(r), Received(Report(r), bits, float);
    AnalysisCounts(posts, r);
    MedianNotNegative(posts, r);
    FewCharacters(posts, r);
    TopUnchanged(posts, r, bits, float);
    DoublesBack(r, bits, float);
    Cast(|posts|);
    Cast(r.median);
    Cast(r.uniqueChars);
    if |posts| < 0x8000_0000 {
      CountsFit(posts, r);
      NamedCasts(r.timeDistribution);
      forall u | u in a.postsPerUser ensures a'.postsPerUser[u] == a.postsPerUser[u] {
        assert u in r.postsPerUser;
      }
      assert a'.timeDistribution == a.timeDistribution;
    }
  }
}
