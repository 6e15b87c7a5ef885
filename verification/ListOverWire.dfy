/** GetAll through the RPC client and server: the request and its answer as bytes. */
module ListOverWire {
  import opened Binary
  import opened Wire
  import opened Message
  import opened Options
  import opened Writing
  import opened Schemas
  import opened Arriving
  import opened Transport
  import opened Posts
  import opened Listing

  // ---------- the request

  /** A string or nil, the empty string for nil being the caller's choice. */
  function OptionalString(s: Bytes): Val
  {
    if s == [] then VNil else VStr(s)
  }

  function StringOf(v: Val): Bytes
    requires v.VNil? || v.VStr?
  {
    if v.VNil? then [] else v.s
  }

  lemma OptionalStringArrives(id: int, s: Bytes)
    requires |s| < MAX_SIZE
    ensures Arrives(Opt(id, STR), OptionalString(s), OptionalString(s))
  {}

  /** adapt.ModelFilterToThrift: empty strings are left unset. */
  function FilterFields(f: Filter): map<int, Val>
  {
    map[1 := if f.userId.None? then VNil else VInt(f.userId.value), 2 := OptionalString(f.search),
        3 := OptionalString(f.sortBy), 4 := OptionalString(f.sortOrder)]
  }

  function FilterVal(f: Option<Filter>): Val
  {
    if f.None? then VNil else VStruct(FilterFields(f.value))
  }

  predicate IsFilter(v: Val)
  {
    v.VNil? ||
    (&& v.VStruct? && {1, 2, 3, 4} <= v.f.Keys
     && (v.f[1].VNil? || v.f[1].VInt?) && (v.f[2].VNil? || v.f[2].VStr?)
     && (v.f[3].VNil? || v.f[3].VStr?) && (v.f[4].VNil? || v.f[4].VStr?))
  }

  /** adapt.ThriftFilterToModel */
  function FilterOf(v: Val): Option<Filter>
    requires IsFilter(v)
  {
    if v.VNil? then None
    else
      var userId := if v.f[1].VNil? then None else Some(v.f[1].i);
      Some(Filter(userId, StringOf(v.f[2]), StringOf(v.f[3]), StringOf(v.f[4])))
  }

  /** The page and page size asked for. */
  type Asked = Option<(int, int)>

  function PageFields(page: int, size: int): map<int, Val>
  {
    map[1 := VInt(ToInt32(page)), 2 := VInt(ToInt32(size))]
  }

  function PageVal(asked: Asked): Val
  {
    if asked.None? then VNil else VStruct(PageFields(asked.value.0, asked.value.1))
  }

  predicate IsPage(v: Val)
  {
    v.VNil? || (v.VStruct? && {1, 2} <= v.f.Keys && v.f[1].VInt? && v.f[2].VInt?)
  }

  /** adapt.ThriftPaginationToModel */
  function ParamsOf(v: Val): Option<Params>
    requires IsPage(v)
  {
    if v.VNil? then None else Some(ServedParams(v.f[1].i, v.f[2].i))
  }

  function ListRequest(f: Option<Filter>, asked: Asked): map<int, Val>
  {
    map[1 := VStruct(GATEWAY), 2 := FilterVal(f), 3 := PageVal(asked)]
  }

  predicate SendableFilter(f: Option<Filter>)
  {
    f.Some? ==>
      && |f.value.search| < MAX_SIZE && |f.value.sortBy| < MAX_SIZE && |f.value.sortOrder| < MAX_SIZE
      && (f.value.userId.Some? ==> Fits(f.value.userId.value, 8))
  }

  lemma FilterArrives(f: Option<Filter>)
    requires SendableFilter(f)
    ensures Arrives(Opt(2, TStruct(POST_FILTER)), FilterVal(f), FilterVal(f))
  {
    NilArrives(2, TStruct(POST_FILTER));
    if f.Some? {
      FilterIds();
      OptionalStringArrives(2, f.value.search);
      OptionalStringArrives(3, f.value.sortBy);
      OptionalStringArrives(4, f.value.sortOrder);
      NilArrives(1, INT64);
      if f.value.userId.Some? {
        NumbersArrive(1, f.value.userId.value);
      }
      SimpleSchemasValid();
      hide Arrives, POST_FILTER, Ids, OptionalString, ValidSchema;
      assert AllArrive(POST_FILTER, FilterFields(f.value), FilterFields(f.value));
      StructArrives(Opt(2, TStruct(POST_FILTER)), POST_FILTER, FilterFields(f.value), FilterFields(f.value));
    }
  }

  lemma FilterIds()
    ensures |POST_FILTER| == 4 && Ids(POST_FILTER) == {1, 2, 3, 4}
    ensures POST_FILTER[0] == Opt(1, INT64) && POST_FILTER[1] == Opt(2, STR) && POST_FILTER[2] == Opt(3, STR)
    ensures POST_FILTER[3] == Opt(4, STR)
  {}

  lemma PageIds()
    ensures |PAGINATION| == 2 && Ids(PAGINATION) == {1, 2}
    ensures PAGINATION[0] == Req(1, INT32) && PAGINATION[1] == Req(2, INT32)
  {}

  lemma PageArrives(asked: Asked)
    ensures Arrives(Opt(3, TStruct(PAGINATION)), PageVal(asked), PageVal(asked))
  {
    NilArrives(3, TStruct(PAGINATION));
    if asked.Some? {
      var (page, size) := asked.value;
      Widths();
      NumbersArrive(1, ToInt32(page));
      NumbersArrive(2, ToInt32(size));
      PageIds();
      SimpleSchemasValid();
      hide Arrives, PAGINATION, Ids, ToInt32, ValidSchema;
      assert AllArrive(PAGINATION, PageFields(page, size), PageFields(page, size));
      StructArrives(Opt(3, TStruct(PAGINATION)), PAGINATION, PageFields(page, size), PageFields(page, size));
    }
  }

  lemma RequestFieldsArrive(f: Option<Filter>, asked: Asked)
    requires SendableFilter(f)
    ensures AllArrive(LIST_POSTS_REQUEST, ListRequest(f, asked), ListRequest(f, asked))
  {
    hide Arrives, POST_FILTER, PAGINATION, BASE, LIST_POSTS_REQUEST, Ids, GATEWAY, FilterVal, PageVal, SendableFilter;
    GatewayArrives(1);
    FilterArrives(f);
    PageArrives(asked);
    RequestIds();
  }

  lemma RequestIds()
    ensures |LIST_POSTS_REQUEST| == 3 && Ids(LIST_POSTS_REQUEST) == {1, 2, 3}
    ensures LIST_POSTS_REQUEST[0] == Req(1, TStruct(BASE)) && LIST_POSTS_REQUEST[1] == Opt(2, TStruct(POST_FILTER))
    ensures LIST_POSTS_REQUEST[2] == Opt(3, TStruct(PAGINATION))
  {
    var sch := LIST_POSTS_REQUEST;
    assert sch[0].id == 1 && sch[1].id == 2 && sch[2].id == 3;
  }

  /** The filter arrives as it was, and the page as ServedParams says, whatever bytes follow. */
  lemma {:induction false} ListRequestArrives(f: Option<Filter>, asked: Asked, w: Tree, tail: Bytes)
    requires SendableFilter(f) && HasType(TStruct(LIST_POSTS_REQUEST), VStruct(ListRequest(f, asked)))
    requires Writes(TStruct(LIST_POSTS_REQUEST), VStruct(ListRequest(f, asked)), w)
    ensures var r := ReadStruct(LIST_POSTS_REQUEST, Zero(LIST_POSTS_REQUEST), Print(w) + tail);
      && r.Ok? && {2, 3} <= r.value.Keys && IsFilter(r.value[2]) && IsPage(r.value[3])
      && FilterOf(r.value[2]) == f
      && ParamsOf(r.value[3]) == if asked.None? then None else Some(ServedParams(asked.value.0, asked.value.1))
  {
    RequestSchemasValid();
    RequestFieldsArrive(f, asked);
    hide ReadStruct, Writes, Print, HasType, ValidSchema, AllArrive, Zero, Length, GATEWAY, LIST_POSTS_REQUEST,
      FilterVal, PageVal, IsFilter, IsPage, FilterOf, ParamsOf, ServedParams;
    MessageArrives(LIST_POSTS_REQUEST, ListRequest(f, asked), ListRequest(f, asked), w, tail);
    FilterBack(f);
    PageBack(asked);
  }

  /** The numbers of the request's fields. */
  lemma RequestFieldsAre(f: Filter, page: int, size: int)
    ensures var m := ListRequest(Some(f), Some((page, size)));
      && 2 in m && 3 in m && m[2].VStruct? && m[2].f.Keys == {1, 2, 3, 4} && m[3].VStruct? && m[3].f.Keys == {1, 2}
      && m[2].f[1] == (if f.userId.None? then VNil else VInt(f.userId.value))
      && m[2].f[2] == (if f.search == [] then VNil else VStr(f.search))
      && m[2].f[3] == (if f.sortBy == [] then VNil else VStr(f.sortBy))
      && m[2].f[4] == (if f.sortOrder == [] then VNil else VStr(f.sortOrder))
      && m[3].f[1] == VInt(ToInt32(page)) && m[3].f[2] == VInt(ToInt32(size))
  {
    hide GATEWAY, ToInt32;
  }

  lemma FilterBack(f: Option<Filter>)
    ensures IsFilter(FilterVal(f)) && FilterOf(FilterVal(f)) == f
  {}

  lemma PageBack(asked: Asked)
    ensures IsPage(PageVal(asked))
    ensures ParamsOf(PageVal(asked)) == if asked.None? then None else Some(ServedParams(asked.value.0, asked.value.1))
  {
    hide ToInt32, ServedParams;
    if asked.Some? {
      CastTwice(asked.value.0, asked.value.1);
    }
  }

  lemma CastTwice(page: int, size: int)
    ensures ServedParams(ToInt32(page), ToInt32(size)) == ServedParams(page, size)
  {}

  // ---------- the answer

  /** format is Time.Format with the RFC 3339 layout. */
  function PostFields(p: Post, format: Time -> Bytes): map<int, Val>
  {
    map[1 := VInt(p.id), 2 := VInt(p.userId), 3 := VStr(p.title), 4 := VStr(p.body),
        5 := VStr(format(p.createdAt)), 6 := VStr(format(p.updatedAt))]
  }

  predicate IsPost(v: Val)
  {
    && v.VStruct? && {1, 2, 3, 4, 5, 6} <= v.f.Keys
    && v.f[1].VInt? && v.f[2].VInt? && v.f[3].VStr? && v.f[4].VStr? && v.f[5].VStr? && v.f[6].VStr?
  }

  /** parse is time.Parse with the same layout, the zero time standing for a failure. */
  function PostOf(v: Val, parse: Bytes -> Time): Post
    requires IsPost(v)
  {
    Post(v.f[1].i, v.f[2].i, v.f[3].s, v.f[4].s, parse(v.f[5].s), parse(v.f[6].s))
  }

  /** A post as it arrives: its times as far as the layout keeps them. */
  function Reparsed(p: Post, format: Time -> Bytes, parse: Bytes -> Time): Post
  {
    p.(createdAt := parse(format(p.createdAt)), updatedAt := parse(format(p.updatedAt)))
  }

  function MetaFields(m: Meta): map<int, Val>
  {
    map[1 := VInt(ToInt32(m.page)), 2 := VInt(ToInt32(m.pageSize)), 3 := VInt(ToInt32(m.totalItems)),
        4 := VInt(ToInt32(m.totalPages)), 5 := VBool(m.hasNext), 6 := VBool(m.hasPrev)]
  }

  const NO_META :=
    VStruct(map[1 := VInt(0), 2 := VInt(0), 3 := VInt(0), 4 := VInt(0), 5 := VBool(false), 6 := VBool(false)])

  function MetaVal(m: Option<Meta>): Val
  {
    if m.None? then NO_META else VStruct(MetaFields(m.value))
  }

  function PostVals(posts: seq<Post>, format: Time -> Bytes): (r: seq<Val>)
    ensures |r| == |posts|
  {
    seq(|posts|, i requires 0 <= i < |posts| => VStruct(PostFields(posts[i], format)))
  }

  function ListResponse(posts: seq<Post>, m: Option<Meta>, format: Time -> Bytes): map<int, Val>
  {
    map[1 := VList(PostVals(posts, format)), 2 := MetaVal(m), 255 := OK_RESP]
  }

  predicate SendablePost(p: Post, format: Time -> Bytes)
  {
    && Fits(p.id, 8) && Fits(p.userId, 8) && |p.title| < MAX_SIZE && |p.body| < MAX_SIZE
    && |format(p.createdAt)| < MAX_SIZE && |format(p.updatedAt)| < MAX_SIZE
  }

  lemma PostIds()
    ensures |POST| == 6 && Ids(POST) == {1, 2, 3, 4, 5, 6}
    ensures POST[0] == Req(1, INT64) && POST[1] == Req(2, INT64) && POST[2] == Req(3, STR) && POST[3] == Req(4, STR)
    ensures POST[4] == Req(5, STR) && POST[5] == Req(6, STR)
  {
    var sch := POST;
    assert sch[0].id == 1 && sch[1].id == 2 && sch[2].id == 3 && sch[3].id == 4 && sch[4].id == 5 && sch[5].id == 6;
  }

  lemma PostArrives(p: Post, format: Time -> Bytes)
    requires SendablePost(p, format)
    ensures HasType(TStruct(POST), VStruct(PostFields(p, format)))
    ensures Norm(TStruct(POST), VStruct(PostFields(p, format))) == VStruct(PostFields(p, format))
  {
    hide Arrives, POST, Ids, ValidSchema;
    PostIds();
    NumbersArrive(1, p.id);
    NumbersArrive(2, p.userId);
    StringArrives(3, p.title);
    StringArrives(4, p.body);
    StringArrives(5, format(p.createdAt));
    StringArrives(6, format(p.updatedAt));
    SimpleSchemasValid();
    hide Fits;
    assert AllArrive(POST, PostFields(p, format), PostFields(p, format));
    StructArrives(Req(0, TStruct(POST)), POST, PostFields(p, format), PostFields(p, format));
  }

  lemma PostsArrive(posts: seq<Post>, format: Time -> Bytes)
    requires |posts| < MAX_SIZE && forall p <- posts :: SendablePost(p, format)
    ensures var v := VList(PostVals(posts, format)); Arrives(Req(1, TList(TStruct(POST))), v, v)
  {
    hide HasType, Norm, Arrives, POST, SendablePost;
    var xs := PostVals(posts, format);
    forall x | x in xs ensures HasType(TStruct(POST), x) && Norm(TStruct(POST), x) == x {
      var i :| 0 <= i < |xs| && xs[i] == x;
      PostArrives(posts[i], format);
    }
    ListArrives(Req(1, TList(TStruct(POST))), TStruct(POST), xs);
  }

  lemma MetaIds()
    ensures |PAGINATION_META| == 6 && Ids(PAGINATION_META) == {1, 2, 3, 4, 5, 6}
    ensures PAGINATION_META[0] == Req(1, INT32) && PAGINATION_META[1] == Req(2, INT32)
    ensures PAGINATION_META[2] == Req(3, INT32) && PAGINATION_META[3] == Req(4, INT32)
    ensures PAGINATION_META[4] == Req(5, FLAG) && PAGINATION_META[5] == Req(6, FLAG)
  {
    var sch := PAGINATION_META;
    assert sch[0].id == 1 && sch[1].id == 2 && sch[2].id == 3 && sch[3].id == 4 && sch[4].id == 5 && sch[5].id == 6;
  }

  lemma MetaFieldsArrive(a: int, b: int, c: int, d: int, next: bool, prev: bool)
    requires Fits(a, 4) && Fits(b, 4) && Fits(c, 4) && Fits(d, 4)
    ensures var f := map[1 := VInt(a), 2 := VInt(b), 3 := VInt(c), 4 := VInt(d), 5 := VBool(next), 6 := VBool(prev)];
      Arrives(Req(2, TStruct(PAGINATION_META)), VStruct(f), VStruct(f))
  {
    MetaIds();
    NumbersArrive(1, a);
    NumbersArrive(2, b);
    NumbersArrive(3, c);
    NumbersArrive(4, d);
    FlagArrives(5, next);
    FlagArrives(6, prev);
    SimpleSchemasValid();
    hide Arrives, PAGINATION_META, Ids, Fits, ValidSchema;
    var f := map[1 := VInt(a), 2 := VInt(b), 3 := VInt(c), 4 := VInt(d), 5 := VBool(next), 6 := VBool(prev)];
    assert AllArrive(PAGINATION_META, f, f);
    StructArrives(Req(2, TStruct(PAGINATION_META)), PAGINATION_META, f, f);
  }

  lemma MetaArrives(m: Option<Meta>)
    ensures Arrives(Req(2, TStruct(PAGINATION_META)), MetaVal(m), MetaVal(m))
  {
    Widths();
    hide PAGINATION_META, Arrives;
    if m.None? {
      MetaFieldsArrive(0, 0, 0, 0, false, false);
    } else {
      MetaFieldsArrive(ToInt32(m.value.page), ToInt32(m.value.pageSize), ToInt32(m.value.totalItems),
        ToInt32(m.value.totalPages), m.value.hasNext, m.value.hasPrev);
    }
  }

  lemma ResponseIds()
    ensures |LIST_POSTS_RESPONSE| == 3 && Ids(LIST_POSTS_RESPONSE) == {1, 2, 255}
    ensures LIST_POSTS_RESPONSE[0] == Req(1, TList(TStruct(POST)))
    ensures LIST_POSTS_RESPONSE[1] == Req(2, TStruct(PAGINATION_META))
    ensures LIST_POSTS_RESPONSE[2] == Req(255, TStruct(BASE_RESP))
  {
    var sch := LIST_POSTS_RESPONSE;
    assert sch[0].id == 1 && sch[1].id == 2 && sch[2].id == 255;
  }

  lemma ResponseFieldsArrive(posts: seq<Post>, m: Option<Meta>, format: Time -> Bytes)
    requires |posts| < MAX_SIZE && forall p <- posts :: SendablePost(p, format)
    ensures AllArrive(LIST_POSTS_RESPONSE, ListResponse(posts, m, format), ListResponse(posts, m, format))
  {
    hide HasType, Normal, Arrives, POST, PAGINATION_META, BASE_RESP, LIST_POSTS_RESPONSE, Ids, OK_RESP, PostVals,
      MetaVal, SendablePost;
    PostsArrive(posts, format);
    MetaArrives(m);
    ErrRespTyped(Other([]));
    ValueArrives(Req(255, TStruct(BASE_RESP)), OK_RESP);
    ResponseIds();
  }

  /** The posts arrive in order, each as it was but for the precision of its times, and no error with them. */
  lemma {:induction false} ListResponseArrives(
    posts: seq<Post>, m: Option<Meta>, format: Time -> Bytes, parse: Bytes -> Time, w: Tree, tail: Bytes)
    requires |posts| < MAX_SIZE && forall p <- posts :: SendablePost(p, format)
    requires HasType(TStruct(LIST_POSTS_RESPONSE), VStruct(ListResponse(posts, m, format)))
    requires Writes(TStruct(LIST_POSTS_RESPONSE), VStruct(ListResponse(posts, m, format)), w)
    ensures var r := ReadStruct(LIST_POSTS_RESPONSE, Zero(LIST_POSTS_RESPONSE), Print(w) + tail);
      && r.Ok? && {1, 2, 255} <= r.value.Keys
      && r.value[1].VList? && |r.value[1].xs| == |posts|
      && (forall i | 0 <= i < |posts| ::
            IsPost(r.value[1].xs[i]) && PostOf(r.value[1].xs[i], parse) == Reparsed(posts[i], format, parse))
      && (forall i | 0 <= i < |posts| ::
            var v := r.value[1].xs[i].f;
            && v[1] == VInt(posts[i].id) && v[2] == VInt(posts[i].userId)
            && v[3] == VStr(posts[i].title) && v[4] == VStr(posts[i].body)
            && v[5] == VStr(format(posts[i].createdAt)) && v[6] == VStr(format(posts[i].updatedAt)))
      && (m.Some? ==> r.value[2] == VStruct(MetaFields(m.value)))
      && IsBaseResp(r.value[255]) && RpcErr(r.value[255]) == None
  {
    ResponseSchemasValid();
    ResponseFieldsArrive(posts, m, format);
    hide ReadStruct, Writes, Print, HasType, ValidSchema, AllArrive, Zero, Length, LIST_POSTS_RESPONSE, MetaFields,
      SendablePost, NO_META, OK_RESP, IsPost, PostOf, PostFields, Reparsed, RpcErr, IsBaseResp;
    MessageArrives(LIST_POSTS_RESPONSE, ListResponse(posts, m, format), ListResponse(posts, m, format), w, tail);
    forall i | 0 <= i < |posts|
      ensures var v := PostVals(posts, format)[i];
        IsPost(v) && PostOf(v, parse) == Reparsed(posts[i], format, parse) && HasFieldsOf(v.f, posts[i], format)
    {
      PostBack(posts[i], format, parse);
    }
    OkReported();
  }

  /** The numbers of a post's fields. */
  predicate HasFieldsOf(f: map<int, Val>, p: Post, format: Time -> Bytes)
  {
    && {1, 2, 3, 4, 5, 6} <= f.Keys && f[1] == VInt(p.id) && f[2] == VInt(p.userId)
    && f[3] == VStr(p.title) && f[4] == VStr(p.body)
    && f[5] == VStr(format(p.createdAt)) && f[6] == VStr(format(p.updatedAt))
  }

  lemma PostBack(p: Post, format: Time -> Bytes, parse: Bytes -> Time)
    ensures var v := VStruct(PostFields(p, format));
      IsPost(v) && PostOf(v, parse) == Reparsed(p, format, parse) && HasFieldsOf(v.f, p, format)
  {}

  // ---------- the bytes of a post

  /** A number as its field: type code 10, the id in two bytes, the value in eight. */
  function NumberBytes(id: Byte, i: int): Bytes
  {
    [10, 0, id] + PutInt(i, 8)
  }

  /** A string as its field: type code 11, the id in two bytes, the length in four, the text. */
  function StringBytes(id: Byte, s: Bytes): Bytes
  {
    [11, 0, id] + PutInt(|s|, 4) + s
  }

  lemma {:induction false} NextNumber(sch: Schema, f: map<int, Val>, ws: seq<Tagged>, id: Byte, i: int)
    requires Covers(sch, f) && WritesFields(sch, f, ws) && sch != []
    requires sch[0] == Req(id, INT64) && id in f && f[id] == VInt(i)
    ensures ws != [] && Covers(sch[1..], f) && WritesFields(sch[1..], f, ws[1..])
    ensures PrintFields(ws) == NumberBytes(id, i) + PrintFields(ws[1..])
  {
    var v := f[sch[0].id];
    assert v == VInt(i) && HasField(sch[0], v) && HasType(INT64, v) && HasScalar(SI64, v);
    assert WritesField(sch[0], v, ws[0]);
    hide WritesFields, PutInt;
    NumberTagged(ws[0], id, i);
  }

  lemma SmallHeader(t: Byte, id: Byte)
    ensures PrintFieldBegin(t, id) == [t, 0, id]
  {
    HeaderBytes(t, 0, id, 0);
  }

  lemma NumberTagged(w: Tagged, id: Byte, i: int)
    requires HasScalar(SI64, VInt(i)) && WritesField(Req(id, INT64), VInt(i), w)
    ensures PrintTagged(w) == NumberBytes(id, i)
  {
    assert PrintTagged(w) == PrintFieldBegin(10, id) + PutInt(i, 8);
    SmallHeader(10, id);
  }

  lemma {:induction false} NextString(sch: Schema, f: map<int, Val>, ws: seq<Tagged>, id: Byte, s: Bytes)
    requires Covers(sch, f) && WritesFields(sch, f, ws) && sch != []
    requires sch[0] == Req(id, STR) && id in f && f[id] == VStr(s)
    ensures ws != [] && Covers(sch[1..], f) && WritesFields(sch[1..], f, ws[1..])
    ensures PrintFields(ws) == StringBytes(id, s) + PrintFields(ws[1..])
  {
    var v := f[sch[0].id];
    assert v == VStr(s) && HasField(sch[0], v) && HasType(STR, v) && HasScalar(SStr, v);
    assert WritesField(sch[0], v, ws[0]);
    hide WritesFields, PutInt;
    StringTagged(ws[0], id, s);
  }

  lemma StringTagged(w: Tagged, id: Byte, s: Bytes)
    requires HasScalar(SStr, VStr(s)) && WritesField(Req(id, STR), VStr(s), w)
    ensures PrintTagged(w) == StringBytes(id, s)
  {
    assert PrintTagged(w) == PrintFieldBegin(11, id) + (PutInt(|s|, 4) + s);
    hide PutInt, PrintFieldBegin, WritesField, HasScalar, PrintTagged;
    SmallHeader(11, id);
    Grouped([11, 0, id], PutInt(|s|, 4), s);
  }

  lemma Grouped(a: Bytes, b: Bytes, c: Bytes)
    ensures a + (b + c) == a + b + c
  {}

  /** The bytes of a post from its third field on. */
  function TextsOf(p: Post, format: Time -> Bytes): Bytes
  {
    StringBytes(3, p.title) + (StringBytes(4, p.body) +
      (StringBytes(5, format(p.createdAt)) + (StringBytes(6, format(p.updatedAt)) + [0])))
  }

  lemma FieldsAreBytes(p: Post, format: Time -> Bytes, f: map<int, Val>, ws: seq<Tagged>)
    requires HasFieldsOf(f, p, format) && Covers(POST, f) && WritesFields(POST, f, ws)
    ensures PrintFields(ws) == NumberBytes(1, p.id) + (NumberBytes(2, p.userId) + TextsOf(p, format))
  {
    PostIds();
    hide POST, WritesFields, Covers, PrintFields, NumberBytes, TextsOf;
    NextNumber(POST, f, ws, 1, p.id);
    Suffix(1);
    NextNumber(POST[1..], f, ws[1..], 2, p.userId);
    Suffix(2);
    TextsAreBytes(p, format, f, ws[1..][1..]);
  }

  lemma TextsAreBytes(p: Post, format: Time -> Bytes, f: map<int, Val>, ws: seq<Tagged>)
    requires HasFieldsOf(f, p, format) && Covers(POST[2..], f) && WritesFields(POST[2..], f, ws)
    ensures PrintFields(ws) == TextsOf(p, format)
  {
    PostIds();
    hide POST, WritesFields, Covers, PrintFields, StringBytes;
    Suffix(3);
    NextString(POST[2..], f, ws, 3, p.title);
    Suffix(4);
    NextString(POST[3..], f, ws[1..], 4, p.body);
    Suffix(5);
    NextString(POST[4..], f, ws[1..][1..], 5, format(p.createdAt));
    Suffix(6);
    NextString(POST[5..], f, ws[1..][1..][1..], 6, format(p.updatedAt));
    NothingLeft(f, ws[1..][1..][1..][1..]);
  }

  lemma Suffix(i: nat)
    requires 1 <= i <= |POST|
    ensures POST[i - 1..][1..] == POST[i..] && POST[0..] == POST && POST[i - 1..][0] == POST[i - 1]
    ensures i < |POST| ==> POST[i..][0] == POST[i]
  {
    hide POST;
  }

  lemma {:induction false} NothingLeft(f: map<int, Val>, ws: seq<Tagged>)
    requires Covers(POST[6..], f) && WritesFields(POST[6..], f, ws)
    ensures PrintFields(ws) == [0]
  {
    assert POST[6..] == [];
  }

  lemma StructWritten(sch: Schema, f: map<int, Val>, w: Tree)
    requires HasType(TStruct(sch), VStruct(f)) && Writes(TStruct(sch), VStruct(f), w)
    ensures w.Record? && Covers(sch, f) && WritesFields(sch, f, w.fields) && Print(w) == PrintFields(w.fields)
  {}

  /** A post is sent as exactly these bytes, and ends with a stop byte. */
  lemma PostBytes(p: Post, format: Time -> Bytes, w: Tree)
    requires SendablePost(p, format) && HasType(TStruct(POST), VStruct(PostFields(p, format)))
    requires Writes(TStruct(POST), VStruct(PostFields(p, format)), w)
    ensures Print(w) == NumberBytes(1, p.id) + (NumberBytes(2, p.userId) + TextsOf(p, format))
  {
    hide POST, WritesFields, Covers, PrintFields, Print, NumberBytes, TextsOf, Writes, HasType, SendablePost;
    var f := PostFields(p, format);
    StructWritten(POST, f, w);
    assert HasFieldsOf(f, p, format);
    hide PostFields;
    FieldsAreBytes(p, format, f, w.fields);
  }
}
