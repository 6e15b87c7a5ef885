/** The message types of the three Thrift services, fields in the order the generated writers use. */
module Schemas {
  import opened Binary
  import opened Message

  const STR := TScalar(SStr)
  const INT32 := TScalar(SI32)
  const INT64 := TScalar(SI64)
  const FLAG := TScalar(SBool)
  const FLOAT := TScalar(SDouble)

  function Req(id: int, ty: Ty): Field
  {
    Field(id, ty, false)
  }

  function Opt(id: int, ty: Ty): Field
  {
    Field(id, ty, true)
  }

  const BASE: Schema := [Req(1, STR), Req(2, STR), Req(3, STR), Req(4, STR), Opt(5, TMap(SStr, SStr))]
  const BASE_RESP: Schema := [Req(2, INT32), Req(1, STR), Opt(3, TMap(SStr, SStr))]

  const POST: Schema := [Req(1, INT64), Req(2, INT64), Req(3, STR), Req(4, STR), Req(5, STR), Req(6, STR)]
  const POST_FILTER: Schema := [Opt(1, INT64), Opt(2, STR), Opt(3, STR), Opt(4, STR)]
  const PAGINATION: Schema := [Req(1, INT32), Req(2, INT32)]
  const PAGINATION_META: Schema :=
    [Req(1, INT32), Req(2, INT32), Req(3, INT32), Req(4, INT32), Req(5, FLAG), Req(6, FLAG)]
  const LIST_POSTS_REQUEST: Schema := [Req(1, TStruct(BASE)), Opt(2, TStruct(POST_FILTER)), Opt(3, TStruct(PAGINATION))]
  const LIST_POSTS_RESPONSE: Schema :=
    [Req(1, TList(TStruct(POST))), Req(2, TStruct(PAGINATION_META)), Req(255, TStruct(BASE_RESP))]
  const GET_POST_REQUEST: Schema := [Req(2, INT64), Req(1, TStruct(BASE))]  // DeletePostRequest too
  // Also CreatePostResponse and UpdatePostResponse.
  const GET_POST_RESPONSE: Schema := [Req(1, TStruct(POST)), Req(255, TStruct(BASE_RESP))]
  const CREATE_POST_REQUEST: Schema := [Req(2, INT64), Req(1, TStruct(BASE)), Req(3, STR), Req(4, STR)]
  const UPDATE_POST_REQUEST: Schema := [Req(2, INT64), Req(1, TStruct(BASE)), Opt(3, STR), Opt(4, STR)]
  const DELETE_POST_RESPONSE: Schema := [Req(255, TStruct(BASE_RESP))]
  const BATCH_CREATE_REQUEST: Schema := [Req(1, TStruct(BASE)), Req(2, TList(TStruct(CREATE_POST_REQUEST)))]
  const BATCH_CREATE_RESPONSE: Schema :=
    [Req(1, INT32), Req(2, INT32), Req(3, TList(STR)), Req(4, TList(INT64)), Req(255, TStruct(BASE_RESP))]
  const CHARACTER_STAT: Schema := [Req(2, INT64), Req(3, FLOAT), Req(1, STR)]
  const ANALYTICS_STATS: Schema :=
    [Req(1, FLOAT), Req(2, INT32), Req(3, TMap(SI64, SI32)), Req(4, TMap(SStr, SI32))]
  const ANALYZE_POSTS_REQUEST: Schema := [Req(1, TStruct(BASE))]
  const ANALYZE_POSTS_RESPONSE: Schema :=
    [Req(1, INT32), Req(2, INT64), Req(3, INT32), Req(4, TList(TStruct(CHARACTER_STAT))),
     Req(5, TStruct(ANALYTICS_STATS)), Req(255, TStruct(BASE_RESP))]

  const SUBJECT: Schema := [Req(1, INT64), Req(2, STR), Req(3, STR), Req(4, TMap(SStr, SStr))]
  const LOGIN_REQUEST: Schema := [Req(1, TStruct(BASE)), Req(2, STR), Req(3, STR)]
  const LOGIN_RESPONSE: Schema := [Req(2, INT64), Req(1, STR), Req(3, TStruct(SUBJECT)), Req(255, TStruct(BASE_RESP))]
  const VALIDATE_TOKEN_REQUEST: Schema := [Req(1, TStruct(BASE)), Req(2, STR)]
  const VALIDATE_TOKEN_RESPONSE: Schema := [Req(1, FLAG), Req(2, TStruct(SUBJECT)), Req(255, TStruct(BASE_RESP))]
  const AUTHORIZE_REQUEST: Schema :=
    [Req(1, TStruct(BASE)), Req(2, TStruct(SUBJECT)), Req(3, STR), Req(4, STR),
     Opt(5, TMap(SStr, SStr)), Opt(6, TMap(SStr, SStr))]
  const AUTHORIZE_RESPONSE: Schema := [Req(1, FLAG), Req(2, STR), Req(3, STR), Req(255, TStruct(BASE_RESP))]

  lemma FieldIds()
    ensures forall v {:trigger Fits(v, 2)} :: -0x8000 <= v < 0x8000 ==> Fits(v, 2)
  {
    Widths();
  }

  lemma SimpleSchemasValid()
    ensures ValidSchema(BASE) && ValidSchema(BASE_RESP) && ValidSchema(POST) && ValidSchema(POST_FILTER)
    ensures ValidSchema(PAGINATION) && ValidSchema(PAGINATION_META)
  {
    FieldIds();
  }

  lemma StatsSchemasValid()
    ensures ValidSchema(CHARACTER_STAT) && ValidSchema(ANALYTICS_STATS) && ValidSchema(SUBJECT)
    ensures ValidSchema(CREATE_POST_REQUEST)
  {
    FieldIds();
    SimpleSchemasValid();
    assert ValidTy(TStruct(BASE));
  }

  lemma RequestSchemasValid()
    ensures ValidSchema(LIST_POSTS_REQUEST) && ValidSchema(GET_POST_REQUEST) && ValidSchema(UPDATE_POST_REQUEST)
    ensures ValidSchema(BATCH_CREATE_REQUEST) && ValidSchema(AUTHORIZE_REQUEST)
  {
    FieldIds();
    SimpleSchemasValid();
    StatsSchemasValid();
    assert ValidTy(TStruct(BASE)) && ValidTy(TStruct(POST_FILTER)) && ValidTy(TStruct(PAGINATION));
    assert ValidTy(TStruct(SUBJECT));
    assert ValidTy(TStruct(CREATE_POST_REQUEST)) && ValidTy(TList(TStruct(CREATE_POST_REQUEST)));
  }

  lemma ResponseSchemasValid()
    ensures ValidSchema(LIST_POSTS_RESPONSE) && ValidSchema(GET_POST_RESPONSE) && ValidSchema(DELETE_POST_RESPONSE)
    ensures ValidSchema(BATCH_CREATE_RESPONSE) && ValidSchema(ANALYZE_POSTS_RESPONSE) && ValidSchema(AUTHORIZE_RESPONSE)
  {
    FieldIds();
    SimpleSchemasValid();
    StatsSchemasValid();
    assert ValidTy(TStruct(BASE_RESP)) && ValidTy(TStruct(PAGINATION_META)) && ValidTy(TStruct(ANALYTICS_STATS));
    assert ValidTy(TStruct(POST)) && ValidTy(TList(TStruct(POST)));
    assert ValidTy(TStruct(CHARACTER_STAT)) && ValidTy(TList(TStruct(CHARACTER_STAT)));
  }

  lemma AuthSchemasValid()
    ensures ValidSchema(LOGIN_REQUEST) && ValidSchema(LOGIN_RESPONSE)
    ensures ValidSchema(VALIDATE_TOKEN_REQUEST) && ValidSchema(VALIDATE_TOKEN_RESPONSE)
    ensures ValidSchema(ANALYZE_POSTS_REQUEST)
  {
    FieldIds();
    SimpleSchemasValid();
    StatsSchemasValid();
    assert ValidTy(TStruct(BASE)) && ValidTy(TStruct(BASE_RESP)) && ValidTy(TStruct(SUBJECT));
    hide BASE, BASE_RESP, SUBJECT;
  }

  lemma BaseIds()
    ensures |BASE| == 5 && Ids(BASE) == {1, 2, 3, 4, 5}
    ensures BASE[0] == Req(1, STR) && BASE[1] == Req(2, STR) && BASE[2] == Req(3, STR) && BASE[3] == Req(4, STR)
    ensures BASE[4] == Opt(5, TMap(SStr, SStr))
  {}

  lemma SubjectIds()
    ensures |SUBJECT| == 4 && Ids(SUBJECT) == {1, 2, 3, 4}
    ensures SUBJECT[0] == Req(1, INT64) && SUBJECT[1] == Req(2, STR) && SUBJECT[2] == Req(3, STR)
    ensures SUBJECT[3] == Req(4, TMap(SStr, SStr))
  {}

  lemma AuthorizeRequestIds()
    ensures |AUTHORIZE_REQUEST| == 6 && Ids(AUTHORIZE_REQUEST) == {1, 2, 3, 4, 5, 6}
    ensures AUTHORIZE_REQUEST[0] == Req(1, TStruct(BASE)) && AUTHORIZE_REQUEST[1] == Req(2, TStruct(SUBJECT))
    ensures AUTHORIZE_REQUEST[2] == Req(3, STR) && AUTHORIZE_REQUEST[3] == Req(4, STR)
    ensures AUTHORIZE_REQUEST[4] == Opt(5, TMap(SStr, SStr)) && AUTHORIZE_REQUEST[5] == Opt(6, TMap(SStr, SStr))
  {
    var sch := AUTHORIZE_REQUEST;
    assert sch[0].id == 1 && sch[1].id == 2 && sch[2].id == 3 && sch[3].id == 4 && sch[4].id == 5 && sch[5].id == 6;
  }

  lemma AuthorizeResponseIds()
    ensures |AUTHORIZE_RESPONSE| == 4 && Ids(AUTHORIZE_RESPONSE) == {1, 2, 3, 255}
    ensures AUTHORIZE_RESPONSE[0] == Req(1, FLAG) && AUTHORIZE_RESPONSE[1] == Req(2, STR)
    ensures AUTHORIZE_RESPONSE[2] == Req(3, STR) && AUTHORIZE_RESPONSE[3] == Req(255, TStruct(BASE_RESP))
  {
    var sch := AUTHORIZE_RESPONSE;
    assert sch[0].id == 1 && sch[1].id == 2 && sch[2].id == 3 && sch[3].id == 255;
  }
}
