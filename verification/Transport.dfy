/** Errors and authorisation decisions carried across the byte-level codec. */
module Transport {
  import opened Binary
  import opened Wire
  import opened Message
  import opened Options
  import opened Writing
  import opened Schemas

  /** The bytes of an ASCII literal. */
  function Ascii(s: string): (b: Bytes)
    ensures |b| == |s|
    ensures forall i | 0 <= i < |s| && s[i] < 128 as char :: b[i] == s[i] as int
  {
    seq(|s|, i requires 0 <= i < |s| => s[i] as int % 256)
  }

  // ---------- errors

  /** The wrapped cause is kept for logs only and is left out. */
  datatype AppError = AppError(code: Bytes, message: Bytes, status: int, fields: map<Bytes, Bytes>)
  datatype GoError = App(e: AppError) | Other(text: Bytes)

  /** The conversion int32(x). */
  function ToInt32(x: int): (r: int)
    ensures -0x8000_0000 <= r < 0x8000_0000
    ensures -0x8000_0000 <= x < 0x8000_0000 ==> r == x
    ensures (x - r) % 0x1_0000_0000 == 0
  {
    (x + 0x8000_0000) % 0x1_0000_0000 - 0x8000_0000
  }

  const CODE := VStr(Ascii("code"))
  const INTERNAL := AppError(Ascii("INTERNAL_ERROR"), Ascii("Internal server error"), 500, map[])

  /** adapt.Err: the BaseResp a failed call answers with. */
  function ErrResp(err: GoError): Val
  {
    match err
    case App(e) =>
      VStruct(map[1 := VStr(e.message), 2 := VInt(ToInt32(e.status)), 3 := VMap(map[CODE := VStr(e.code)])])
    case Other(_) =>
      VStruct(map[1 := VStr(Ascii("internal error")), 2 := VInt(500), 3 := VNil])
  }

  const OK_RESP := VStruct(map[1 := VStr(Ascii("OK")), 2 := VInt(0), 3 := VNil])

  predicate IsBaseResp(v: Val)
  {
    && v.VStruct? && 1 in v.f && 2 in v.f && 3 in v.f
    && v.f[1].VStr? && v.f[2].VInt?
    && (v.f[3].VNil? || (v.f[3].VMap? && forall k <- v.f[3].m :: v.f[3].m[k].VStr?))
  }

  /** rpcErr for a call that was answered; None is the nil error. */
  function RpcErr(baseResp: Val): Option<AppError>
    requires baseResp.VNil? || IsBaseResp(baseResp)
  {
    if baseResp.VNil? then None
    else
      var f := baseResp.f;
      if f[2].i == 0 then None
      else if f[2].i < 400 || f[2].i >= 500 then Some(INTERNAL)
      else
        var code := if f[3].VMap? && CODE in f[3].m && f[3].m[CODE].s != [] then f[3].m[CODE].s else Ascii("ERROR");
        Some(AppError(code, f[1].s, f[2].i, map[]))
  }

  /** What the gateway reports for an error of the service. */
  function Reported(err: GoError): Option<AppError>
  {
    match err
    case Other(_) => Some(INTERNAL)
    case App(e) =>
      var status := ToInt32(e.status);
      if status == 0 then None
      else if 400 <= status < 500 then
        Some(AppError(if e.code == [] then Ascii("ERROR") else e.code, e.message, status, map[]))
      else Some(INTERNAL)
  }

  predicate Sendable(err: GoError)
  {
    err.App? ==> |err.e.message| < MAX_SIZE && |err.e.code| < MAX_SIZE
  }

  lemma {:induction false} BaseRespTyped(v: Val)
    requires v.VStruct? && v.f.Keys == {1, 2, 3} && HasScalar(SStr, v.f[1]) && HasScalar(SI32, v.f[2])
    requires HasType(TMap(SStr, SStr), v.f[3])
    ensures HasType(TStruct(BASE_RESP), v)
    ensures Normal(TStruct(BASE_RESP), v)
  {
    assert Ids(BASE_RESP) == {1, 2, 3};
    forall i | 0 <= i < 3
      ensures BASE_RESP[i].id in v.f && HasField(BASE_RESP[i], v.f[BASE_RESP[i].id])
      ensures NormalField(BASE_RESP[i], v.f[BASE_RESP[i].id])
    {
      assert BASE_RESP[0] == Req(2, INT32) && BASE_RESP[1] == Req(1, STR) && BASE_RESP[2] == Opt(3, TMap(SStr, SStr));
    }
  }

  lemma ErrRespTyped(err: GoError)
    requires Sendable(err)
    ensures HasType(TStruct(BASE_RESP), ErrResp(err)) && Normal(TStruct(BASE_RESP), ErrResp(err))
    ensures HasType(TStruct(BASE_RESP), OK_RESP) && Normal(TStruct(BASE_RESP), OK_RESP)
  {
    Widths();
    BaseRespTyped(ErrResp(err));
    BaseRespTyped(OK_RESP);
  }

  /** Read from the bytes of any message, a field that holds no stray nils is what was written. */
  lemma {:induction false} FieldArrives(sch: Schema, f: map<int, Val>, w: Tree, tail: Bytes, id: int)
    requires ValidSchema(sch) && HasType(TStruct(sch), VStruct(f)) && Writes(TStruct(sch), VStruct(f), w)
    requires id in f && Lookup(sch, id).Some? && HasField(Lookup(sch, id).value, f[id])
    ensures var r := ReadStruct(sch, Zero(sch), Print(w) + tail);
      r.Ok? && id in r.value && r.value[id] == NormField(Lookup(sch, id).value, f[id])
  {
    hide ReadStruct, Writes, Length, Print, HasField, HasType, ValidSchema, NormField;
    StructRoundTrip(sch, f, w, tail);
    NormFieldsAt(sch, f, id);
  }

  lemma {:induction false} NormFieldsAt(sch: Schema, f: map<int, Val>, id: int)
    requires HasFields(sch, f) && Lookup(sch, id).Some? && id in f && HasField(Lookup(sch, id).value, f[id])
    ensures id in NormFields(sch, f) && NormFields(sch, f)[id] == NormField(Lookup(sch, id).value, f[id])
  {}

  lemma ErrRespReported(err: GoError)
    ensures IsBaseResp(ErrResp(err)) && RpcErr(ErrResp(err)) == Reported(err)
  {}

  /** Every error a response carries reaches the gateway as Reported says, whatever else the response holds. */
  lemma {:induction false} ErrorArrives(err: GoError, sch: Schema, f: map<int, Val>, w: Tree, tail: Bytes)
    requires Sendable(err) && ValidSchema(sch) && Lookup(sch, 255) == Some(Req(255, TStruct(BASE_RESP)))
    requires HasType(TStruct(sch), VStruct(f)) && 255 in f && f[255] == ErrResp(err)
    requires Writes(TStruct(sch), VStruct(f), w)
    ensures var r := ReadStruct(sch, Zero(sch), Print(w) + tail);
      && r.Ok? && 255 in r.value && IsBaseResp(r.value[255])
      && RpcErr(r.value[255]) == Reported(err)
  {
    hide ReadStruct, Writes, Length, Print, HasType, ValidSchema, Normal, ErrResp, RpcErr, IsBaseResp, Reported;
    ErrRespTyped(err);
    ErrRespReported(err);
    FieldArrives(sch, f, w, tail, 255);
    NormOfNormal(TStruct(BASE_RESP), ErrResp(err));
  }

  /** The errors of the post service: not found, validation failed, or wrapped as internal. */
  predicate FromPostService(err: GoError)
  {
    err.App? && (err.e.status == 404 || err.e.status == 422 || err.e.status == 500) && err.e.code != []
  }

  /** They are never lost: a client fault keeps code, message and status, the rest become the fixed 500. */
  lemma ServiceErrorsReported(err: GoError)
    requires FromPostService(err)
    ensures Reported(err) ==
      Some(if err.e.status == 500 then INTERNAL else AppError(err.e.code, err.e.message, err.e.status, map[]))
    ensures INTERNAL == AppError(Ascii("INTERNAL_ERROR"), Ascii("Internal server error"), 500, map[])
  {}

  /** The fields of the BaseResp an error answers with: message, status, and the code under its name. */
  lemma ErrFieldsAre(e: AppError)
    ensures var v := ErrResp(App(e));
      && v.VStruct? && v.f.Keys == {1, 2, 3} && v.f[1] == VStr(e.message) && v.f[2] == VInt(ToInt32(e.status))
      && v.f[3] == VMap(map[VStr(Ascii("code")) := VStr(e.code)])
  {}

  /** An error arrives as nil exactly when it is an AppError whose status is 0 as a 32-bit integer. */
  lemma ErrorLostIff(err: GoError)
    ensures Reported(err) == None <==> err.App? && err.e.status % 0x1_0000_0000 == 0
  {
    if err.App? {
      var s := err.e.status;
      assert s == s / 0x1_0000_0000 * 0x1_0000_0000 + s % 0x1_0000_0000;
    }
  }

  lemma OkReported()
    ensures IsBaseResp(OK_RESP) && RpcErr(OK_RESP) == None
  {}

  /** A success is never mistaken for an error. */
  lemma {:induction false} OkArrives(sch: Schema, f: map<int, Val>, w: Tree, tail: Bytes)
    requires ValidSchema(sch) && Lookup(sch, 255) == Some(Req(255, TStruct(BASE_RESP)))
    requires HasType(TStruct(sch), VStruct(f)) && 255 in f && f[255] == OK_RESP
    requires Writes(TStruct(sch), VStruct(f), w)
    ensures var r := ReadStruct(sch, Zero(sch), Print(w) + tail);
      && r.Ok? && 255 in r.value && IsBaseResp(r.value[255]) && RpcErr(r.value[255]) == None
  {
    hide ReadStruct, Writes, Length, Print, HasType, ValidSchema, Normal, ErrResp, OK_RESP;
    ErrRespTyped(Other([]));
    OkReported();
    FieldArrives(sch, f, w, tail, 255);
    NormOfNormal(TStruct(BASE_RESP), OK_RESP);
  }
}
