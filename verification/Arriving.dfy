/** How the fields of a message arrive: as what normalisation makes of them. */
module Arriving {
  import opened Binary
  import opened Wire
  import opened Message
  import opened Writing
  import opened Schemas
  import opened Transport

  /** The field may hold v, and then arrives as v'. */
  predicate Arrives(fld: Field, v: Val, v': Val)
  {
    HasField(fld, v) && NormField(fld, v) == v'
  }

  /** A message with the fields f arrives with the fields g. */
  predicate AllArrive(sch: Schema, f: map<int, Val>, g: map<int, Val>)
  {
    && f.Keys == Ids(sch) && g.Keys == Ids(sch)
    && forall i | 0 <= i < |sch| :: sch[i].id in f && sch[i].id in g && Arrives(sch[i], f[sch[i].id], g[sch[i].id])
  }

  lemma StringArrives(id: int, s: Bytes)
    requires |s| < MAX_SIZE
    ensures Arrives(Req(id, STR), VStr(s), VStr(s))
  {}

  lemma NumbersArrive(id: int, i: int)
    ensures Fits(i, 8) ==> Arrives(Req(id, INT64), VInt(i), VInt(i)) && Arrives(Opt(id, INT64), VInt(i), VInt(i))
    ensures Fits(i, 4) ==> Arrives(Req(id, INT32), VInt(i), VInt(i))
  {}

  lemma NilArrives(id: int, ty: Ty)
    ensures Arrives(Opt(id, ty), VNil, VNil)
  {}

  lemma FlagArrives(id: int, b: bool)
    ensures Arrives(Req(id, FLAG), VBool(b), VBool(b))
  {}

  lemma {:induction false} ValueArrives(fld: Field, v: Val)
    requires HasType(fld.ty, v) && Normal(fld.ty, v)
    ensures Arrives(fld, v, v)
  {
    NormOfNormal(fld.ty, v);
  }

  lemma AllTyped(sch: Schema, f: map<int, Val>, g: map<int, Val>)
    requires AllArrive(sch, f, g)
    ensures HasType(TStruct(sch), VStruct(f)) && HasFields(sch, f)
  {
    StructTyped(sch, f);
  }

  lemma {:induction false} StructArrives(fld: Field, sch: Schema, f: map<int, Val>, g: map<int, Val>)
    requires fld.ty == TStruct(sch) && ValidSchema(sch) && AllArrive(sch, f, g)
    ensures HasType(TStruct(sch), VStruct(f)) && Arrives(fld, VStruct(f), VStruct(g))
    ensures Norm(TStruct(sch), VStruct(f)) == VStruct(g)
  {
    AllTyped(sch, f, g);
    NormFieldsAre(sch, f, g);
    hide NormFields, HasFields, AllArrive, ValidSchema;
    assert Norm(TStruct(sch), VStruct(f)) == VStruct(NormFields(sch, f));
  }

  lemma {:induction false} ListArrives(fld: Field, e: Ty, xs: seq<Val>)
    requires fld.ty == TList(e) && |xs| < MAX_SIZE && forall x <- xs :: HasType(e, x) && Norm(e, x) == x
    ensures Arrives(fld, VList(xs), VList(xs))
  {
    assert HasType(TList(e), VList(xs));
    assert Norm(TList(e), VList(xs)).xs == xs;
  }

  /** Whatever order its maps are written in and whatever bytes follow. */
  lemma {:induction false} MessageArrives(sch: Schema, f: map<int, Val>, g: map<int, Val>, w: Tree, tail: Bytes)
    requires ValidSchema(sch) && AllArrive(sch, f, g)
    requires HasType(TStruct(sch), VStruct(f)) && Writes(TStruct(sch), VStruct(f), w)
    ensures ReadStruct(sch, Zero(sch), Print(w) + tail) == Ok(g, Length(TStruct(sch), VStruct(f)))
  {
    hide ReadStruct, Writes, Length, Print, Zero, NormFields, AllArrive, HasType, ValidSchema;
    StructArrives(Req(0, TStruct(sch)), sch, f, g);
    StructRoundTrip(sch, f, w, tail);
    assert Norm(TStruct(sch), VStruct(f)) == VStruct(NormFields(sch, f));
  }

  // ---------- the gateway's Base

  const GATEWAY: map<int, Val> :=
    map[1 := VStr([]), 2 := VStr([]), 3 := VStr([]), 4 := VStr(Ascii("gateway")), 5 := VNil]

  lemma GatewayArrives(id: int)
    ensures Arrives(Req(id, TStruct(BASE)), VStruct(GATEWAY), VStruct(GATEWAY))
  {
    BaseIds();
    StringArrives(1, []);
    StringArrives(2, []);
    StringArrives(3, []);
    StringArrives(4, Ascii("gateway"));
    NilArrives(5, TMap(SStr, SStr));
    GatewayFields();
    SimpleSchemasValid();
    hide Arrives, BASE, Ids, GATEWAY, Ascii, ValidSchema;
    assert AllArrive(BASE, GATEWAY, GATEWAY);
    StructArrives(Req(id, TStruct(BASE)), BASE, GATEWAY, GATEWAY);
  }

  lemma GatewayFields()
    ensures GATEWAY.Keys == {1, 2, 3, 4, 5} && GATEWAY[1] == VStr([]) && GATEWAY[2] == VStr([])
    ensures GATEWAY[3] == VStr([]) && GATEWAY[4] == VStr(Ascii("gateway")) && GATEWAY[5] == VNil
  {}
}
