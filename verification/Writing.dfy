/**
 What `FastWriteNocopy` may write for a value, how long `BLength` says it is, and what
 reading it back yields.
 */
module Writing {
  import opened Binary
  import opened Wire
  import opened Message
  import opened Options

  // ---------- values of a type

  predicate HasScalar(t: Scalar, v: Val)
  {
    match t
    case SBool => v.VBool?
    case SI32 => v.VInt? && Fits(v.i, 4)
    case SI64 => v.VInt? && Fits(v.i, 8)
    case SDouble => v.VDouble? && Fits(v.bits, 8)
    case SStr => v.VStr? && |v.s| < MAX_SIZE
  }

  /** Structs, lists and maps may be nil; so may an optional field of any type. */
  predicate HasType(ty: Ty, v: Val)
  {
    match ty
    case TScalar(t) => HasScalar(t, v)
    case TStruct(sch) =>
      v.VNil? ||
      (v.VStruct? && v.f.Keys == Ids(sch) &&
       forall i | 0 <= i < |sch| :: sch[i].id in v.f && HasField(sch[i], v.f[sch[i].id]))
    case TList(e) => v.VNil? || (v.VList? && |v.xs| < MAX_SIZE && forall x <- v.xs :: HasType(e, x))
    case TMap(k, t) =>
      v.VNil? || (v.VMap? && |v.m| < MAX_SIZE && forall x <- v.m :: HasScalar(k, x) && HasScalar(t, v.m[x]))
  }

  /** f has a value for every field of sch, which may be a part of its schema. */
  predicate Covers(sch: Schema, f: map<int, Val>)
  {
    forall i | 0 <= i < |sch| :: sch[i].id in f && HasField(sch[i], f[sch[i].id])
  }

  predicate HasFields(sch: Schema, f: map<int, Val>)
  {
    f.Keys == Ids(sch) && Covers(sch, f)
  }

  predicate HasField(fld: Field, v: Val)
  {
    Absent(fld, v) || HasType(fld.ty, v)
  }

  predicate Absent(fld: Field, v: Val)
  {
    fld.optional && v.VNil?
  }

  // ---------- what is written

  function ScalarTree(t: Scalar, v: Val): Tree
    requires HasScalar(t, v)
  {
    match t
    case SBool => Fixed(BOOL, [if v.b then 1 else 0])
    case SI32 => Fixed(I32, PutInt(v.i, 4))
    case SI64 => Fixed(I64, PutInt(v.i, 8))
    case SDouble => Fixed(DOUBLE, PutInt(v.bits, 8))
    case SStr => Text(v.s)
  }

  /** ks is an order in which a loop may visit the keys of m. */
  predicate Visits(ks: seq<Val>, m: map<Val, Val>)
  {
    (forall i, j | 0 <= i < j < |ks| :: ks[i] != ks[j]) && (set x | x in ks) == m.Keys
  }

  function Entries(k: Scalar, t: Scalar, m: map<Val, Val>, ks: seq<Val>): (r: seq<Entry>)
    requires forall x <- ks :: x in m && HasScalar(k, x) && HasScalar(t, m[x])
    ensures |r| == |ks|
  {
    if ks == [] then [] else [Entry(ScalarTree(k, ks[0]), ScalarTree(t, m[ks[0]]))] + Entries(k, t, m, ks[1..])
  }

  /** w is a tree the writer may produce for v: maps are visited in any order, nil is written as empty. */
  ghost predicate Writes(ty: Ty, v: Val, w: Tree)
    requires HasType(ty, v)
  {
    match ty
    case TScalar(t) => w == ScalarTree(t, v)
    case TStruct(sch) =>
      w.Record? && if v.VNil? then w.fields == [] else WritesFields(sch, v.f, w.fields)
    case TList(e) =>
      w.Sequence? && w.t == LIST && w.et == Code(e) &&
      if v.VNil? then w.items == []
      else |w.items| == |v.xs| && forall i | 0 <= i < |v.xs| :: Writes(e, v.xs[i], w.items[i])
    case TMap(k, t) =>
      w.Dictionary? && w.kt == ScalarCode(k) && w.vt == ScalarCode(t) &&
      if v.VNil? then w.entries == [] else exists ks :: Visits(ks, v.m) && w.entries == Entries(k, t, v.m, ks)
  }

  /** The fields of a suffix of the schema, in the schema's order; absent fields are left out. */
  ghost predicate WritesFields(sch: Schema, f: map<int, Val>, ws: seq<Tagged>)
    requires Covers(sch, f)
  {
    if sch == [] then ws == []
    else if Absent(sch[0], f[sch[0].id]) then WritesFields(sch[1..], f, ws)
    else ws != [] && WritesField(sch[0], f[sch[0].id], ws[0]) && WritesFields(sch[1..], f, ws[1..])
  }

  ghost predicate WritesField(fld: Field, v: Val, w: Tagged)
    requires HasType(fld.ty, v)
  {
    w.id == fld.id && Writes(fld.ty, v, w.body)
  }

  // ---------- the value up to normalisation

  /** A nil required struct, list or map becomes the empty one; an absent optional field stays absent. */
  function Norm(ty: Ty, v: Val): Val
    requires HasType(ty, v)
  {
    match ty
    case TScalar(_) => v
    case TStruct(sch) => if v.VNil? then VStruct(Zero(sch)) else VStruct(NormFields(sch, v.f))
    case TList(e) => if v.VNil? then VList([]) else VList(seq(|v.xs|, i requires 0 <= i < |v.xs| => Norm(e, v.xs[i])))
    case TMap(_, _) => if v.VNil? then VMap(map[]) else v
  }

  function NormFields(sch: Schema, f: map<int, Val>): map<int, Val>
    requires HasFields(sch, f)
    decreases sch, 1
  {
    map id | id in Ids(sch) :: NormAt(sch, f, id)
  }

  function NormAt(sch: Schema, f: map<int, Val>, id: int): Val
    requires Covers(sch, f) && id in Ids(sch)
    decreases sch, 0
  {
    var fld := Lookup(sch, id).value;
    assert exists i | 0 <= i < |sch| :: sch[i] == fld;
    NormField(fld, f[id])
  }

  function NormField(fld: Field, v: Val): Val
    requires HasField(fld, v)
  {
    if Absent(fld, v) then VNil else Norm(fld.ty, v)
  }

  // ---------- what is written means the normalised value

  lemma ScalarTreeMeans(t: Scalar, v: Val)
    requires HasScalar(t, v)
    ensures ScalarConforms(t, ScalarTree(t, v)) && ScalarMeaning(t, ScalarTree(t, v)) == v
  {
    match t
    case SBool =>
    case SI32 => GetPutInt(v.i, 4);
    case SI64 => GetPutInt(v.i, 8);
    case SDouble => GetPutInt(v.bits, 8);
    case SStr =>
  }

  lemma {:induction false} WrittenMeansNorm(ty: Ty, v: Val, w: Tree)
    requires ValidTy(ty) && HasType(ty, v) && Writes(ty, v, w)
    ensures Conforms(ty, w) && Meaning(ty, w) == Norm(ty, v)
    decreases ty
  {
    match ty
    case TScalar(t) => ScalarTreeMeans(t, v);
    case TStruct(sch) =>
      if v.VNil? {
        assert Fold(sch, Zero(sch), []) == Zero(sch);
      } else {
        assert sch[0..] == sch;
        WrittenStructMeansNorm(sch, v.f, w.fields);
      }
    case TList(e) =>
      if !v.VNil? {
        forall i | 0 <= i < |v.xs| ensures Conforms(e, w.items[i]) && Meaning(e, w.items[i]) == Norm(e, v.xs[i]) {
          WrittenMeansNorm(e, v.xs[i], w.items[i]);
        }
        MeaningsAt(e, w.items);
      }
    case TMap(k, t) => WrittenMapMeansNorm(k, t, v, w);
  }

  lemma {:induction false} WrittenMapMeansNorm(k: Scalar, t: Scalar, v: Val, w: Tree)
    requires HasType(TMap(k, t), v) && Writes(TMap(k, t), v, w)
    ensures Conforms(TMap(k, t), w) && Meaning(TMap(k, t), w) == Norm(TMap(k, t), v)
  {
    if !v.VNil? {
      var ks :| Visits(ks, v.m) && w.entries == Entries(k, t, v.m, ks);
      VisitedSize(ks, v.m);
      EntriesMean(k, t, v.m, ks, map[]);
      OverlayAll(v.m, ks);
    }
  }

  lemma {:induction false} MeaningsAt(e: Ty, items: seq<Tree>)
    requires forall x <- items :: Conforms(e, x)
    ensures forall i | 0 <= i < |items| :: Meanings(e, items)[i] == Meaning(e, items[i])
  {
    if items != [] {
      MeaningsAt(e, items[1..]);
    }
  }

  lemma {:induction false} VisitedSize(ks: seq<Val>, m: map<Val, Val>)
    requires Visits(ks, m)
    ensures |ks| == |m|
  {
    DistinctSize(ks);
    assert |m| == |m.Keys|;
  }

  lemma {:induction false} DistinctSize(ks: seq<Val>)
    requires forall i, j | 0 <= i < j < |ks| :: ks[i] != ks[j]
    ensures |set x | x in ks| == |ks|
  {
    if ks != [] {
      DistinctSize(ks[1..]);
      assert (set x | x in ks) == (set x | x in ks[1..]) + {ks[0]};
    }
  }

  function Overlay(acc: map<Val, Val>, m: map<Val, Val>, ks: seq<Val>): map<Val, Val>
    requires forall x <- ks :: x in m
    decreases |ks|
  {
    if ks == [] then acc else Overlay(acc[ks[0] := m[ks[0]]], m, ks[1..])
  }

  lemma {:induction false} OverlayAt(acc: map<Val, Val>, m: map<Val, Val>, ks: seq<Val>, x: Val)
    requires forall y <- ks :: y in m
    ensures x in Overlay(acc, m, ks) <==> x in acc || x in ks
    ensures x in Overlay(acc, m, ks) ==> Overlay(acc, m, ks)[x] == if x in ks then m[x] else acc[x]
    decreases |ks|
  {
    if ks != [] {
      OverlayAt(acc[ks[0] := m[ks[0]]], m, ks[1..], x);
      assert ks == [ks[0]] + ks[1..];
    }
  }

  lemma {:induction false} OverlayAll(m: map<Val, Val>, ks: seq<Val>)
    requires Visits(ks, m)
    ensures forall y <- ks :: y in m
    ensures Overlay(map[], m, ks) == m
  {
    assert forall y <- ks :: y in (set x | x in ks);
    forall x ensures x in Overlay(map[], m, ks) <==> x in m
      ensures x in m ==> Overlay(map[], m, ks)[x] == m[x]
    {
      assert x in (set y | y in ks) <==> x in ks;
      OverlayAt(map[], m, ks, x);
    }
  }

  lemma {:induction false} EntriesMean(k: Scalar, t: Scalar, m: map<Val, Val>, ks: seq<Val>, acc: map<Val, Val>)
    requires forall x <- ks :: x in m && HasScalar(k, x) && HasScalar(t, m[x])
    ensures var entries := Entries(k, t, m, ks);
      && |entries| == |ks|
      && (forall x <- entries :: EntryConforms(k, t, x))
      && EntriesMeaning(k, t, entries, acc) == Overlay(acc, m, ks)
    decreases |ks|
  {
    if ks != [] {
      var entries := Entries(k, t, m, ks);
      assert entries[1..] == Entries(k, t, m, ks[1..]);
      ScalarTreeMeans(k, ks[0]);
      ScalarTreeMeans(t, m[ks[0]]);
      EntriesMean(k, t, m, ks[1..], acc[ks[0] := m[ks[0]]]);
    }
  }

  lemma {:induction false} WrittenStructMeansNorm(sch: Schema, f: map<int, Val>, ws: seq<Tagged>)
    requires ValidSchema(sch) && HasFields(sch, f) && WritesFields(sch, f, ws)
    ensures forall w <- ws :: TaggedConforms(sch, w)
    ensures Fold(sch, Zero(sch), ws) == NormFields(sch, f)
    decreases sch, 1
  {
    forall i | 0 <= i < |sch| ensures ValidField(sch[i]) && Lookup(sch, sch[i].id) == Some(sch[i]) {
      LookupDeclared(sch, i);
    }
    WrittenFieldsConform(sch, sch, f, ws);
    var a, b := Fold(sch, Zero(sch), ws), NormFields(sch, f);
    forall id ensures id in a <==> id in b ensures id in a ==> a[id] == b[id] {
      WrittenFieldsLast(sch, sch, f, ws, id);
      FoldAt(sch, Zero(sch), ws, id);
      FieldNormalises(sch, f, id);
    }
  }

  /** An absent field keeps its zero value, which is its normal form. */
  lemma {:induction false} FieldNormalises(sch: Schema, f: map<int, Val>, id: int)
    requires HasFields(sch, f)
    ensures id in NormFields(sch, f) <==> Lookup(sch, id).Some?
    ensures id in Zero(sch) <==> Lookup(sch, id).Some?
    ensures Lookup(sch, id).Some? ==>
      var fld := Lookup(sch, id).value;
      && fld.id in f && HasField(fld, f[id])
      && NormFields(sch, f)[id] == if Absent(fld, f[id]) then Zero(sch)[id] else Norm(fld.ty, f[id])
  {
    if Lookup(sch, id).Some? {
      var fld := Lookup(sch, id).value;
      var i :| 0 <= i < |sch| && sch[i] == fld;
      assert NormFields(sch, f)[id] == NormAt(sch, f, id) == NormField(fld, f[id]);
      assert Zero(sch)[id] == ZeroField(fld);
    }
  }

  lemma {:induction false} WrittenFieldsConform(full: Schema, sch: Schema, f: map<int, Val>, ws: seq<Tagged>)
    requires Covers(sch, f)
    requires forall i | 0 <= i < |sch| :: ValidField(sch[i]) && Lookup(full, sch[i].id) == Some(sch[i])
    requires WritesFields(sch, f, ws)
    ensures forall w <- ws :: TaggedConforms(full, w)
    decreases sch, 0
  {
    if sch != [] {
      if Absent(sch[0], f[sch[0].id]) {
        WrittenFieldsConform(full, sch[1..], f, ws);
      } else {
        WrittenFieldMeansNorm(full, sch[0], f[sch[0].id], ws[0]);
        WrittenFieldsConform(full, sch[1..], f, ws[1..]);
      }
    }
  }

  lemma {:induction false} WrittenFieldMeansNorm(full: Schema, fld: Field, v: Val, w: Tagged)
    requires HasType(fld.ty, v) && ValidField(fld) && Lookup(full, fld.id) == Some(fld)
    requires WritesField(fld, v, w)
    ensures TaggedConforms(full, w) && Accepts(full, TypeOf(w.body), w.id)
    ensures FieldMeaning(full, w) == Norm(fld.ty, v)
    decreases fld
  {
    WrittenMeansNorm(fld.ty, v, w.body);
  }

  /** The value the reader ends up with for each id, for the fields written from a suffix of the schema. */
  lemma {:induction false} WrittenFieldsLast(full: Schema, sch: Schema, f: map<int, Val>, ws: seq<Tagged>, id: int)
    requires forall i, j | 0 <= i < j < |sch| :: sch[i].id != sch[j].id
    requires Covers(sch, f)
    requires forall i | 0 <= i < |sch| :: ValidField(sch[i]) && Lookup(full, sch[i].id) == Some(sch[i])
    requires WritesFields(sch, f, ws)
    requires forall w <- ws :: TaggedConforms(full, w)
    ensures Last(full, ws, id) ==
      match Lookup(sch, id)
      case None => None
      case Some(fld) => if Absent(fld, f[id]) then None else Some(Norm(fld.ty, f[id]))
    decreases sch, 0
  {
    if sch != [] {
      if Absent(sch[0], f[sch[0].id]) {
        WrittenFieldsLast(full, sch[1..], f, ws, id);
      } else {
        WrittenFieldMeansNorm(full, sch[0], f[sch[0].id], ws[0]);
        WrittenFieldsLast(full, sch[1..], f, ws[1..], id);
        assert ws == [ws[0]] + ws[1..];
        LastAppend(full, [ws[0]], ws[1..], id);
      }
    }
  }

  // ---------- BLength

  function ScalarLength(t: Scalar, v: Val): nat
    requires HasScalar(t, v)
  {
    if t.SStr? then 4 + |v.s| else FixedSize(ScalarCode(t))
  }

  ghost function Length(ty: Ty, v: Val): nat
    requires HasType(ty, v)
    decreases ty, 0
  {
    match ty
    case TScalar(t) => ScalarLength(t, v)
    case TStruct(sch) => if v.VNil? then 1 else FieldsLength(sch, v.f) + 1
    case TList(e) => if v.VNil? then 5 else 5 + ItemsLength(e, v.xs)
    case TMap(k, t) => if v.VNil? then 6 else 6 + EntriesLength(k, t, v.m, v.m.Keys)
  }

  ghost function FieldsLength(sch: Schema, f: map<int, Val>): nat
    requires Covers(sch, f)
    decreases sch
  {
    if sch == [] then 0 else FieldLength(sch[0], f[sch[0].id]) + FieldsLength(sch[1..], f)
  }

  ghost function FieldLength(fld: Field, v: Val): nat
    requires HasField(fld, v)
  {
    if Absent(fld, v) then 0 else 3 + Length(fld.ty, v)
  }

  ghost function ItemsLength(e: Ty, xs: seq<Val>): nat
    requires forall x <- xs :: HasType(e, x)
    decreases e, 1, |xs|
  {
    if xs == [] then 0 else Length(e, xs[0]) + ItemsLength(e, xs[1..])
  }

  ghost function EntriesLength(k: Scalar, t: Scalar, m: map<Val, Val>, keys: set<Val>): nat
    requires keys <= m.Keys && forall x <- keys :: HasScalar(k, x) && HasScalar(t, m[x])
  {
    if keys == {} then 0
    else
      var x :| x in keys;
      ScalarLength(k, x) + ScalarLength(t, m[x]) + EntriesLength(k, t, m, keys - {x})
  }

  /** The sum over a map does not depend on the order in which the entries are visited. */
  lemma {:induction false} EntriesLengthMinus(k: Scalar, t: Scalar, m: map<Val, Val>, keys: set<Val>, y: Val)
    requires keys <= m.Keys && forall x <- keys :: HasScalar(k, x) && HasScalar(t, m[x])
    requires y in keys
    ensures EntriesLength(k, t, m, keys)
         == ScalarLength(k, y) + ScalarLength(t, m[y]) + EntriesLength(k, t, m, keys - {y})
    decreases keys
  {
    var x :| x in keys && EntriesLength(k, t, m, keys)
      == ScalarLength(k, x) + ScalarLength(t, m[x]) + EntriesLength(k, t, m, keys - {x});
    if x != y {
      EntriesLengthMinus(k, t, m, keys - {x}, y);
      EntriesLengthMinus(k, t, m, keys - {y}, x);
      assert keys - {x} - {y} == keys - {y} - {x};
    }
  }

  /** The closed forms the generated code uses for entries and elements of fixed size. */
  lemma {:induction false} FixedEntriesLength(k: Scalar, t: Scalar, m: map<Val, Val>, keys: set<Val>, size: nat)
    requires keys <= m.Keys && forall x <- keys :: HasScalar(k, x) && HasScalar(t, m[x])
    requires forall x <- keys :: ScalarLength(k, x) + ScalarLength(t, m[x]) == size
    ensures EntriesLength(k, t, m, keys) == size * |keys|
    decreases keys
  {
    if keys != {} {
      var y :| y in keys;
      EntriesLengthMinus(k, t, m, keys, y);
      FixedEntriesLength(k, t, m, keys - {y}, size);
      Times(size, |keys|);
    }
  }

  lemma Times(a: nat, b: nat)
    requires b > 0
    ensures a * b == a * (b - 1) + a
  {}

  /** The length of the i64-to-i32 map of AnalyticsStats. */
  lemma FixedMapLength(m: map<Val, Val>)
    requires HasType(TMap(SI64, SI32), VMap(m))
    ensures Length(TMap(SI64, SI32), VMap(m)) == 6 + (8 + 4) * |m|
  {
    FixedEntriesLength(SI64, SI32, m, m.Keys, 12);
  }

  lemma {:induction false} FixedItemsLength(t: Scalar, xs: seq<Val>)
    requires !t.SStr? && forall x <- xs :: HasType(TScalar(t), x)
    ensures ItemsLength(TScalar(t), xs) == FixedSize(ScalarCode(t)) * |xs|
    decreases |xs|
  {
    if xs != [] {
      FixedItemsLength(t, xs[1..]);
    }
  }

  lemma EntryPrintedLength(k: Scalar, t: Scalar, x: Val, v: Val)
    requires HasScalar(k, x) && HasScalar(t, v)
    ensures |PrintEntry(Entry(ScalarTree(k, x), ScalarTree(t, v)))| == ScalarLength(k, x) + ScalarLength(t, v)
  {}

  lemma {:induction false} EntriesPrintedLength(k: Scalar, t: Scalar, m: map<Val, Val>, ks: seq<Val>)
    requires forall x <- ks :: x in m && HasScalar(k, x) && HasScalar(t, m[x])
    requires forall i, j | 0 <= i < j < |ks| :: ks[i] != ks[j]
    ensures |PrintEntries(Entries(k, t, m, ks))| == EntriesLength(k, t, m, set x | x in ks)
    decreases |ks|
  {
    var keys := set x | x in ks;
    hide PrintEntry, ScalarLength, ScalarTree, HasScalar, PrintItems, PrintFields, Print;
    if ks != [] {
      hide EntriesLength;
      var entries := Entries(k, t, m, ks);
      assert entries[1..] == Entries(k, t, m, ks[1..]);
      EntryPrintedLength(k, t, ks[0], m[ks[0]]);
      EntriesLengthMinus(k, t, m, keys, ks[0]);
      assert keys - {ks[0]} == set x | x in ks[1..];
      EntriesPrintedLength(k, t, m, ks[1..]);
    }
  }

  /** Whatever order the maps were written in, the bytes written are as many as BLength says. */
  lemma {:induction false} WrittenLength(ty: Ty, v: Val, w: Tree)
    requires HasType(ty, v) && Writes(ty, v, w)
    ensures |Print(w)| == Length(ty, v)
    decreases ty, 1
  {
    match ty
    case TScalar(t) =>
    case TStruct(sch) => if !v.VNil? { WrittenFieldsLength(sch, v.f, w.fields); }
    case TList(e) => if !v.VNil? { WrittenItemsLength(e, v.xs, w.items); }
    case TMap(k, t) =>
      if !v.VNil? {
        var ks :| Visits(ks, v.m) && w.entries == Entries(k, t, v.m, ks);
        EntriesPrintedLength(k, t, v.m, ks);
      }
  }

  lemma {:induction false} WrittenItemsLength(e: Ty, xs: seq<Val>, items: seq<Tree>)
    requires |xs| == |items| && forall i | 0 <= i < |xs| :: HasType(e, xs[i]) && Writes(e, xs[i], items[i])
    ensures |PrintItems(items)| == ItemsLength(e, xs)
    decreases e, 2, |xs|
  {
    if xs != [] {
      WrittenLength(e, xs[0], items[0]);
      WrittenItemsLength(e, xs[1..], items[1..]);
    }
  }

  lemma {:induction false} WrittenFieldsLength(sch: Schema, f: map<int, Val>, ws: seq<Tagged>)
    requires Covers(sch, f)
    requires WritesFields(sch, f, ws)
    ensures |PrintFields(ws)| == FieldsLength(sch, f) + 1
    decreases sch
  {
    if sch != [] {
      if Absent(sch[0], f[sch[0].id]) {
        WrittenFieldsLength(sch[1..], f, ws);
      } else {
        WrittenFieldLength(sch[0], f[sch[0].id], ws[0]);
        WrittenFieldsLength(sch[1..], f, ws[1..]);
      }
    }
  }

  lemma {:induction false} WrittenFieldLength(fld: Field, v: Val, w: Tagged)
    requires HasType(fld.ty, v) && WritesField(fld, v, w)
    ensures |PrintTagged(w)| == 3 + Length(fld.ty, v)
    decreases fld
  {
    WrittenLength(fld.ty, v, w.body);
  }

  // ---------- the round trip

  /** Written in any map order and followed by anything, a value reads back as itself up to normalisation. */
  lemma {:induction false} RoundTrip(ty: Ty, v: Val, w: Tree, tail: Bytes)
    requires ValidTy(ty) && HasType(ty, v) && Writes(ty, v, w)
    ensures ReadVal(ty, Print(w) + tail) == Ok(Norm(ty, v), Length(ty, v))
  {
    WrittenMeansNorm(ty, v, w);
    TreeReadsBack(ty, w, tail);
    WrittenLength(ty, v, w);
  }

  /** The same for a message: FastRead into a new struct. */
  lemma {:induction false} StructRoundTrip(sch: Schema, f: map<int, Val>, w: Tree, tail: Bytes)
    requires ValidSchema(sch) && HasType(TStruct(sch), VStruct(f)) && Writes(TStruct(sch), VStruct(f), w)
    ensures HasFields(sch, f)
    ensures ReadStruct(sch, Zero(sch), Print(w) + tail) == Ok(NormFields(sch, f), Length(TStruct(sch), VStruct(f)))
  {
    hide ReadStruct, Writes, Length, Print, NormFields, Zero;
    assert ValidTy(TStruct(sch));
    RoundTrip(TStruct(sch), VStruct(f), w, tail);
    ReadValStruct(sch, Print(w) + tail);
    assert Norm(TStruct(sch), VStruct(f)) == VStruct(NormFields(sch, f));
  }

  lemma StructTyped(sch: Schema, f: map<int, Val>)
    requires f.Keys == Ids(sch) && forall i | 0 <= i < |sch| :: sch[i].id in f && HasField(sch[i], f[sch[i].id])
    ensures HasType(TStruct(sch), VStruct(f)) && HasFields(sch, f)
    ensures (forall i | 0 <= i < |sch| :: NormalField(sch[i], f[sch[i].id])) ==> Normal(TStruct(sch), VStruct(f))
  {}

  /** Normalisation field by field. */
  lemma {:induction false} NormFieldsAre(sch: Schema, f: map<int, Val>, g: map<int, Val>)
    requires ValidSchema(sch) && HasFields(sch, f) && g.Keys == Ids(sch)
    requires forall i | 0 <= i < |sch| :: sch[i].id in g && g[sch[i].id] == NormField(sch[i], f[sch[i].id])
    ensures NormFields(sch, f) == g
  {
    hide NormField, HasField, ValidSchema;
    forall id | id in g ensures NormFields(sch, f)[id] == g[id] {
      var i :| 0 <= i < |sch| && sch[i].id == id;
      LookupDeclared(sch, i);
    }
  }

  lemma {:induction false} ReadValStruct(sch: Schema, s: Bytes)
    ensures ReadVal(TStruct(sch), s).Ok? ==>
      var r := ReadStruct(sch, Zero(sch), s);
      r.Ok? && ReadVal(TStruct(sch), s) == Ok(VStruct(r.value), r.n)
  {}

  /** No required struct, list or map is nil, at any depth. */
  predicate Normal(ty: Ty, v: Val)
    requires HasType(ty, v)
  {
    !(v.VNil?) &&
    match ty
    case TScalar(_) => true
    case TStruct(sch) => forall i | 0 <= i < |sch| :: NormalField(sch[i], v.f[sch[i].id])
    case TList(e) => forall x <- v.xs :: Normal(e, x)
    case TMap(_, _) => true
  }

  predicate NormalField(fld: Field, v: Val)
    requires HasField(fld, v)
  {
    Absent(fld, v) || Normal(fld.ty, v)
  }

  /** Normalisation leaves a value without such nils alone, so it reads back exactly. */
  lemma {:induction false} NormOfNormal(ty: Ty, v: Val)
    requires HasType(ty, v) && Normal(ty, v)
    ensures Norm(ty, v) == v
    decreases ty
  {
    match ty
    case TScalar(_) =>
    case TStruct(sch) =>
      forall i | 0 <= i < |sch| ensures NormField(sch[i], v.f[sch[i].id]) == v.f[sch[i].id] {
        NormOfNormalField(sch[i], v.f[sch[i].id]);
      }
      assert NormFields(sch, v.f) == v.f;
    case TList(e) =>
      forall x | x in v.xs ensures Norm(e, x) == x { NormOfNormal(e, x); }
    case TMap(_, _) =>
  }

  lemma {:induction false} NormOfNormalField(fld: Field, v: Val)
    requires HasField(fld, v) && NormalField(fld, v)
    ensures NormField(fld, v) == v
    decreases fld
  {
    if !Absent(fld, v) {
      NormOfNormal(fld.ty, v);
    }
  }
}
