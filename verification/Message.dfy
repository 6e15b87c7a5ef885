/**
 Message types as schemas, message values, and what `FastRead` makes of a byte sequence:
 first directly on the bytes, then as a fold over the fields of a wire tree.
 */
module Message {
  import opened Binary
  import opened Options
  import opened Wire

  datatype Scalar = SBool | SI32 | SI64 | SDouble | SStr
  datatype Ty =
    | TScalar(s: Scalar)
    | TStruct(schema: seq<Field>)
    | TList(elem: Ty)
    | TMap(key: Scalar, val: Scalar)
  datatype Field = Field(id: int, ty: Ty, optional: bool)
  type Schema = seq<Field>                                     // in the writer's order

  /** A Go value: VNil is a nil pointer, slice or map; doubles are their 64-bit patterns. */
  datatype Val =
    | VNil
    | VBool(b: bool)
    | VInt(i: int)
    | VDouble(bits: int)
    | VStr(s: Bytes)
    | VStruct(f: map<int, Val>)
    | VList(xs: seq<Val>)
    | VMap(m: map<Val, Val>)

  // ---------- types

  function ScalarCode(t: Scalar): Byte
  {
    match t
    case SBool => BOOL
    case SI32 => I32
    case SI64 => I64
    case SDouble => DOUBLE
    case SStr => STRING
  }

  function Code(ty: Ty): Byte
  {
    match ty
    case TScalar(s) => ScalarCode(s)
    case TStruct(_) => STRUCT
    case TList(_) => LIST
    case TMap(_, _) => MAP
  }

  predicate ValidSchema(sch: Schema)
  {
    && (forall i, j | 0 <= i < j < |sch| :: sch[i].id != sch[j].id)
    && (forall f <- sch :: ValidField(f))
  }

  predicate ValidField(f: Field)
  {
    Fits(f.id, 2) && ValidTy(f.ty)
  }

  predicate ValidTy(ty: Ty)
  {
    match ty
    case TScalar(_) => true
    case TStruct(sch) => ValidSchema(sch)
    case TList(e) => ValidTy(e)
    case TMap(_, _) => true
  }

  function Lookup(sch: Schema, id: int): (r: Option<Field>)
    ensures r.Some? ==> r.value in sch && r.value.id == id
    ensures r.None? ==> forall f <- sch :: f.id != id
  {
    if sch == [] then None
    else if sch[0].id == id then Some(sch[0])
    else Lookup(sch[1..], id)
  }

  function Ids(sch: Schema): set<int>
  {
    set f | f in sch :: f.id
  }

  lemma {:induction false} LookupDeclared(sch: Schema, i: nat)
    requires ValidSchema(sch) && i < |sch|
    ensures Lookup(sch, sch[i].id) == Some(sch[i])
  {
    if i > 0 {
      LookupDeclared(sch[1..], i - 1);
    }
  }

  /** The reader takes the field for the struct instead of skipping it. */
  predicate Accepts(sch: Schema, t: int, id: int)
  {
    var r := Lookup(sch, id);
    r.Some? && Code(r.value.ty) == t
  }

  function ZeroScalar(t: Scalar): Val
  {
    match t
    case SBool => VBool(false)
    case SI32 => VInt(0)
    case SI64 => VInt(0)
    case SDouble => VDouble(0)
    case SStr => VStr([])
  }

  function ZeroField(fld: Field): Val
  {
    if fld.ty.TScalar? && !fld.optional then ZeroScalar(fld.ty.s) else VNil
  }

  /** The fields of a freshly made struct. */
  function Zero(sch: Schema): map<int, Val>
  {
    map id | id in Ids(sch) :: ZeroField(Lookup(sch, id).value)
  }

  /** A message without fields is one stop byte: required scalars are zero or empty, all else is nil. */
  lemma {:induction false} FreshFields(sch: Schema, i: nat)
    requires ValidSchema(sch) && i < |sch|
    ensures var r := ReadStruct(sch, Zero(sch), [0]); r.Ok? && r.n == 1 && r.value == Zero(sch)
    ensures sch[i].id in Zero(sch) && Zero(sch)[sch[i].id] ==
      if sch[i].optional then VNil else
      match sch[i].ty
      case TScalar(SBool) => VBool(false)
      case TScalar(SI32) => VInt(0)
      case TScalar(SI64) => VInt(0)
      case TScalar(SDouble) => VDouble(0)
      case TScalar(SStr) => VStr([])
      case _ => VNil
  {
    LookupDeclared(sch, i);
    assert sch[i] in sch;
  }

  // ---------- FastRead on bytes

  function ReadScalar(t: Scalar, s: Bytes): (r: Read<Val>)
    ensures r.n <= |s|
    ensures if r.Ok? then r.n >= 1 else r.n == 0
  {
    match t
    case SBool => (match ReadBool(s) case Ok(b, n) => Ok(VBool(b), n) case Err(_) => Err(0))
    case SI32 => (match ReadInt(s, 4) case Ok(i, n) => Ok(VInt(i), n) case Err(_) => Err(0))
    case SI64 => (match ReadInt(s, 8) case Ok(i, n) => Ok(VInt(i), n) case Err(_) => Err(0))
    case SDouble => (match ReadInt(s, 8) case Ok(i, n) => Ok(VDouble(i), n) case Err(_) => Err(0))
    case SStr => (match ReadString(s) case Ok(b, n) => Ok(VStr(b), n) case Err(_) => Err(0))
  }

  function Shift<T>(n: nat, r: Read<T>): Read<T>
  {
    match r
    case Ok(v, m) => Ok(v, n + m)
    case Err(m) => Err(n + m)
  }

  /** FastReadFieldN: the offset reported on failure does not count a nested struct that failed. */
  function ReadVal(ty: Ty, s: Bytes): (r: Read<Val>)
    ensures r.n <= |s|
    ensures r.Ok? ==> r.n >= 1
    decreases |s|, 1
  {
    match ty
    case TScalar(t) => ReadScalar(t, s)
    case TStruct(sch) =>
      (match ReadStruct(sch, Zero(sch), s)
       case Ok(p, n) => Ok(VStruct(p), n)
       case Err(_) => Err(0))
    case TList(e) =>
      (match ReadListBegin(s)
       case Err(n) => Err(n)
       case Ok((_, size), n) =>
         match ReadItems(e, size, s[n..])
         case Ok(xs, m) => Ok(VList(xs), n + m)
         case Err(m) => Err(n + m))
    case TMap(k, v) =>
      (match ReadMapBegin(s)
       case Err(n) => Err(n)
       case Ok((_, _, size), n) =>
         match ReadEntries(k, v, size, map[], s[n..])
         case Ok(m, l) => Ok(VMap(m), n + l)
         case Err(l) => Err(n + l))
  }

  function ReadItems(e: Ty, size: nat, s: Bytes): (r: Read<seq<Val>>)
    ensures r.n <= |s|
    ensures r.Ok? ==> |r.value| == size
    decreases |s|, 2
  {
    if size == 0 then Ok([], 0)
    else
      match ReadVal(e, s)
      case Err(_) => Err(0)
      case Ok(x, n) =>
        match ReadItems(e, size - 1, s[n..])
        case Ok(xs, m) => Ok([x] + xs, n + m)
        case Err(m) => Err(n + m)
  }

  function ReadEntries(k: Scalar, v: Scalar, size: nat, acc: map<Val, Val>, s: Bytes): (r: Read<map<Val, Val>>)
    ensures r.n <= |s|
    decreases size
  {
    if size == 0 then Ok(acc, 0)
    else
      match ReadEntry(k, v, s)
      case Err(n) => Err(n)
      case Ok((key, val), n) => Shift(n, ReadEntries(k, v, size - 1, acc[key := val], s[n..]))
  }

  function ReadEntry(k: Scalar, v: Scalar, s: Bytes): (r: Read<(Val, Val)>)
    ensures r.n <= |s|
  {
    match ReadScalar(k, s)
    case Err(_) => Err(0)
    case Ok(key, n) =>
      match ReadScalar(v, s[n..])
      case Err(_) => Err(n)
      case Ok(val, m) => Ok((key, val), n + m)
  }

  /** One field whose header has been read: taken into p, or skipped. */
  function ReadField(sch: Schema, p: map<int, Val>, t: int, id: int, s: Bytes): (r: Read<map<int, Val>>)
    ensures r.n <= |s|
    decreases |s|, 2
  {
    if Accepts(sch, t, id) then
      match ReadVal(Lookup(sch, id).value.ty, s)
      case Ok(v, n) => Ok(p[id := v], n)
      case Err(n) => Err(n)
    else
      match Skip(s, t)
      case Ok(_, n) => Ok(p, n)
      case Err(n) => Err(n)
  }

  /** FastRead into a struct whose fields are p. */
  function ReadStruct(sch: Schema, p: map<int, Val>, s: Bytes): (r: Read<map<int, Val>>)
    ensures r.n <= |s|
    ensures r.Ok? ==> r.n >= 1
    decreases |s|, 0
  {
    match ReadFieldBegin(s)
    case Err(n) => Err(n)
    case Ok((t, id), n) =>
      if t == STOP then Ok(p, n)
      else
        match ReadField(sch, p, t, id, s[n..])
        case Err(m) => Err(n + m)
        case Ok(q, m) => Shift(n + m, ReadStruct(sch, q, s[n + m..]))
  }

  // ---------- FastRead on wire trees

  /** A tree FastRead of type ty accepts: the headers of lists and maps may announce any element type. */
  predicate Conforms(ty: Ty, w: Tree)
    decreases w, 1
  {
    Framed(w) && TypeOf(w) == Code(ty) &&
    match ty
    case TScalar(_) => true
    case TStruct(sch) => w.Record? && forall f <- w.fields :: TaggedConforms(sch, f)
    case TList(e) => w.Sequence? && forall x <- w.items :: Conforms(e, x)
    case TMap(k, v) => w.Dictionary? && forall x <- w.entries :: EntryConforms(k, v, x)
  }

  predicate TaggedConforms(sch: Schema, f: Tagged)
    decreases f, 0
  {
    Fits(f.id, 2) &&
    if Accepts(sch, TypeOf(f.body), f.id) then Conforms(Lookup(sch, f.id).value.ty, f.body)
    else WellFormed(f.body)
  }

  predicate EntryConforms(k: Scalar, v: Scalar, x: Entry)
  {
    ScalarConforms(k, x.key) && ScalarConforms(v, x.val)
  }

  predicate ScalarConforms(t: Scalar, w: Tree)
  {
    Framed(w) && TypeOf(w) == ScalarCode(t)
  }

  function ScalarMeaning(t: Scalar, w: Tree): Val
    requires ScalarConforms(t, w)
  {
    match t
    case SBool => VBool(w.raw[0] == 1)
    case SI32 => VInt(GetInt(w.raw))
    case SI64 => VInt(GetInt(w.raw))
    case SDouble => VDouble(GetInt(w.raw))
    case SStr => VStr(w.raw)
  }

  function Meaning(ty: Ty, w: Tree): Val
    requires Conforms(ty, w)
    decreases w, 1
  {
    match ty
    case TScalar(t) => ScalarMeaning(t, w)
    case TStruct(sch) => VStruct(Fold(sch, Zero(sch), w.fields))
    case TList(e) => VList(Meanings(e, w.items))
    case TMap(k, v) => VMap(EntriesMeaning(k, v, w.entries, map[]))
  }

  function Meanings(e: Ty, items: seq<Tree>): (xs: seq<Val>)
    requires forall x <- items :: Conforms(e, x)
    ensures |xs| == |items|
    decreases items, 0
  {
    if items == [] then [] else [Meaning(e, items[0])] + Meanings(e, items[1..])
  }

  function AddEntry(k: Scalar, v: Scalar, x: Entry, acc: map<Val, Val>): map<Val, Val>
    requires EntryConforms(k, v, x)
  {
    acc[ScalarMeaning(k, x.key) := ScalarMeaning(v, x.val)]
  }

  function EntriesMeaning(k: Scalar, v: Scalar, entries: seq<Entry>, acc: map<Val, Val>): map<Val, Val>
    requires forall x <- entries :: EntryConforms(k, v, x)
  {
    if entries == [] then acc
    else
      assert EntryConforms(k, v, entries[0]);
      EntriesMeaning(k, v, entries[1..], AddEntry(k, v, entries[0], acc))
  }

  /** The struct after the fields fs have arrived in order. */
  function Fold(sch: Schema, p: map<int, Val>, fs: seq<Tagged>): map<int, Val>
    requires forall f <- fs :: TaggedConforms(sch, f)
    decreases fs, 0
  {
    if fs == [] then p else Fold(sch, Take(sch, p, fs[0]), fs[1..])
  }

  function Take(sch: Schema, p: map<int, Val>, f: Tagged): map<int, Val>
    requires TaggedConforms(sch, f)
    decreases f, 1
  {
    if Accepts(sch, TypeOf(f.body), f.id) then p[f.id := FieldMeaning(sch, f)] else p
  }

  function FieldMeaning(sch: Schema, f: Tagged): Val
    requires TaggedConforms(sch, f) && Accepts(sch, TypeOf(f.body), f.id)
    decreases f, 0
  {
    Meaning(Lookup(sch, f.id).value.ty, f.body)
  }

  // ---------- the bytes of a tree read as its meaning, whatever follows

  lemma {:induction false} ScalarReadsBack(t: Scalar, w: Tree, tail: Bytes)
    requires ScalarConforms(t, w)
    ensures ReadScalar(t, Print(w) + tail) == Ok(ScalarMeaning(t, w), |Print(w)|)
  {
    if t.SStr? {
      TextReadsBack(w.raw, tail);
    } else {
      assert (w.raw + tail)[..|w.raw|] == w.raw;
    }
  }

  lemma {:induction false} TreeReadsBack(ty: Ty, w: Tree, tail: Bytes)
    requires Conforms(ty, w)
    ensures ReadVal(ty, Print(w) + tail) == Ok(Meaning(ty, w), |Print(w)|)
    decreases w, 1
  {
    match ty
    case TScalar(t) => ScalarReadsBack(t, w, tail);
    case TStruct(sch) => FieldsReadBack(sch, Zero(sch), w.fields, tail);
    case TList(e) =>
      After(PrintListBegin(w.et, |w.items|), PrintItems(w.items), tail);
      ListBeginReadsBack(w.et, |w.items|, PrintItems(w.items) + tail);
      ItemsReadBack(e, w.items, tail);
    case TMap(k, v) =>
      After(PrintMapBegin(w.kt, w.vt, |w.entries|), PrintEntries(w.entries), tail);
      MapBeginReadsBack(w.kt, w.vt, |w.entries|, PrintEntries(w.entries) + tail);
      EntriesReadBack(k, v, w.entries, map[], tail);
  }

  lemma {:induction false} ItemsReadBack(e: Ty, items: seq<Tree>, tail: Bytes)
    requires forall x <- items :: Conforms(e, x)
    ensures ReadItems(e, |items|, PrintItems(items) + tail) == Ok(Meanings(e, items), |PrintItems(items)|)
    decreases items, 0
  {
    hide Print, ReadVal, Conforms, Meaning, PrintEntries, PrintFields;
    if items != [] {
      assert items[0] in items;
      After(Print(items[0]), PrintItems(items[1..]), tail);
      TreeReadsBack(e, items[0], PrintItems(items[1..]) + tail);
      ItemsReadBack(e, items[1..], tail);
    }
  }

  lemma {:induction false} EntriesReadBack(k: Scalar, v: Scalar, entries: seq<Entry>, acc: map<Val, Val>, tail: Bytes)
    requires forall x <- entries :: EntryConforms(k, v, x)
    ensures ReadEntries(k, v, |entries|, acc, PrintEntries(entries) + tail)
         == Ok(EntriesMeaning(k, v, entries, acc), |PrintEntries(entries)|)
    decreases |entries|
  {
    hide PrintEntry, ReadEntry, EntryConforms, ScalarMeaning, PrintItems, PrintFields;
    if entries != [] {
      var x := entries[0];
      assert x in entries;
      var rest := PrintEntries(entries[1..]) + tail;
      After(PrintEntry(x), PrintEntries(entries[1..]), tail);
      EntryReadsBack(k, v, x, rest);
      EntriesReadBack(k, v, entries[1..], AddEntry(k, v, x, acc), tail);
    }
  }

  lemma {:induction false} EntryReadsBack(k: Scalar, v: Scalar, x: Entry, tail: Bytes)
    requires EntryConforms(k, v, x)
    ensures ReadEntry(k, v, PrintEntry(x) + tail)
         == Ok((ScalarMeaning(k, x.key), ScalarMeaning(v, x.val)), |PrintEntry(x)|)
  {
    After(Print(x.key), Print(x.val), tail);
    ScalarReadsBack(k, x.key, Print(x.val) + tail);
    ScalarReadsBack(v, x.val, tail);
  }

  /** FastRead of printed fields is the fold over them. */
  lemma {:induction false} FieldsReadBack(sch: Schema, p: map<int, Val>, fs: seq<Tagged>, tail: Bytes)
    requires forall f <- fs :: TaggedConforms(sch, f)
    ensures ReadStruct(sch, p, PrintFields(fs) + tail) == Ok(Fold(sch, p, fs), |PrintFields(fs)|)
    decreases fs, 0
  {
    if fs != [] {
      var rest := PrintFields(fs[1..]) + tail;
      After(PrintTagged(fs[0]), PrintFields(fs[1..]), tail);
      TaggedIsTaken(sch, p, fs[0], rest);
      FieldsReadBack(sch, Take(sch, p, fs[0]), fs[1..], tail);
    }
  }

  lemma {:induction false} TaggedIsTaken(sch: Schema, p: map<int, Val>, f: Tagged, tail: Bytes)
    requires TaggedConforms(sch, f)
    ensures var s := PrintTagged(f) + tail;
      && ReadFieldBegin(s) == Ok((TypeOf(f.body) as int, f.id), 3)
      && TypeOf(f.body) != STOP
      && ReadField(sch, p, TypeOf(f.body), f.id, s[3..]) == Ok(Take(sch, p, f), |PrintTagged(f)| - 3)
    decreases f, 0
  {
    TaggedReadsBack(f, tail);
    if Accepts(sch, TypeOf(f.body), f.id) {
      TreeReadsBack(Lookup(sch, f.id).value.ty, f.body, tail);
    } else {
      SkipPrinted(f.body, tail);
    }
  }

  // ---------- order, repetition and unknown fields

  /** The value of the last accepted field with the given id. */
  function Last(sch: Schema, fs: seq<Tagged>, id: int): Option<Val>
    requires forall f <- fs :: TaggedConforms(sch, f)
  {
    if fs == [] then None
    else
      var f := fs[|fs| - 1];
      assert f in fs;
      if f.id == id && Accepts(sch, TypeOf(f.body), id) then Some(FieldMeaning(sch, f))
      else Last(sch, fs[..|fs| - 1], id)
  }

  lemma {:induction false} FoldSnoc(sch: Schema, p: map<int, Val>, a: seq<Tagged>, f: Tagged)
    requires forall g <- a + [f] :: TaggedConforms(sch, g)
    ensures forall g <- a :: TaggedConforms(sch, g)
    ensures TaggedConforms(sch, f)
    ensures Fold(sch, p, a + [f]) == Take(sch, Fold(sch, p, a), f)
    decreases |a|
  {
    forall g | g in a + [f] ensures TaggedConforms(sch, g) {}
    assert f in a + [f];
    if a == [] {
      assert a + [f] == [f];
    } else {
      assert (a + [f])[1..] == a[1..] + [f];
      FoldSnoc(sch, Take(sch, p, a[0]), a[1..], f);
    }
  }

  /** Field by field, the struct holds the last accepted value sent, or what it held before. */
  lemma {:induction false} FoldAt(sch: Schema, p: map<int, Val>, fs: seq<Tagged>, id: int)
    requires forall f <- fs :: TaggedConforms(sch, f)
    ensures id in Fold(sch, p, fs) <==> (id in p || Last(sch, fs, id).Some?)
    ensures id in Fold(sch, p, fs) ==>
      Fold(sch, p, fs)[id] == match Last(sch, fs, id) case Some(v) => v case None => p[id]
    decreases |fs|
  {
    if fs != [] {
      var a, f := fs[..|fs| - 1], fs[|fs| - 1];
      assert fs == a + [f];
      FoldSnoc(sch, p, a, f);
      FoldAt(sch, p, a, id);
    }
  }

  lemma {:induction false} FoldsAgree(sch: Schema, p: map<int, Val>, fs: seq<Tagged>, gs: seq<Tagged>)
    requires forall f <- fs :: TaggedConforms(sch, f)
    requires forall f <- gs :: TaggedConforms(sch, f)
    requires forall id :: Last(sch, fs, id) == Last(sch, gs, id)
    ensures Fold(sch, p, fs) == Fold(sch, p, gs)
  {
    var a, b := Fold(sch, p, fs), Fold(sch, p, gs);
    forall id ensures id in a <==> id in b ensures id in a ==> a[id] == b[id] {
      FoldAt(sch, p, fs, id);
      FoldAt(sch, p, gs, id);
    }
  }

  predicate DistinctIds(fs: seq<Tagged>)
  {
    forall i, j | 0 <= i < j < |fs| :: fs[i].id != fs[j].id
  }

  lemma {:induction false} LastOfDistinct(sch: Schema, fs: seq<Tagged>, id: int)
    requires DistinctIds(fs)
    requires forall f <- fs :: TaggedConforms(sch, f)
    ensures forall f <- fs ::
      f.id == id && Accepts(sch, TypeOf(f.body), id) ==>
        Last(sch, fs, id) == Some(FieldMeaning(sch, f))
    ensures Last(sch, fs, id).Some? ==> exists f <- fs :: f.id == id && Accepts(sch, TypeOf(f.body), id)
    decreases |fs|
  {
    if fs != [] {
      LastOfDistinct(sch, fs[..|fs| - 1], id);
    }
  }

  /** Any order of distinctly numbered fields reads as the same struct. */
  lemma {:induction false} ReorderedFieldsReadTheSame(
      sch: Schema, p: map<int, Val>, fs: seq<Tagged>, gs: seq<Tagged>, tail: Bytes, tail': Bytes)
    requires multiset(fs) == multiset(gs) && DistinctIds(fs) && DistinctIds(gs)
    requires forall f <- fs :: TaggedConforms(sch, f)
    ensures ReadStruct(sch, p, PrintFields(fs) + tail).Ok? && ReadStruct(sch, p, PrintFields(gs) + tail').Ok?
    ensures ReadStruct(sch, p, PrintFields(fs) + tail).value == ReadStruct(sch, p, PrintFields(gs) + tail').value
  {
    forall f ensures f in fs <==> f in gs {
      assert f in fs <==> f in multiset(fs);
      assert f in gs <==> f in multiset(gs);
    }
    forall id ensures Last(sch, fs, id) == Last(sch, gs, id) {
      LastOfDistinct(sch, fs, id);
      LastOfDistinct(sch, gs, id);
    }
    FoldsAgree(sch, p, fs, gs);
    FieldsReadBack(sch, p, fs, tail);
    FieldsReadBack(sch, p, gs, tail');
  }

  lemma {:induction false} LastAppend(sch: Schema, a: seq<Tagged>, b: seq<Tagged>, id: int)
    requires forall f <- a :: TaggedConforms(sch, f)
    requires forall f <- b :: TaggedConforms(sch, f)
    ensures Last(sch, a + b, id) == if Last(sch, b, id).Some? then Last(sch, b, id) else Last(sch, a, id)
    decreases |b|
  {
    if b == [] {
      assert a + b == a;
    } else {
      assert (a + b)[..|a + b| - 1] == a + b[..|b| - 1];
      LastAppend(sch, a, b[..|b| - 1], id);
    }
  }

  /** A well-formed field with an unknown id, or a known id and another type, changes nothing wherever it stands. */
  lemma {:induction false} IgnoredFieldReadsTheSame(
      sch: Schema, p: map<int, Val>, a: seq<Tagged>, f: Tagged, b: seq<Tagged>, tail: Bytes, tail': Bytes)
    requires forall g <- a :: TaggedConforms(sch, g)
    requires forall g <- b :: TaggedConforms(sch, g)
    requires Fits(f.id, 2) && WellFormed(f.body) && !Accepts(sch, TypeOf(f.body), f.id)
    ensures ReadStruct(sch, p, PrintFields(a + [f] + b) + tail).Ok?
    ensures ReadStruct(sch, p, PrintFields(a + b) + tail').Ok?
    ensures ReadStruct(sch, p, PrintFields(a + [f] + b) + tail).value
         == ReadStruct(sch, p, PrintFields(a + b) + tail').value
  {
    forall id ensures Last(sch, a + [f] + b, id) == Last(sch, a + b, id) {
      LastAppend(sch, a, [f], id);
      LastAppend(sch, a + [f], b, id);
      LastAppend(sch, a, b, id);
    }
    FoldsAgree(sch, p, a + [f] + b, a + b);
    FieldsReadBack(sch, p, a + [f] + b, tail);
    FieldsReadBack(sch, p, a + b, tail');
  }

  /** Of several fields with one id the last accepted one wins. */
  lemma {:induction false} RepeatedFieldLastWins(
    sch: Schema, p: map<int, Val>, a: seq<Tagged>, f: Tagged, b: seq<Tagged>, tail: Bytes)
    requires forall g <- a :: TaggedConforms(sch, g)
    requires forall g <- b :: TaggedConforms(sch, g) && (g.id == f.id ==> !Accepts(sch, TypeOf(g.body), g.id))
    requires TaggedConforms(sch, f) && Accepts(sch, TypeOf(f.body), f.id)
    ensures var r := ReadStruct(sch, p, PrintFields(a + [f] + b) + tail);
      r.Ok? && f.id in r.value && r.value[f.id] == FieldMeaning(sch, f)
  {
    LastAppend(sch, a, [f], f.id);
    LastAppend(sch, a + [f], b, f.id);
    NoneAccepted(sch, b, f.id);
    FoldAt(sch, p, a + [f] + b, f.id);
    FieldsReadBack(sch, p, a + [f] + b, tail);
  }

  lemma {:induction false} NoneAccepted(sch: Schema, fs: seq<Tagged>, id: int)
    requires forall f <- fs :: TaggedConforms(sch, f) && (f.id == id ==> !Accepts(sch, TypeOf(f.body), f.id))
    ensures Last(sch, fs, id) == None
    decreases |fs|
  {
    if fs != [] {
      NoneAccepted(sch, fs[..|fs| - 1], id);
    }
  }

  /** Of several map entries with one key the last one decides. */
  lemma {:induction false} RepeatedKeyLastWins(
    k: Scalar, v: Scalar, a: seq<Entry>, x: Entry, b: seq<Entry>, acc: map<Val, Val>)
    requires (forall y <- a :: EntryConforms(k, v, y)) && EntryConforms(k, v, x)
    requires forall y <- b :: EntryConforms(k, v, y) && ScalarMeaning(k, y.key) != ScalarMeaning(k, x.key)
    ensures forall y <- a + [x] + b :: EntryConforms(k, v, y)
    ensures var m := EntriesMeaning(k, v, a + [x] + b, acc);
      ScalarMeaning(k, x.key) in m && m[ScalarMeaning(k, x.key)] == ScalarMeaning(v, x.val)
    decreases |a|
  {
    var key := ScalarMeaning(k, x.key);
    var next := AddEntry(k, v, x, acc);
    hide EntryConforms, ScalarMeaning;
    if a == [] {
      assert (a + [x] + b)[1..] == b && (a + [x] + b)[0] == x;
      OtherKeysStay(k, v, b, next, key);
    } else {
      assert (a + [x] + b)[1..] == a[1..] + [x] + b && (a + [x] + b)[0] == a[0];
      RepeatedKeyLastWins(k, v, a[1..], x, b, AddEntry(k, v, a[0], acc));
    }
  }

  lemma {:induction false} OtherKeysStay(k: Scalar, v: Scalar, b: seq<Entry>, acc: map<Val, Val>, key: Val)
    requires key in acc && forall y <- b :: EntryConforms(k, v, y) && ScalarMeaning(k, y.key) != key
    ensures var m := EntriesMeaning(k, v, b, acc); key in m && m[key] == acc[key]
    decreases |b|
  {
    if b != [] {
      assert EntryConforms(k, v, b[0]) && ScalarMeaning(k, b[0].key) != key;
      hide EntryConforms, ScalarMeaning;
      OtherKeysStay(k, v, b[1..], AddEntry(k, v, b[0], acc), key);
    }
  }

  /** A scalar's bytes, by themselves. */
  lemma {:induction false} ScalarBytes(t: Scalar, w: Tree)
    requires ScalarConforms(t, w)
    ensures ScalarMeaning(t, w) ==
      match t
      case SBool => VBool(Print(w) == [1])
      case SI32 => VInt(GetInt(Print(w)))
      case SI64 => VInt(GetInt(Print(w)))
      case SDouble => VDouble(GetInt(Print(w)))
      case SStr => VStr(Print(w)[4..])
    ensures |Print(w)| == if t == SBool then 1 else if t == SI32 then 4 else if t == SStr then 4 + |w.raw| else 8
  {}
}
