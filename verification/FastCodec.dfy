/**
 The generated codec in its own form: readers that advance an offset and assign the fields
 of a struct, writers that fill a buffer in place and patch list and map headers afterwards,
 and the separate length computation.
 */
module FastCodec {
  import opened Binary
  import opened Wire
  import opened Message
  import opened Writing

  // ---------- reading

  class Struct {
    const schema: Schema
    var fields: map<int, Val>

    /** NewX and InitDefault. */
    constructor (schema: Schema)
      ensures this.schema == schema && fields == Zero(schema)
    {
      this.schema := schema;
      this.fields := Zero(schema);
    }

    method FastRead(buf: Bytes) returns (r: Read<()>)
      modifies this
      ensures match ReadStruct(schema, old(fields), buf)
        case Ok(p, n) => r == Ok((), n) && fields == p
        case Err(n) => r == Err(n)
      ensures r.n <= |buf|
      decreases |buf|, 0
    {
      hide ReadVal, ReadStruct, ReadField, ReadFieldBegin, Skip, Lookup, ReadSoFar;
      var offset: nat := 0;
      ReadStarts(schema, fields, buf);
      while true
        invariant offset <= |buf|
        invariant ReadSoFar(schema, old(fields), buf, fields, offset)
        decreases |buf| - offset
      {
        var begin := ReadFieldBegin(buf[offset..]);
        ReadStops(schema, old(fields), buf, fields, offset);
        if begin.Err? {
          return Err(offset + begin.n);
        }
        var (t, id) := begin.value;
        if t == STOP {
          return Ok((), offset + begin.n);
        }
        ReadAdvances(schema, old(fields), buf, fields, offset);
        offset := offset + begin.n;
        FieldTaken(schema, fields, t, id, buf[offset..]);
        if Accepts(schema, t, id) {
          var v := FastReadField(Lookup(schema, id).value.ty, buf[offset..]);
          if v.Err? {
            return Err(offset + v.n);
          }
          fields, offset := fields[id := v.value], offset + v.n;
        } else {
          var skipped := Skip(buf[offset..], t);
          if skipped.Err? {
            return Err(offset + skipped.n);
          }
          offset := offset + skipped.n;
        }
      }
    }
  }

  /** Reading the whole buffer into p amounts to reading the rest of it into q. */
  ghost predicate ReadSoFar(sch: Schema, p: map<int, Val>, buf: Bytes, q: map<int, Val>, offset: nat)
    requires offset <= |buf|
  {
    ReadStruct(sch, p, buf) == Shift(offset, ReadStruct(sch, q, buf[offset..]))
  }

  lemma ReadStarts(sch: Schema, p: map<int, Val>, buf: Bytes)
    ensures ReadSoFar(sch, p, buf, p, 0)
  {
    hide ReadStruct;
    assert buf[0..] == buf;
  }

  lemma {:induction false} ReadStops(sch: Schema, p: map<int, Val>, buf: Bytes, q: map<int, Val>, offset: nat)
    requires offset <= |buf| && ReadSoFar(sch, p, buf, q, offset)
    ensures var begin := ReadFieldBegin(buf[offset..]);
      && (begin.Err? ==> ReadStruct(sch, p, buf) == Err(offset + begin.n))
      && (begin.Ok? && begin.value.0 == STOP ==> ReadStruct(sch, p, buf) == Ok(q, offset + begin.n))
  {
    hide ReadFieldBegin;
  }

  lemma Drop(buf: Bytes, a: nat, b: nat)
    requires a + b <= |buf|
    ensures buf[a..][b..] == buf[a + b..]
  {}

  lemma {:induction false} ReadStructOnce(sch: Schema, p: map<int, Val>, s: Bytes)
    requires ReadFieldBegin(s).Ok? && ReadFieldBegin(s).value.0 != STOP
    ensures var begin := ReadFieldBegin(s);
      var field := ReadField(sch, p, begin.value.0, begin.value.1, s[begin.n..]);
      ReadStruct(sch, p, s) ==
        if field.Err? then Err(begin.n + field.n)
        else Shift(begin.n + field.n, ReadStruct(sch, field.value, s[begin.n + field.n..]))
  {
    hide ReadFieldBegin, ReadField;
  }

  /** One iteration of the read loop, once the field header is read. */
  lemma {:induction false} ReadAdvances(sch: Schema, p: map<int, Val>, buf: Bytes, q: map<int, Val>, offset: nat)
    requires offset <= |buf| && ReadSoFar(sch, p, buf, q, offset)
    requires ReadFieldBegin(buf[offset..]).Ok? && ReadFieldBegin(buf[offset..]).value.0 != STOP
    ensures var begin := ReadFieldBegin(buf[offset..]);
      var body := offset + begin.n;
      && body <= |buf|
      && var field := ReadField(sch, q, begin.value.0, begin.value.1, buf[body..]);
         if field.Err? then ReadStruct(sch, p, buf) == Err(body + field.n)
         else ReadSoFar(sch, p, buf, field.value, body + field.n)
  {
    hide ReadFieldBegin, ReadField, ReadStruct;
    var begin := ReadFieldBegin(buf[offset..]);
    ReadStructOnce(sch, q, buf[offset..]);
    Drop(buf, offset, begin.n);
    var field := ReadField(sch, q, begin.value.0, begin.value.1, buf[offset + begin.n..]);
    Drop(buf, offset, begin.n + field.n);
  }

  lemma {:induction false} FieldTaken(sch: Schema, p: map<int, Val>, t: int, id: int, s: Bytes)
    ensures Accepts(sch, t, id) ==>
      var v := ReadVal(Lookup(sch, id).value.ty, s);
      ReadField(sch, p, t, id, s) == if v.Ok? then Ok(p[id := v.value], v.n) else Err(v.n)
    ensures !Accepts(sch, t, id) ==>
      ReadField(sch, p, t, id, s) == if Skip(s, t).Ok? then Ok(p, Skip(s, t).n) else Err(Skip(s, t).n)
  {
    hide ReadVal, Skip;
  }

  method FastReadField(ty: Ty, buf: Bytes) returns (r: Read<Val>)
    ensures r == ReadVal(ty, buf)
    decreases |buf|, 1
  {
    match ty
    case TScalar(t) =>
      r := ReadScalar(t, buf);
    case TStruct(sch) =>
      var field := new Struct(sch);
      var read := field.FastRead(buf);
      r := if read.Ok? then Ok(VStruct(field.fields), read.n) else Err(0);
    case TList(e) =>
      r := FastReadList(e, buf);
    case TMap(k, v) =>
      r := FastReadMap(k, v, buf);
  }

  function PrependItems(xs: seq<Val>, n: nat, r: Read<seq<Val>>): Read<seq<Val>>
  {
    if r.Ok? then Ok(xs + r.value, n + r.n) else Err(n + r.n)
  }

  method FastReadList(e: Ty, buf: Bytes) returns (r: Read<Val>)
    ensures r == ReadVal(TList(e), buf)
    decreases |buf|, 0
  {
    var begin := ReadListBegin(buf);
    if begin.Err? {
      return Err(begin.n);
    }
    var (_, size) := begin.value;
    var items := FastReadItems(e, size, buf[begin.n..]);
    r := if items.Ok? then Ok(VList(items.value), begin.n + items.n) else Err(begin.n + items.n);
  }

  /** The element loop of FastReadFieldN, after the list header. */
  method FastReadItems(e: Ty, size: nat, buf: Bytes) returns (r: Read<seq<Val>>)
    ensures r == ReadItems(e, size, buf)
    decreases |buf|, 2
  {
    hide ReadVal, ReadItems;
    var offset: nat, xs := 0, [];
    assert buf[0..] == buf;
    ghost var all := ReadItems(e, size, buf);
    assert all.Ok? ==> [] + all.value == all.value;
    for i := 0 to size
      invariant offset <= |buf|
      invariant ReadItems(e, size, buf) == PrependItems(xs, offset, ReadItems(e, size - i, buf[offset..]))
    {
      ReadItemsStep(e, size - i, xs, buf, offset);
      var v := FastReadField(e, buf[offset..]);
      if v.Err? {
        return Err(offset);
      }
      xs, offset := xs + [v.value], offset + v.n;
    }
    ReadNoItems(e, buf[offset..]);
    assert xs + [] == xs;
    r := Ok(xs, offset);
  }

  lemma {:induction false} ReadNoItems(e: Ty, s: Bytes)
    ensures ReadItems(e, 0, s) == Ok([], 0)
  {}

  lemma ReadItemsOnce(e: Ty, size: nat, s: Bytes)
    requires size > 0
    ensures var v := ReadVal(e, s);
      ReadItems(e, size, s) == if v.Err? then Err(0) else PrependItems([v.value], v.n, ReadItems(e, size - 1, s[v.n..]))
  {
    hide ReadVal;
  }

  lemma PrependTwice(xs: seq<Val>, x: Val, n: nat, m: nat, r: Read<seq<Val>>)
    ensures PrependItems(xs, n, PrependItems([x], m, r)) == PrependItems(xs + [x], n + m, r)
  {
    assert r.Ok? ==> xs + ([x] + r.value) == xs + [x] + r.value;
  }

  lemma {:induction false} ReadItemsStep(e: Ty, size: nat, xs: seq<Val>, buf: Bytes, offset: nat)
    requires size > 0 && offset <= |buf|
    ensures var v := ReadVal(e, buf[offset..]);
      PrependItems(xs, offset, ReadItems(e, size, buf[offset..])) ==
      if v.Err? then Err(offset)
      else PrependItems(xs + [v.value], offset + v.n, ReadItems(e, size - 1, buf[offset + v.n..]))
  {
    hide ReadVal, ReadItems;
    var v := ReadVal(e, buf[offset..]);
    ReadItemsOnce(e, size, buf[offset..]);
    if v.Ok? {
      Drop(buf, offset, v.n);
      PrependTwice(xs, v.value, offset, v.n, ReadItems(e, size - 1, buf[offset + v.n..]));
    }
  }

  method FastReadMap(k: Scalar, v: Scalar, buf: Bytes) returns (r: Read<Val>)
    ensures r == ReadVal(TMap(k, v), buf)
  {
    var begin := ReadMapBegin(buf);
    if begin.Err? {
      return Err(begin.n);
    }
    var (_, _, size) := begin.value;
    var entries := FastReadEntries(k, v, size, buf[begin.n..]);
    r := if entries.Ok? then Ok(VMap(entries.value), begin.n + entries.n) else Err(begin.n + entries.n);
  }

  /** The entry loop of FastReadFieldN, after the map header. */
  method FastReadEntries(k: Scalar, v: Scalar, size: nat, buf: Bytes) returns (r: Read<map<Val, Val>>)
    ensures r == ReadEntries(k, v, size, map[], buf)
  {
    hide ReadEntry, ReadEntries, Shift;
    var offset: nat, field: map<Val, Val>, i: nat := 0, map[], 0;
    assert buf[0..] == buf;
    ShiftNone(ReadEntries(k, v, size, map[], buf));
    while i < size
      invariant offset <= |buf| && i <= size
      invariant ReadEntries(k, v, size, map[], buf) == Shift(offset, ReadEntries(k, v, size - i, field, buf[offset..]))
    {
      ReadEntriesStep(k, v, size - i, field, buf, offset);
      var entry := ReadEntry(k, v, buf[offset..]);
      if entry.Err? {
        ShiftFailed<map<Val, Val>>(offset, entry.n);
        return Err(offset + entry.n);
      }
      field := field[entry.value.0 := entry.value.1];
      ShiftTwice(offset, entry.n, ReadEntries(k, v, size - i - 1, field, buf[offset + entry.n..]));
      offset, i := offset + entry.n, i + 1;
    }
    ReadNoEntries(k, v, field, buf[offset..]);
    ShiftFound(offset, field);
    r := Ok(field, offset);
  }

  lemma ShiftNone<T>(r: Read<T>)
    ensures Shift(0, r) == r
  {}

  lemma ShiftTwice<T>(n: nat, m: nat, r: Read<T>)
    ensures Shift(n, Shift(m, r)) == Shift(n + m, r)
  {}

  lemma ShiftFailed<T>(n: nat, m: nat)
    ensures Shift<T>(n, Err(m)) == Err(n + m)
  {}

  lemma ShiftFound<T>(n: nat, x: T)
    ensures Shift(n, Ok(x, 0)) == Ok(x, n)
  {}

  lemma {:induction false} ReadNoEntries(k: Scalar, v: Scalar, acc: map<Val, Val>, s: Bytes)
    ensures ReadEntries(k, v, 0, acc, s) == Ok(acc, 0)
  {}

  lemma {:induction false} ReadEntriesStep(k: Scalar, v: Scalar, size: nat, acc: map<Val, Val>, buf: Bytes, offset: nat)
    requires size > 0 && offset <= |buf|
    ensures ReadEntries(k, v, size, acc, buf[offset..]) ==
      match ReadEntry(k, v, buf[offset..])
      case Err(n) => Err(n)
      case Ok((key, val), n) => Shift(n, ReadEntries(k, v, size - 1, acc[key := val], buf[offset + n..]))
  {
    hide ReadEntry;
    Drop(buf, offset, ReadEntry(k, v, buf[offset..]).n);
  }

  // ---------- writing

  /** s with t laid over it from position off on. */
  function Splice(s: Bytes, off: nat, t: Bytes): (r: Bytes)
    requires off + |t| <= |s|
    ensures |r| == |s|
  {
    s[..off] + t + s[off + |t|..]
  }

  lemma SpliceNone(s: Bytes, off: nat)
    requires off <= |s|
    ensures Splice(s, off, []) == s
  {}

  lemma SpliceTwice(s: Bytes, off: nat, t: Bytes, u: Bytes)
    requires off + |t| + |u| <= |s|
    ensures Splice(Splice(s, off, t), off + |t|, u) == Splice(s, off, t + u)
  {}

  lemma SplicePatched(s: Bytes, off: nat, header: Bytes, body: Bytes)
    requires off + |header| + |body| <= |s|
    ensures Splice(Splice(s, off + |header|, body), off, header) == Splice(s, off, header + body)
  {}

  method Put(buf: array<Byte>, off: nat, s: Bytes)
    requires off + |s| <= buf.Length
    modifies buf
    ensures buf[..] == Splice(old(buf[..]), off, s)
  {
    forall i | 0 <= i < |s| {
      buf[off + i] := s[i];
    }
  }

  function ItemsOf(v: Val): seq<Val>
  {
    if v.VList? then v.xs else []
  }

  function EntriesOf(v: Val): map<Val, Val>
  {
    if v.VMap? then v.m else map[]
  }

  lemma {:induction false} StructWritten(sch: Schema, v: Val)
    requires HasType(TStruct(sch), v)
    ensures v.VNil? ==> Length(TStruct(sch), v) == 1 && Writes(TStruct(sch), v, Record([]))
    ensures !v.VNil? ==> v.VStruct? && Covers(sch, v.f) && Length(TStruct(sch), v) == FieldsLength(sch, v.f) + 1
    ensures !v.VNil? ==> forall ws :: WritesFields(sch, v.f, ws) ==> Writes(TStruct(sch), v, Record(ws))
  {}

  lemma {:induction false} ListWritten(e: Ty, v: Val)
    requires HasType(TList(e), v)
    ensures var xs := ItemsOf(v);
      && |xs| < MAX_SIZE && (forall x <- xs :: HasType(e, x))
      && Length(TList(e), v) == 5 + ItemsLength(e, xs)
      && forall items :: |items| == |xs| && (forall i | 0 <= i < |xs| :: Writes(e, xs[i], items[i]))
                         ==> Writes(TList(e), v, Sequence(LIST, Code(e), items))
  {}

  lemma {:induction false} MapWritten(k: Scalar, t: Scalar, v: Val)
    requires HasType(TMap(k, t), v)
    ensures var m := EntriesOf(v);
      && (forall x <- m :: HasScalar(k, x) && HasScalar(t, m[x]))
      && Length(TMap(k, t), v) == 6 + EntriesLength(k, t, m, m.Keys)
      && forall ks :: Visits(ks, m) ==>
           && (forall x <- ks :: x in m)
           && Writes(TMap(k, t), v, Dictionary(ScalarCode(k), ScalarCode(t), Entries(k, t, m, ks)))
  {
    var m := EntriesOf(v);
    forall ks | Visits(ks, m)
      ensures forall x <- ks :: x in m
      ensures Writes(TMap(k, t), v, Dictionary(ScalarCode(k), ScalarCode(t), Entries(k, t, m, ks)))
    {
      assert forall x <- ks :: x in (set y | y in ks);
      if v.VNil? {
        VisitedSize(ks, m);
      }
    }
  }

  method FastWrite(buf: array<Byte>, off: nat, ty: Ty, v: Val) returns (n: nat, ghost w: Tree)
    requires HasType(ty, v) && off + Length(ty, v) <= buf.Length
    modifies buf
    ensures Writes(ty, v, w) && n == |Print(w)| == Length(ty, v)
    ensures buf[..] == Splice(old(buf[..]), off, Print(w))
    decreases ty, 1
  {
    hide Writes, WritesFields, Length, FieldsLength, ItemsLength, EntriesLength, Splice, Entries, Visits, Covers;
    match ty
    case TScalar(t) =>
      n, w := FastWriteScalar(buf, off, t, v);
    case TStruct(sch) =>
      StructWritten(sch, v);
      if v.VNil? {
        Put(buf, off, [STOP]);
        n, w := 1, Record([]);
      } else {
        ghost var ws;
        n, ws := FastWriteFields(buf, off, sch, v.f);
        w := Record(ws);
      }
    case TList(e) =>
      ListWritten(e, v);
      ghost var items;
      n, items := FastWriteList(buf, off, e, ItemsOf(v));
      w := Sequence(LIST, Code(e), items);
    case TMap(k, t) =>
      MapWritten(k, t, v);
      ghost var ks;
      n, ks := FastWriteMap(buf, off, k, t, EntriesOf(v));
      VisitedSize(ks, EntriesOf(v));
      w := Dictionary(ScalarCode(k), ScalarCode(t), Entries(k, t, EntriesOf(v), ks));
  }

  method FastWriteScalar(buf: array<Byte>, off: nat, t: Scalar, v: Val) returns (n: nat, ghost w: Tree)
    requires HasType(TScalar(t), v) && off + Length(TScalar(t), v) <= buf.Length
    modifies buf
    ensures Writes(TScalar(t), v, w) && n == |Print(w)| == Length(TScalar(t), v)
    ensures buf[..] == Splice(old(buf[..]), off, Print(w))
  {
    w := ScalarTree(t, v);
    WrittenLength(TScalar(t), v, w);
    n := ScalarLength(t, v);
    Put(buf, off, Print(ScalarTree(t, v)));
  }

  lemma {:induction false} FieldsWritten(sch: Schema, f: map<int, Val>)
    requires Covers(sch, f)
    ensures sch == [] ==> FieldsLength(sch, f) == 0 && WritesFields(sch, f, [])
    ensures sch != [] ==>
      var fld := sch[0];
      && fld.id in f && Covers(sch[1..], f)
      && (Absent(fld, f[fld.id]) ==>
            && FieldsLength(sch, f) == FieldsLength(sch[1..], f)
            && forall ws :: WritesFields(sch[1..], f, ws) ==> WritesFields(sch, f, ws))
      && (!Absent(fld, f[fld.id]) ==>
            && HasType(fld.ty, f[fld.id])
            && FieldsLength(sch, f) == 3 + Length(fld.ty, f[fld.id]) + FieldsLength(sch[1..], f))
  {}

  lemma {:induction false} FieldsWrittenCons(sch: Schema, f: map<int, Val>, w: Tagged, ws: seq<Tagged>)
    requires sch != [] && Covers(sch, f) && !Absent(sch[0], f[sch[0].id])
    requires HasType(sch[0].ty, f[sch[0].id]) && WritesField(sch[0], f[sch[0].id], w)
    requires WritesFields(sch[1..], f, ws)
    ensures WritesFields(sch, f, [w] + ws)
    ensures PrintFields([w] + ws) == PrintTagged(w) + PrintFields(ws)
  {
    assert ([w] + ws)[1..] == ws;
  }

  /** The fields in schema order, then the stop byte. */
  method FastWriteFields(buf: array<Byte>, off: nat, sch: Schema, f: map<int, Val>)
    returns (n: nat, ghost ws: seq<Tagged>)
    requires Covers(sch, f) && off + FieldsLength(sch, f) + 1 <= buf.Length
    modifies buf
    ensures WritesFields(sch, f, ws) && n == |PrintFields(ws)| == FieldsLength(sch, f) + 1
    ensures buf[..] == Splice(old(buf[..]), off, PrintFields(ws))
    decreases sch, 0
  {
    hide WritesFields, WritesField, FieldsLength, Length, Splice, Covers, HasType;
    FieldsWritten(sch, f);
    if sch == [] {
      Put(buf, off, [STOP]);
      return 1, [];
    }
    var fld := sch[0];
    if Absent(fld, f[fld.id]) {
      n, ws := FastWriteFields(buf, off, sch[1..], f);
    } else {
      var m, rest;
      ghost var w, tail;
      m, w := FastWriteField(buf, off, fld, f[fld.id]);
      rest, tail := FastWriteFields(buf, off + m, sch[1..], f);
      n, ws := m + rest, [w] + tail;
      FieldsWrittenCons(sch, f, w, tail);
      SpliceTwice(old(buf[..]), off, PrintTagged(w), PrintFields(tail));
    }
  }

  method FastWriteField(buf: array<Byte>, off: nat, fld: Field, v: Val) returns (n: nat, ghost w: Tagged)
    requires HasType(fld.ty, v) && off + 3 + Length(fld.ty, v) <= buf.Length
    modifies buf
    ensures WritesField(fld, v, w) && n == |PrintTagged(w)| == 3 + Length(fld.ty, v)
    ensures buf[..] == Splice(old(buf[..]), off, PrintTagged(w))
    decreases fld, 0
  {
    var header := PrintFieldBegin(Code(fld.ty), fld.id);
    Put(buf, off, header);
    var m;
    ghost var body;
    m, body := FastWrite(buf, off + 3, fld.ty, v);
    n, w := 3 + m, Tagged(fld.id, body);
    WrittenType(fld.ty, v, body);
    SpliceTwice(old(buf[..]), off, header, Print(body));
  }

  lemma {:induction false} WrittenType(ty: Ty, v: Val, w: Tree)
    requires HasType(ty, v) && Writes(ty, v, w)
    ensures TypeOf(w) == Code(ty)
  {}

  lemma {:induction false} PrintItemsSnoc(items: seq<Tree>, x: Tree)
    ensures PrintItems(items + [x]) == PrintItems(items) + Print(x)
  {
    if items == [] {
      assert [] + [x] == [x] && [x][1..] == [];
    } else {
      assert (items + [x])[1..] == items[1..] + [x];
      PrintItemsSnoc(items[1..], x);
    }
  }

  lemma {:induction false} ItemsLengthSplit(e: Ty, xs: seq<Val>, i: nat)
    requires i < |xs| && forall x <- xs :: HasType(e, x)
    ensures ItemsLength(e, xs[i..]) == Length(e, xs[i]) + ItemsLength(e, xs[i + 1..])
  {
    assert xs[i..][1..] == xs[i + 1..];
  }

  lemma {:induction false} NoItems(e: Ty)
    ensures PrintItems([]) == [] && ItemsLength(e, []) == 0
  {}

  method FastWriteList(buf: array<Byte>, off: nat, e: Ty, xs: seq<Val>) returns (n: nat, ghost items: seq<Tree>)
    requires |xs| < MAX_SIZE && forall x <- xs :: HasType(e, x)
    requires off + 5 + ItemsLength(e, xs) <= buf.Length
    modifies buf
    ensures |items| == |xs| && forall i | 0 <= i < |xs| :: Writes(e, xs[i], items[i])
    ensures n == 5 + |PrintItems(items)| == 5 + ItemsLength(e, xs)
    ensures buf[..] == Splice(old(buf[..]), off, PrintListBegin(Code(e), |xs|) + PrintItems(items))
    decreases e, 2
  {
    hide Splice, Writes, Length, ItemsLength, HasType, Print, PrintItems, PrintListBegin, Code;
    var length: nat := 0;
    n, items := 5, [];
    NoItems(e);
    SpliceNone(buf[..], off + 5);
    assert xs[0..] == xs;
    while length < |xs|
      invariant length == |items| <= |xs|
      invariant forall i | 0 <= i < length :: Writes(e, xs[i], items[i])
      invariant n == 5 + |PrintItems(items)| && n + ItemsLength(e, xs[length..]) == 5 + ItemsLength(e, xs)
      invariant buf[..] == Splice(old(buf[..]), off + 5, PrintItems(items))
    {
      ItemsLengthSplit(e, xs, length);
      var m;
      ghost var x;
      m, x := FastWrite(buf, off + n, e, xs[length]);
      SpliceTwice(old(buf[..]), off + 5, PrintItems(items), Print(x));
      PrintItemsSnoc(items, x);
      n, items, length := n + m, items + [x], length + 1;
    }
    assert xs[length..] == [];
    Put(buf, off, PrintListBegin(Code(e), length));
    SplicePatched(old(buf[..]), off, PrintListBegin(Code(e), length), PrintItems(items));
  }

  lemma {:induction false} PrintEntriesSnoc(entries: seq<Entry>, x: Entry)
    ensures PrintEntries(entries + [x]) == PrintEntries(entries) + PrintEntry(x)
  {
    if entries == [] {
      assert [] + [x] == [x] && [x][1..] == [];
    } else {
      assert (entries + [x])[1..] == entries[1..] + [x];
      PrintEntriesSnoc(entries[1..], x);
    }
  }

  function EntryTree(k: Scalar, t: Scalar, x: Val, v: Val): Entry
    requires HasScalar(k, x) && HasScalar(t, v)
  {
    Entry(ScalarTree(k, x), ScalarTree(t, v))
  }

  lemma {:induction false} EntriesSnoc(k: Scalar, t: Scalar, m: map<Val, Val>, ks: seq<Val>, x: Val)
    requires forall y <- ks + [x] :: y in m && HasScalar(k, y) && HasScalar(t, m[y])
    requires x in m && HasScalar(k, x) && HasScalar(t, m[x])
    requires forall y <- ks :: y in m && HasScalar(k, y) && HasScalar(t, m[y])
    ensures Entries(k, t, m, ks + [x]) == Entries(k, t, m, ks) + [EntryTree(k, t, x, m[x])]
    decreases |ks|
  {
    hide HasScalar, ScalarTree;
    if ks == [] {
      assert [] + [x] == [x] && [x][1..] == [];
    } else {
      assert (ks + [x])[1..] == ks[1..] + [x];
      EntriesSnoc(k, t, m, ks[1..], x);
    }
  }

  method FastWriteEntry(buf: array<Byte>, off: nat, k: Scalar, t: Scalar, x: Val, v: Val) returns (n: nat)
    requires HasScalar(k, x) && HasScalar(t, v) && off + ScalarLength(k, x) + ScalarLength(t, v) <= buf.Length
    modifies buf
    ensures n == ScalarLength(k, x) + ScalarLength(t, v) == |PrintEntry(EntryTree(k, t, x, v))|
    ensures buf[..] == Splice(old(buf[..]), off, PrintEntry(EntryTree(k, t, x, v)))
  {
    hide Splice;
    EntryPrintedLength(k, t, x, v);
    var key, val := Print(ScalarTree(k, x)), Print(ScalarTree(t, v));
    Put(buf, off, key);
    Put(buf, off + |key|, val);
    SpliceTwice(old(buf[..]), off, key, val);
    n := |key| + |val|;
  }

  ghost predicate VisitsSet(ks: seq<Val>, s: set<Val>)
  {
    (forall i, j | 0 <= i < j < |ks| :: ks[i] != ks[j]) && forall x :: x in ks <==> x in s
  }

  lemma VisitsMore(ks: seq<Val>, all: set<Val>, keys: set<Val>, x: Val)
    requires VisitsSet(ks, all - keys) && x in keys && keys <= all
    ensures VisitsSet(ks + [x], all - (keys - {x}))
    ensures forall y <- ks + [x] :: y in all
  {}

  lemma AllVisited(ks: seq<Val>, m: map<Val, Val>)
    requires VisitsSet(ks, m.Keys)
    ensures Visits(ks, m) && |ks| == |m|
  {
    assert (set x | x in ks) == m.Keys;
    VisitedSize(ks, m);
  }

  /** The entries with keys ks have been written behind the space for the header; those in keys are left. */
  ghost predicate MapProgress(
      k: Scalar, t: Scalar, m: map<Val, Val>, keys: set<Val>, ks: seq<Val>, n: nat, before: Bytes, now: Bytes, off: nat)
    requires forall x <- m :: HasScalar(k, x) && HasScalar(t, m[x])
    requires off + 6 + EntriesLength(k, t, m, m.Keys) <= |before|
  {
    && keys <= m.Keys && VisitsSet(ks, m.Keys - keys) && (forall x <- ks :: x in m)
    && n == 6 + |PrintEntries(Entries(k, t, m, ks))|
    && n + EntriesLength(k, t, m, keys) == 6 + EntriesLength(k, t, m, m.Keys)
    && now == Splice(before, off + 6, PrintEntries(Entries(k, t, m, ks)))
  }

  lemma {:induction false} MapStarts(k: Scalar, t: Scalar, m: map<Val, Val>, before: Bytes, off: nat)
    requires forall x <- m :: HasScalar(k, x) && HasScalar(t, m[x])
    requires off + 6 + EntriesLength(k, t, m, m.Keys) <= |before|
    ensures MapProgress(k, t, m, m.Keys, [], 6, before, before, off)
  {
    assert PrintEntries(Entries(k, t, m, [])) == [];
    SpliceNone(before, off + 6);
  }

  lemma {:induction false} MapAdvances(
      k: Scalar, t: Scalar, m: map<Val, Val>, keys: set<Val>, ks: seq<Val>, n: nat, before: Bytes, now: Bytes, off: nat,
      x: Val, next: Bytes)
    requires forall y <- m :: HasScalar(k, y) && HasScalar(t, m[y])
    requires off + 6 + EntriesLength(k, t, m, m.Keys) <= |before|
    requires MapProgress(k, t, m, keys, ks, n, before, now, off) && x in keys
    requires off + n + |PrintEntry(EntryTree(k, t, x, m[x]))| <= |now|
    requires next == Splice(now, off + n, PrintEntry(EntryTree(k, t, x, m[x])))
    ensures MapProgress(
      k, t, m, keys - {x}, ks + [x], n + |PrintEntry(EntryTree(k, t, x, m[x]))|, before, next, off)
  {
    hide Splice, EntriesLength, Entries, HasScalar, ScalarLength, PrintEntry, PrintEntries;
    EntriesLengthMinus(k, t, m, keys, x);
    EntryPrintedLength(k, t, x, m[x]);
    VisitsMore(ks, m.Keys, keys, x);
    EntriesSnoc(k, t, m, ks, x);
    PrintEntriesSnoc(Entries(k, t, m, ks), EntryTree(k, t, x, m[x]));
    SpliceTwice(before, off + 6, PrintEntries(Entries(k, t, m, ks)), PrintEntry(EntryTree(k, t, x, m[x])));
  }

  lemma {:induction false} MapFits(
    k: Scalar, t: Scalar, m: map<Val, Val>, keys: set<Val>, ks: seq<Val>, n: nat, before: Bytes, now: Bytes,
    off: nat, x: Val)
    requires forall y <- m :: HasScalar(k, y) && HasScalar(t, m[y])
    requires off + 6 + EntriesLength(k, t, m, m.Keys) <= |before|
    requires MapProgress(k, t, m, keys, ks, n, before, now, off) && x in keys
    ensures |now| == |before| && x in m
    ensures off + n + ScalarLength(k, x) + ScalarLength(t, m[x]) <= |before|
  {
    hide HasScalar, ScalarLength, PrintEntries, Entries;
    EntriesLengthMinus(k, t, m, keys, x);
  }

  lemma {:induction false} MapEnds(
    k: Scalar, t: Scalar, m: map<Val, Val>, ks: seq<Val>, n: nat, before: Bytes, now: Bytes, off: nat)
    requires forall y <- m :: HasScalar(k, y) && HasScalar(t, m[y])
    requires off + 6 + EntriesLength(k, t, m, m.Keys) <= |before|
    requires MapProgress(k, t, m, {}, ks, n, before, now, off)
    ensures Visits(ks, m) && |ks| == |m| && forall x <- ks :: x in m
    ensures n == 6 + |PrintEntries(Entries(k, t, m, ks))| == 6 + EntriesLength(k, t, m, m.Keys)
    ensures now == Splice(before, off + 6, PrintEntries(Entries(k, t, m, ks)))
  {
    assert m.Keys - {} == m.Keys;
    AllVisited(ks, m);
  }

  method FastWriteMap(buf: array<Byte>, off: nat, k: Scalar, t: Scalar, m: map<Val, Val>)
    returns (n: nat, ghost ks: seq<Val>)
    requires forall x <- m :: HasScalar(k, x) && HasScalar(t, m[x])
    requires off + 6 + EntriesLength(k, t, m, m.Keys) <= buf.Length
    modifies buf
    ensures Visits(ks, m) && forall x <- ks :: x in m
    ensures n == 6 + |PrintEntries(Entries(k, t, m, ks))| == 6 + EntriesLength(k, t, m, m.Keys)
    ensures buf[..] == Splice(old(buf[..]), off,
      PrintMapBegin(ScalarCode(k), ScalarCode(t), |m|) + PrintEntries(Entries(k, t, m, ks)))
  {
    hide MapProgress, Splice, EntriesLength, Visits, Entries, HasScalar, ScalarLength, PrintEntry, PrintEntries,
      PrintMapBegin, ScalarCode;
    var keys, length: nat := m.Keys, 0;
    n, ks := 6, [];
    MapStarts(k, t, m, buf[..], off);
    while keys != {}
      invariant keys <= m.Keys && length == |ks|
      invariant MapProgress(k, t, m, keys, ks, n, old(buf[..]), buf[..], off)
      decreases |keys|
    {
      var x :| x in keys;
      MapFits(k, t, m, keys, ks, n, old(buf[..]), buf[..], off, x);
      ghost var now := buf[..];
      var l := FastWriteEntry(buf, off + n, k, t, x, m[x]);
      MapAdvances(k, t, m, keys, ks, n, old(buf[..]), now, off, x, buf[..]);
      n, keys, length, ks := n + l, keys - {x}, length + 1, ks + [x];
    }
    MapEnds(k, t, m, ks, n, old(buf[..]), buf[..], off);
    Put(buf, off, PrintMapBegin(ScalarCode(k), ScalarCode(t), length));
    SplicePatched(old(buf[..]), off, PrintMapBegin(ScalarCode(k), ScalarCode(t), length),
      PrintEntries(Entries(k, t, m, ks)));
  }

  // ---------- BLength

  method BLength(ty: Ty, v: Val) returns (l: nat)
    requires HasType(ty, v)
    ensures l == Length(ty, v)
    decreases ty, 1
  {
    match ty
    case TScalar(t) =>
      l := ScalarLength(t, v);
    case TStruct(sch) =>
      l := 0;
      if !v.VNil? {
        l := BLengthFields(sch, v.f);
      }
      l := l + 1;
    case TList(e) =>
      l := 5;
      if !v.VNil? {
        l := BLengthItems(e, v.xs);
        l := l + 5;
      }
    case TMap(k, t) =>
      l := 6;
      if !v.VNil? {
        l := BLengthEntries(k, t, v.m);
        l := l + 6;
      }
  }

  /** Elements of fixed size are counted, others are visited. */
  method BLengthItems(e: Ty, xs: seq<Val>) returns (l: nat)
    requires forall x <- xs :: HasType(e, x)
    ensures l == ItemsLength(e, xs)
    decreases e, 2
  {
    if e.TScalar? && !e.s.SStr? {
      FixedItemsLength(e.s, xs);
      return FixedSize(ScalarCode(e.s)) * |xs|;
    }
    l := 0;
    assert xs[0..] == xs;
    for i := 0 to |xs|
      invariant l + ItemsLength(e, xs[i..]) == ItemsLength(e, xs)
    {
      ItemsLengthSplit(e, xs, i);
      var m := BLength(e, xs[i]);
      l := l + m;
    }
  }

  /** Entries of fixed size are counted, others are visited. */
  method BLengthEntries(k: Scalar, t: Scalar, m: map<Val, Val>) returns (l: nat)
    requires forall x <- m :: HasScalar(k, x) && HasScalar(t, m[x])
    ensures l == EntriesLength(k, t, m, m.Keys)
  {
    if !k.SStr? && !t.SStr? {
      FixedEntriesLength(k, t, m, m.Keys, FixedSize(ScalarCode(k)) + FixedSize(ScalarCode(t)));
      return (FixedSize(ScalarCode(k)) + FixedSize(ScalarCode(t))) * |m|;
    }
    var keys := m.Keys;
    l := 0;
    while keys != {}
      invariant keys <= m.Keys
      invariant l + EntriesLength(k, t, m, keys) == EntriesLength(k, t, m, m.Keys)
      decreases |keys|
    {
      var x :| x in keys;
      EntriesLengthMinus(k, t, m, keys, x);
      l, keys := l + ScalarLength(k, x) + ScalarLength(t, m[x]), keys - {x};
    }
  }

  method BLengthFields(sch: Schema, f: map<int, Val>) returns (l: nat)
    requires Covers(sch, f)
    ensures l == FieldsLength(sch, f)
    decreases sch, 0
  {
    if sch == [] {
      return 0;
    }
    var first := BLengthField(sch[0], f[sch[0].id]);
    var rest := BLengthFields(sch[1..], f);
    l := first + rest;
  }

  method BLengthField(fld: Field, v: Val) returns (l: nat)
    requires HasField(fld, v)
    ensures l == FieldLength(fld, v)
    decreases fld, 0
  {
    if Absent(fld, v) {
      return 0;
    }
    var m := BLength(fld.ty, v);
    l := 3 + m;
  }

  // ---------- all three together

  /** Allocate BLength bytes, write, read: the buffer is filled exactly and the value comes back normalised. */
  method SendAndReceive(sch: Schema, v: Val, trailing: Bytes) returns (received: map<int, Val>)
    requires ValidSchema(sch) && HasType(TStruct(sch), v)
    ensures VStruct(received) == Norm(TStruct(sch), v)
  {
    var l := BLength(TStruct(sch), v);
    var buf := new Byte[l](_ => 0);
    var n;
    ghost var w;
    n, w := FastWrite(buf, 0, TStruct(sch), v);
    assert n == l && buf[..] == Print(w);
    RoundTrip(TStruct(sch), v, w, trailing);
    var s := new Struct(sch);
    var r := s.FastRead(buf[..] + trailing);
    assert r == Ok((), n);
    received := s.fields;
  }
}
