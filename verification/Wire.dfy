/**
 Wire trees: what a well-formed byte sequence says, independently of any message type.
 A tree records the exact fields, elements and headers in the order they are sent.
 */
module Wire {
  import opened Binary

  datatype Tree =
    | Fixed(t: Byte, raw: Bytes)                              // bool, byte, double and the integers
    | Text(raw: Bytes)
    | Record(fields: seq<Tagged>)
    | Sequence(t: Byte, et: Byte, items: seq<Tree>)           // list or set
    | Dictionary(kt: Byte, vt: Byte, entries: seq<Entry>)
  datatype Tagged = Tagged(id: int, body: Tree)
  datatype Entry = Entry(key: Tree, val: Tree)

  function TypeOf(w: Tree): Byte
  {
    match w
    case Fixed(t, _) => t
    case Text(_) => STRING
    case Record(_) => STRUCT
    case Sequence(t, _, _) => t
    case Dictionary(_, _, _) => MAP
  }

  /** Sizes and field ids fit their headers and type codes mean what the tree says. */
  predicate Framed(w: Tree)
  {
    match w
    case Fixed(t, raw) => FixedSize(t) > 0 && |raw| == FixedSize(t)
    case Text(raw) => |raw| < MAX_SIZE
    case Record(fs) => forall f <- fs :: Fits(f.id, 2)
    case Sequence(t, _, items) => (t == LIST || t == SET) && |items| < MAX_SIZE
    case Dictionary(_, _, entries) => |entries| < MAX_SIZE
  }

  /** A tree every reader of the protocol can skip: each element has the type its header announces. */
  predicate WellFormed(w: Tree)
    decreases w
  {
    Framed(w) &&
    match w
    case Fixed(_, _) => true
    case Text(_) => true
    case Record(fs) => forall f <- fs :: WellFormed(f.body)
    case Sequence(_, et, items) => forall x <- items :: TypeOf(x) == et && WellFormed(x)
    case Dictionary(kt, vt, entries) => forall x <- entries :: WellFormedEntry(kt, vt, x)
  }

  predicate WellFormedEntry(kt: Byte, vt: Byte, x: Entry)
    decreases x
  {
    TypeOf(x.key) == kt && WellFormed(x.key) && TypeOf(x.val) == vt && WellFormed(x.val)
  }

  // ---------- printing

  function Print(w: Tree): Bytes
    decreases w, 0
  {
    match w
    case Fixed(_, raw) => raw
    case Text(raw) => PutInt(|raw|, 4) + raw
    case Record(fs) => PrintFields(fs)
    case Sequence(_, et, items) => PrintListBegin(et, |items|) + PrintItems(items)
    case Dictionary(kt, vt, entries) => PrintMapBegin(kt, vt, |entries|) + PrintEntries(entries)
  }

  function PrintFieldBegin(t: Byte, id: int): (s: Bytes)
    ensures |s| == 3
  {
    [t] + PutInt(id, 2)
  }

  function PrintListBegin(et: Byte, size: nat): (s: Bytes)
    ensures |s| == 5
  {
    [et] + PutInt(size, 4)
  }

  function PrintMapBegin(kt: Byte, vt: Byte, size: nat): (s: Bytes)
    ensures |s| == 6
  {
    [kt, vt] + PutInt(size, 4)
  }

  function PrintTagged(f: Tagged): Bytes
    decreases f, 0
  {
    PrintFieldBegin(TypeOf(f.body), f.id) + Print(f.body)
  }

  function PrintFields(fs: seq<Tagged>): Bytes
    decreases fs, 0
  {
    if fs == [] then [STOP] else PrintTagged(fs[0]) + PrintFields(fs[1..])
  }

  function PrintItems(items: seq<Tree>): Bytes
    decreases items, 0
  {
    if items == [] then [] else Print(items[0]) + PrintItems(items[1..])
  }

  function PrintEntries(entries: seq<Entry>): Bytes
    decreases entries, 0
  {
    if entries == [] then [] else PrintEntry(entries[0]) + PrintEntries(entries[1..])
  }

  function PrintEntry(x: Entry): Bytes
    decreases x, 0
  {
    Print(x.key) + Print(x.val)
  }

  // ---------- the bytes of the headers

  lemma TwoBytes(v: int)
    ensures PutInt(v, 2) == [v / 0x100 % 256, v % 256]
  {
    Widths();
    PutIntAt(v, 2, 0);
    PutIntAt(v, 2, 1);
  }

  lemma FourBytes(v: int)
    ensures PutInt(v, 4) == [v / 0x100_0000 % 256, v / 0x1_0000 % 256, v / 0x100 % 256, v % 256]
  {
    Widths();
    PutIntAt(v, 4, 0);
    PutIntAt(v, 4, 1);
    PutIntAt(v, 4, 2);
    PutIntAt(v, 4, 3);
  }

  /** The type codes come first, then the id or the size, big end first. */
  lemma HeaderBytes(t: Byte, t': Byte, id: int, size: nat)
    ensures PrintFieldBegin(t, id) == [t, id / 0x100 % 256, id % 256]
    ensures PrintListBegin(t, size) ==
      [t, size / 0x100_0000 % 256, size / 0x1_0000 % 256, size / 0x100 % 256, size % 256]
    ensures PrintMapBegin(t, t', size) ==
      [t, t', size / 0x100_0000 % 256, size / 0x1_0000 % 256, size / 0x100 % 256, size % 256]
  {
    TwoBytes(id);
    FourBytes(size);
    hide PutInt;
  }

  /** The type codes of the protocol and the bytes a value of fixed size takes, skipped or read. */
  lemma CodesAre()
    ensures STOP == 0 && BOOL == 2 && BYTE == 3 && DOUBLE == 4 && I16 == 6 && I32 == 8 && I64 == 10 && STRING == 11
    ensures STRUCT == 12 && MAP == 13 && SET == 14 && LIST == 15
    ensures FixedSize(2) == FixedSize(3) == 1 && FixedSize(6) == 2 && FixedSize(8) == 4
    ensures FixedSize(4) == FixedSize(10) == 8
    ensures forall t | t !in {2, 3, 4, 6, 8, 10} :: FixedSize(t) == 0
  {}

  // ---------- reading back the headers

  lemma FieldBeginReadsBack(t: Byte, id: int, tail: Bytes)
    requires t != STOP && Fits(id, 2)
    ensures ReadFieldBegin(PrintFieldBegin(t, id) + tail) == Ok((t as int, id), 3)
  {
    assert (PrintFieldBegin(t, id) + tail)[1..3] == PutInt(id, 2);
    GetPutInt(id, 2);
  }

  lemma {:induction false} TaggedReadsBack(f: Tagged, tail: Bytes)
    requires TypeOf(f.body) != STOP && Fits(f.id, 2)
    ensures ReadFieldBegin(PrintTagged(f) + tail) == Ok((TypeOf(f.body) as int, f.id), 3)
    ensures |PrintTagged(f)| == 3 + |Print(f.body)|
    ensures (PrintTagged(f) + tail)[3..] == Print(f.body) + tail
  {
    After(PrintFieldBegin(TypeOf(f.body), f.id), Print(f.body), tail);
    FieldBeginReadsBack(TypeOf(f.body), f.id, Print(f.body) + tail);
  }

  lemma TextReadsBack(raw: Bytes, tail: Bytes)
    requires |raw| < MAX_SIZE
    ensures ReadString(PutInt(|raw|, 4) + raw + tail) == Ok(raw, 4 + |raw|)
  {
    Widths();
    var s := PutInt(|raw|, 4) + raw + tail;
    assert s[..4] == PutInt(|raw|, 4);
    GetPutInt(|raw|, 4);
    assert s[4..4 + |raw|] == raw;
  }

  lemma ListBeginReadsBack(et: Byte, size: nat, tail: Bytes)
    requires size < MAX_SIZE
    ensures ReadListBegin(PrintListBegin(et, size) + tail) == Ok((et as int, size), 5)
  {
    Widths();
    assert (PrintListBegin(et, size) + tail)[1..5] == PutInt(size, 4);
    GetPutInt(size, 4);
  }

  lemma MapBeginReadsBack(kt: Byte, vt: Byte, size: nat, tail: Bytes)
    requires size < MAX_SIZE
    ensures ReadMapBegin(PrintMapBegin(kt, vt, size) + tail) == Ok((kt as int, vt as int, size), 6)
  {
    Widths();
    assert (PrintMapBegin(kt, vt, size) + tail)[2..6] == PutInt(size, 4);
    GetPutInt(size, 4);
  }

  /** What follows a printed prefix. */
  lemma After(a: Bytes, b: Bytes, tail: Bytes)
    ensures a + b + tail == a + (b + tail) && (a + b + tail)[|a|..] == b + tail
  {}

  // ---------- skipping a printed tree consumes exactly its bytes

  lemma {:induction false} SkipPrinted(w: Tree, tail: Bytes)
    requires WellFormed(w)
    ensures Skip(Print(w) + tail, TypeOf(w)) == Ok((), |Print(w)|)
    decreases w, 0
  {
    match w
    case Fixed(_, _) =>
    case Text(raw) => TextReadsBack(raw, tail);
    case Record(fs) => SkipPrintedFields(fs, tail);
    case Sequence(_, et, items) =>
      SkipPrintedItems(items, et, tail);
      SkipPrintedList(w, tail);
    case Dictionary(kt, vt, entries) =>
      SkipPrintedEntries(entries, kt, vt, tail);
      SkipPrintedMap(w, tail);
  }

  lemma {:induction false} SkipPrintedList(w: Tree, tail: Bytes)
    requires w.Sequence? && Framed(w)
    requires SkipItems(PrintItems(w.items) + tail, w.et, |w.items|) == Ok((), |PrintItems(w.items)|)
    ensures Skip(Print(w) + tail, w.t) == Ok((), |Print(w)|)
  {
    After(PrintListBegin(w.et, |w.items|), PrintItems(w.items), tail);
    ListBeginReadsBack(w.et, |w.items|, PrintItems(w.items) + tail);
  }

  lemma {:induction false} SkipPrintedMap(w: Tree, tail: Bytes)
    requires w.Dictionary? && Framed(w)
    requires SkipEntries(PrintEntries(w.entries) + tail, w.kt, w.vt, |w.entries|) == Ok((), |PrintEntries(w.entries)|)
    ensures Skip(Print(w) + tail, MAP) == Ok((), |Print(w)|)
  {
    After(PrintMapBegin(w.kt, w.vt, |w.entries|), PrintEntries(w.entries), tail);
    MapBeginReadsBack(w.kt, w.vt, |w.entries|, PrintEntries(w.entries) + tail);
  }

  lemma {:induction false} SkipPrintedFields(fs: seq<Tagged>, tail: Bytes)
    requires forall f <- fs :: Fits(f.id, 2) && WellFormed(f.body)
    ensures SkipFields(PrintFields(fs) + tail) == Ok((), |PrintFields(fs)|)
    decreases fs, 0
  {
    if fs != [] {
      After(PrintTagged(fs[0]), PrintFields(fs[1..]), tail);
      TaggedReadsBack(fs[0], PrintFields(fs[1..]) + tail);
      SkipPrintedBody(fs[0], PrintFields(fs[1..]) + tail);
      SkipPrintedFields(fs[1..], tail);
    }
  }

  lemma {:induction false} SkipPrintedBody(f: Tagged, tail: Bytes)
    requires WellFormed(f.body)
    ensures Skip((PrintTagged(f) + tail)[3..], TypeOf(f.body)) == Ok((), |PrintTagged(f)| - 3)
    decreases f, 1
  {
    assert (PrintTagged(f) + tail)[3..] == Print(f.body) + tail;
    SkipPrinted(f.body, tail);
  }

  lemma {:induction false} SkipPrintedItems(items: seq<Tree>, t: Byte, tail: Bytes)
    requires forall x <- items :: TypeOf(x) == t && WellFormed(x)
    ensures SkipItems(PrintItems(items) + tail, t, |items|) == Ok((), |PrintItems(items)|)
    decreases items, 0
  {
    if items != [] {
      After(Print(items[0]), PrintItems(items[1..]), tail);
      SkipPrinted(items[0], PrintItems(items[1..]) + tail);
      SkipPrintedItems(items[1..], t, tail);
    }
  }

  lemma {:induction false} SkipPrintedEntries(entries: seq<Entry>, k: Byte, v: Byte, tail: Bytes)
    requires forall x <- entries :: WellFormedEntry(k, v, x)
    ensures SkipEntries(PrintEntries(entries) + tail, k, v, |entries|) == Ok((), |PrintEntries(entries)|)
    decreases entries, 0
  {
    if entries != [] {
      var rest := PrintEntries(entries[1..]) + tail;
      After(PrintEntry(entries[0]), PrintEntries(entries[1..]), tail);
      SkipPrintedEntry(entries[0], k, v, rest);
      SkipPrintedEntries(entries[1..], k, v, tail);
    }
  }

  lemma {:induction false} SkipPrintedEntry(x: Entry, k: Byte, v: Byte, tail: Bytes)
    requires WellFormedEntry(k, v, x)
    ensures var s := PrintEntry(x) + tail;
      && Skip(s, k) == Ok((), |Print(x.key)|)
      && Skip(s[|Print(x.key)|..], v) == Ok((), |Print(x.val)|)
      && s[|PrintEntry(x)|..] == tail
    decreases x, 0
  {
    After(Print(x.key), Print(x.val), tail);
    SkipPrinted(x.key, Print(x.val) + tail);
    SkipPrinted(x.val, tail);
  }
}
