/**
 The reader accepts printed trees and nothing else: whatever FastRead takes from a byte
 sequence is the printing of a tree of the type asked for, skipped fields included, and the
 value returned is that tree's meaning.
 */
module Acceptance {
  import opened Binary
  import opened Message
  import opened Options
  import opened Wire

  // ---------- texts and headers

  lemma TextIsPrinted(s: Bytes)
    requires ReadString(s).Ok?
    ensures PutInt(|ReadString(s).value|, 4) + ReadString(s).value == s[..ReadString(s).n]
  {
    PutGetInt(s[..4]);
    assert s[..ReadString(s).n] == s[..4] + s[4..ReadString(s).n];
  }

  lemma ListBeginIsPrinted(s: Bytes)
    requires ReadListBegin(s).Ok?
    ensures ReadListBegin(s).value.1 < MAX_SIZE
    ensures PrintListBegin(s[0], ReadListBegin(s).value.1) == s[..5]
  {
    Widths();
    PutGetInt(s[1..5]);
  }

  lemma MapBeginIsPrinted(s: Bytes)
    requires ReadMapBegin(s).Ok?
    ensures ReadMapBegin(s).value.2 < MAX_SIZE
    ensures PrintMapBegin(s[0], s[1], ReadMapBegin(s).value.2) == s[..6]
  {
    Widths();
    PutGetInt(s[2..6]);
  }

  lemma FieldBeginIsPrinted(s: Bytes)
    requires ReadFieldBegin(s).Ok? && s[0] != STOP
    ensures Fits(ReadFieldBegin(s).value.1, 2)
    ensures PrintFieldBegin(s[0], ReadFieldBegin(s).value.1) == s[..3]
  {
    PutGetInt(s[1..3]);
  }

  /** A prefix taken in two parts. */
  lemma InTwo(s: Bytes, n: nat, m: nat)
    requires n + m <= |s|
    ensures s[..n + m] == s[..n] + s[n..][..m]
  {}

  // ---------- what is skipped

  lemma {:induction false} SkippedIsPrinted(s: Bytes, t: Byte) returns (w: Tree)
    requires Skip(s, t).Ok?
    ensures WellFormed(w) && TypeOf(w) == t && Print(w) == s[..Skip(s, t).n]
    decreases |s|, 1
  {
    if FixedSize(t) > 0 {
      w := Fixed(t, s[..FixedSize(t)]);
    } else if t == STRING {
      TextIsPrinted(s);
      w := Text(ReadString(s).value);
    } else if t == STRUCT {
      var fs := SkippedFieldsArePrinted(s);
      w := Record(fs);
    } else if t == LIST || t == SET {
      var size := ReadListBegin(s).value.1;
      ListBeginIsPrinted(s);
      var items := SkippedItemsArePrinted(s[5..], s[0], size);
      w := Sequence(t, s[0], items);
      InTwo(s, 5, SkipItems(s[5..], s[0], size).n);
    } else {
      var size := ReadMapBegin(s).value.2;
      MapBeginIsPrinted(s);
      var entries := SkippedEntriesArePrinted(s[6..], s[0], s[1], size);
      w := Dictionary(s[0], s[1], entries);
      InTwo(s, 6, SkipEntries(s[6..], s[0], s[1], size).n);
    }
  }

  lemma {:induction false} SkippedFieldsArePrinted(s: Bytes) returns (fs: seq<Tagged>)
    requires SkipFields(s).Ok?
    ensures forall f <- fs :: Fits(f.id, 2) && WellFormed(f.body)
    ensures PrintFields(fs) == s[..SkipFields(s).n]
    decreases |s|, 0
  {
    if s[0] == STOP {
      fs := [];
    } else {
      FieldBeginIsPrinted(s);
      var body := SkippedIsPrinted(s[3..], s[0]);
      var m := 3 + Skip(s[3..], s[0]).n;
      var rest := SkippedFieldsArePrinted(s[m..]);
      var f := Tagged(ReadFieldBegin(s).value.1, body);
      fs := [f] + rest;
      InTwo(s, 3, m - 3);
      InTwo(s, m, SkipFields(s[m..]).n);
      assert fs[1..] == rest;
    }
  }

  lemma {:induction false} SkippedItemsArePrinted(s: Bytes, t: Byte, count: nat) returns (items: seq<Tree>)
    requires SkipItems(s, t, count).Ok?
    ensures |items| == count && forall x <- items :: TypeOf(x) == t && WellFormed(x)
    ensures PrintItems(items) == s[..SkipItems(s, t, count).n]
    decreases |s|, 2
  {
    if count == 0 {
      items := [];
    } else {
      hide Skip, WellFormed, Print, TypeOf;
      var n := Skip(s, t).n;
      var first := SkippedIsPrinted(s, t);
      var rest := SkippedItemsArePrinted(s[n..], t, count - 1);
      items := [first] + rest;
      InTwo(s, n, SkipItems(s[n..], t, count - 1).n);
      assert items[1..] == rest;
    }
  }

  lemma {:induction false} SkippedEntryIsPrinted(s: Bytes, k: Byte, v: Byte) returns (x: Entry)
    requires Skip(s, k).Ok? && Skip(s[Skip(s, k).n..], v).Ok?
    ensures WellFormedEntry(k, v, x)
    ensures PrintEntry(x) == s[..Skip(s, k).n + Skip(s[Skip(s, k).n..], v).n]
    decreases |s|, 2
  {
    hide Skip, WellFormed, Print, TypeOf;
    var n := Skip(s, k).n;
    var key := SkippedIsPrinted(s, k);
    var val := SkippedIsPrinted(s[n..], v);
    x := Entry(key, val);
    InTwo(s, n, Skip(s[n..], v).n);
  }

  lemma SkipEntriesStep(s: Bytes, k: Byte, v: Byte, count: nat)
    requires count > 0 && SkipEntries(s, k, v, count).Ok?
    ensures Skip(s, k).Ok? && Skip(s[Skip(s, k).n..], v).Ok?
    ensures var m := Skip(s, k).n + Skip(s[Skip(s, k).n..], v).n;
      var r := SkipEntries(s[m..], k, v, count - 1);
      m >= 2 && r.Ok? && SkipEntries(s, k, v, count).n == m + r.n
  {
    hide Skip;
  }

  lemma {:induction false} SkippedEntriesArePrinted(s: Bytes, k: Byte, v: Byte, count: nat)
    returns (entries: seq<Entry>)
    requires SkipEntries(s, k, v, count).Ok?
    ensures |entries| == count && forall x <- entries :: WellFormedEntry(k, v, x)
    ensures PrintEntries(entries) == s[..SkipEntries(s, k, v, count).n]
    decreases |s|, 3
  {
    hide Skip, WellFormedEntry, PrintEntry, PrintFields, PrintItems, Print;
    if count == 0 {
      entries := [];
    } else {
      hide SkipEntries;
      SkipEntriesStep(s, k, v, count);
      var m := Skip(s, k).n + Skip(s[Skip(s, k).n..], v).n;
      var first := SkippedEntryIsPrinted(s, k, v);
      var rest := SkippedEntriesArePrinted(s[m..], k, v, count - 1);
      entries := [first] + rest;
      InTwo(s, m, SkipEntries(s[m..], k, v, count - 1).n);
      assert entries[1..] == rest;
    }
  }

  /** The converse of SkipPrinted: a skip succeeds exactly on what starts with a well-formed tree of the type. */
  lemma {:induction false} SkipsIff(s: Bytes, t: Byte)
    ensures Skip(s, t).Ok? <==> exists w :: WellFormed(w) && TypeOf(w) == t && Print(w) <= s
  {
    hide Skip, WellFormed, TypeOf, Print;
    if Skip(s, t).Ok? {
      var w := SkippedIsPrinted(s, t);
    }
    if w :| WellFormed(w) && TypeOf(w) == t && Print(w) <= s {
      SkipPrinted(w, s[|Print(w)|..]);
      assert s == Print(w) + s[|Print(w)|..];
    }
  }

  // ---------- what is read

  lemma ReadScalarIsPrinted(t: Scalar, s: Bytes) returns (w: Tree)
    requires ReadScalar(t, s).Ok?
    ensures ScalarConforms(t, w) && ScalarMeaning(t, w) == ReadScalar(t, s).value
    ensures Print(w) == s[..ReadScalar(t, s).n]
  {
    if t.SStr? {
      TextIsPrinted(s);
      w := Text(ReadString(s).value);
    } else {
      w := Fixed(ScalarCode(t), s[..FixedSize(ScalarCode(t))]);
    }
  }

  lemma {:induction false} ReadValIsPrinted(ty: Ty, s: Bytes) returns (w: Tree)
    requires ReadVal(ty, s).Ok?
    ensures Conforms(ty, w) && Meaning(ty, w) == ReadVal(ty, s).value
    ensures Print(w) == s[..ReadVal(ty, s).n]
    decreases |s|, 1
  {
    match ty
    case TScalar(t) =>
      w := ReadScalarIsPrinted(t, s);
    case TStruct(sch) =>
      var fs := ReadFieldsArePrinted(sch, Zero(sch), s);
      w := Record(fs);
    case TList(e) =>
      var size := ReadListBegin(s).value.1;
      ListBeginIsPrinted(s);
      var items := ReadItemsArePrinted(e, size, s[5..]);
      w := Sequence(LIST, s[0], items);
      InTwo(s, 5, ReadItems(e, size, s[5..]).n);
    case TMap(k, v) =>
      var size := ReadMapBegin(s).value.2;
      MapBeginIsPrinted(s);
      var entries := ReadEntriesArePrinted(k, v, size, map[], s[6..]);
      w := Dictionary(s[0], s[1], entries);
      InTwo(s, 6, ReadEntries(k, v, size, map[], s[6..]).n);
  }

  lemma {:induction false} ReadItemsArePrinted(e: Ty, size: nat, s: Bytes) returns (items: seq<Tree>)
    requires ReadItems(e, size, s).Ok?
    ensures |items| == size && forall x <- items :: Conforms(e, x)
    ensures Meanings(e, items) == ReadItems(e, size, s).value
    ensures PrintItems(items) == s[..ReadItems(e, size, s).n]
    decreases |s|, 2
  {
    hide ReadVal, Conforms, Meaning, Print, PrintFields, PrintEntries, ReadStruct;
    if size == 0 {
      items := [];
    } else {
      var n := ReadVal(e, s).n;
      var first := ReadValIsPrinted(e, s);
      var rest := ReadItemsArePrinted(e, size - 1, s[n..]);
      items := [first] + rest;
      InTwo(s, n, ReadItems(e, size - 1, s[n..]).n);
      assert items[1..] == rest;
    }
  }

  lemma ReadEntryIsPrinted(k: Scalar, v: Scalar, s: Bytes) returns (x: Entry)
    requires ReadEntry(k, v, s).Ok?
    ensures EntryConforms(k, v, x)
    ensures (ScalarMeaning(k, x.key), ScalarMeaning(v, x.val)) == ReadEntry(k, v, s).value
    ensures PrintEntry(x) == s[..ReadEntry(k, v, s).n]
  {
    var n := ReadScalar(k, s).n;
    var key := ReadScalarIsPrinted(k, s);
    var val := ReadScalarIsPrinted(v, s[n..]);
    x := Entry(key, val);
    InTwo(s, n, ReadScalar(v, s[n..]).n);
  }

  lemma {:induction false} ReadEntriesArePrinted(k: Scalar, v: Scalar, size: nat, acc: map<Val, Val>, s: Bytes)
    returns (entries: seq<Entry>)
    requires ReadEntries(k, v, size, acc, s).Ok?
    ensures |entries| == size && forall x <- entries :: EntryConforms(k, v, x)
    ensures EntriesMeaning(k, v, entries, acc) == ReadEntries(k, v, size, acc, s).value
    ensures PrintEntries(entries) == s[..ReadEntries(k, v, size, acc, s).n]
    decreases size
  {
    hide ReadEntry, EntryConforms, PrintEntry, ScalarMeaning, PrintFields, PrintItems;
    if size == 0 {
      entries := [];
    } else {
      var r := ReadEntry(k, v, s);
      var first := ReadEntryIsPrinted(k, v, s);
      var next := acc[r.value.0 := r.value.1];
      var rest := ReadEntriesArePrinted(k, v, size - 1, next, s[r.n..]);
      entries := [first] + rest;
      InTwo(s, r.n, ReadEntries(k, v, size - 1, next, s[r.n..]).n);
      assert entries[1..] == rest;
    }
  }

  lemma {:induction false} ReadFieldIsPrinted(sch: Schema, p: map<int, Val>, t: Byte, id: int, s: Bytes)
    returns (f: Tagged)
    requires ReadField(sch, p, t, id, s).Ok? && Fits(id, 2)
    ensures f.id == id && TypeOf(f.body) == t && TaggedConforms(sch, f)
    ensures Take(sch, p, f) == ReadField(sch, p, t, id, s).value
    ensures Print(f.body) == s[..ReadField(sch, p, t, id, s).n]
    decreases |s|, 2
  {
    var body;
    if Accepts(sch, t, id) {
      body := ReadValIsPrinted(Lookup(sch, id).value.ty, s);
    } else {
      body := SkippedIsPrinted(s, t);
    }
    f := Tagged(id, body);
  }

  lemma {:induction false} ReadFieldsArePrinted(sch: Schema, p: map<int, Val>, s: Bytes) returns (fs: seq<Tagged>)
    requires ReadStruct(sch, p, s).Ok?
    ensures forall f <- fs :: TaggedConforms(sch, f)
    ensures Fold(sch, p, fs) == ReadStruct(sch, p, s).value
    ensures PrintFields(fs) == s[..ReadStruct(sch, p, s).n]
    decreases |s|, 0
  {
    if s[0] == STOP {
      fs := [];
    } else {
      FieldBeginIsPrinted(s);
      var id := ReadFieldBegin(s).value.1;
      var r := ReadField(sch, p, s[0], id, s[3..]);
      var f := ReadFieldIsPrinted(sch, p, s[0], id, s[3..]);
      var m := 3 + r.n;
      var rest := ReadFieldsArePrinted(sch, r.value, s[m..]);
      fs := [f] + rest;
      InTwo(s, 3, r.n);
      InTwo(s, m, ReadStruct(sch, r.value, s[m..]).n);
      assert fs[1..] == rest;
    }
  }

  /** The converse of TreeReadsBack: FastRead succeeds exactly on what starts with a conforming tree. */
  lemma {:induction false} AcceptsIff(ty: Ty, s: Bytes)
    ensures ReadVal(ty, s).Ok? <==> exists w :: Conforms(ty, w) && Print(w) <= s
    ensures ReadVal(ty, s).Ok? ==>
      exists w :: Conforms(ty, w) && ReadVal(ty, s) == Ok(Meaning(ty, w), |Print(w)|) && Print(w) <= s
  {
    hide ReadVal, Conforms, Meaning, Print;
    if ReadVal(ty, s).Ok? {
      var w := ReadValIsPrinted(ty, s);
      assert |Print(w)| == ReadVal(ty, s).n;
    }
    if w :| Conforms(ty, w) && Print(w) <= s {
      TreeReadsBack(ty, w, s[|Print(w)|..]);
      assert s == Print(w) + s[|Print(w)|..];
    }
  }

  /** Trees of one type are told apart by their bytes alone: none is printed as the start of another. */
  lemma {:induction false} NoTreeStartsAnother(ty: Ty, w: Tree, w': Tree)
    requires Conforms(ty, w) && Conforms(ty, w') && Print(w) <= Print(w')
    ensures Print(w) == Print(w') && Meaning(ty, w) == Meaning(ty, w')
  {
    hide ReadVal, Conforms, Meaning, Print;
    TreeReadsBack(ty, w, Print(w')[|Print(w)|..]);
    TreeReadsBack(ty, w', []);
    assert Print(w') == Print(w) + Print(w')[|Print(w)|..] == Print(w') + [];
  }
}
