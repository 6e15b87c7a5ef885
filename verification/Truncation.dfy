/**
 A read that succeeds has looked only at the bytes it consumed: more bytes change nothing. So the
 encoding is prefix-free, and no message cut short is ever accepted.
 */
module Truncation {
  import opened Binary
  import opened Wire
  import opened Message
  import opened Writing

  /** If a read succeeded on fewer bytes, it reads the same on more. */
  predicate Same<T(==)>(fewer: Read<T>, more: Read<T>)
  {
    fewer.Ok? ==> more == fewer
  }

  lemma Shorter(s: Bytes, t: Bytes, n: nat)
    requires n <= |s|
    ensures (s + t)[n..] == s[n..] + t
  {}

  lemma Slices(s: Bytes, t: Bytes, i: nat, j: nat)
    requires i <= j <= |s|
    ensures (s + t)[i..j] == s[i..j]
  {}

  lemma IntLocal(s: Bytes, t: Bytes, w: nat)
    requires w > 0
    ensures Same(ReadInt(s, w), ReadInt(s + t, w))
  {
    if w <= |s| {
      Slices(s, t, 0, w);
      assert (s + t)[..w] == (s + t)[0..w] && s[..w] == s[0..w];
    }
  }

  lemma StringLocal(s: Bytes, t: Bytes)
    ensures Same(ReadString(s), ReadString(s + t))
  {
    IntLocal(s, t, 4);
    if ReadString(s).Ok? {
      Slices(s, t, 4, ReadString(s).n);
    }
  }

  lemma FieldBeginLocal(s: Bytes, t: Bytes)
    ensures Same(ReadFieldBegin(s), ReadFieldBegin(s + t))
  {
    if |s| >= 3 {
      Slices(s, t, 1, 3);
    }
  }

  lemma ListBeginLocal(s: Bytes, t: Bytes)
    ensures Same(ReadListBegin(s), ReadListBegin(s + t))
  {
    if |s| >= 5 {
      Slices(s, t, 1, 5);
    }
  }

  lemma MapBeginLocal(s: Bytes, t: Bytes)
    ensures Same(ReadMapBegin(s), ReadMapBegin(s + t))
  {
    if |s| >= 6 {
      Slices(s, t, 2, 6);
    }
  }

  // ---------- skipping

  lemma {:induction false} SkipLocal(s: Bytes, t: Bytes, ty: int)
    ensures Same(Skip(s, ty), Skip(s + t, ty))
    decreases |s|, 1
  {
    hide ReadString, ReadListBegin, ReadMapBegin;
    if FixedSize(ty) > 0 {
    } else if ty == STRING {
      StringLocal(s, t);
    } else if ty == STRUCT {
      SkipFieldsLocal(s, t);
    } else if ty == LIST || ty == SET {
      ListBeginLocal(s, t);
      if ReadListBegin(s).Ok? {
        Shorter(s, t, 5);
        SkipItemsLocal(s[5..], t, ReadListBegin(s).value.0, ReadListBegin(s).value.1);
      }
    } else if ty == MAP {
      MapBeginLocal(s, t);
      if ReadMapBegin(s).Ok? {
        Shorter(s, t, 6);
        var (k, v, size) := ReadMapBegin(s).value;
        SkipEntriesLocal(s[6..], t, k, v, size);
      }
    }
  }

  lemma {:induction false} SkipFieldsLocal(s: Bytes, t: Bytes)
    ensures Same(SkipFields(s), SkipFields(s + t))
    decreases |s|, 0
  {
    hide ReadFieldBegin, Skip;
    FieldBeginLocal(s, t);
    if ReadFieldBegin(s).Ok? && ReadFieldBegin(s).value.0 != STOP {
      var n, ty := ReadFieldBegin(s).n, ReadFieldBegin(s).value.0;
      Shorter(s, t, n);
      SkipLocal(s[n..], t, ty);
      if Skip(s[n..], ty).Ok? {
        var m := Skip(s[n..], ty).n;
        Shorter(s, t, n + m);
        SkipFieldsLocal(s[n + m..], t);
      }
    }
  }

  lemma {:induction false} SkipItemsLocal(s: Bytes, t: Bytes, ty: int, count: nat)
    ensures Same(SkipItems(s, ty, count), SkipItems(s + t, ty, count))
    decreases |s|, 2
  {
    hide Skip;
    if count > 0 {
      SkipLocal(s, t, ty);
      if Skip(s, ty).Ok? {
        Shorter(s, t, Skip(s, ty).n);
        SkipItemsLocal(s[Skip(s, ty).n..], t, ty, count - 1);
      }
    }
  }

  lemma {:induction false} SkipEntriesLocal(s: Bytes, t: Bytes, k: int, v: int, count: nat)
    ensures Same(SkipEntries(s, k, v, count), SkipEntries(s + t, k, v, count))
    decreases |s|, 2
  {
    hide Skip, SkipEntries;
    EntriesOnce(s, k, v, count);
    EntriesOnce(s + t, k, v, count);
    if count > 0 {
      SkipLocal(s, t, k);
      if Skip(s, k).Ok? {
        var n := Skip(s, k).n;
        Shorter(s, t, n);
        SkipLocal(s[n..], t, v);
        if Skip(s[n..], v).Ok? {
          var m := Skip(s[n..], v).n;
          Shorter(s, t, n + m);
          SkipEntriesLocal(s[n + m..], t, k, v, count - 1);
        }
      }
    }
  }

  lemma EntriesOnce(s: Bytes, k: int, v: int, count: nat)
    ensures count == 0 ==> SkipEntries(s, k, v, count) == Ok((), 0)
    ensures count > 0 ==>
      var n := Skip(s, k).n;
      var m := Skip(s[n..], v).n;
      SkipEntries(s, k, v, count) ==
        if Skip(s, k).Ok? && Skip(s[n..], v).Ok? then Advance(n + m, SkipEntries(s[n + m..], k, v, count - 1))
        else Err(0)
  {
    hide Skip;
  }

  // ---------- reading

  lemma ScalarLocal(ty: Scalar, s: Bytes, t: Bytes)
    ensures Same(ReadScalar(ty, s), ReadScalar(ty, s + t))
  {
    IntLocal(s, t, 4);
    IntLocal(s, t, 8);
    StringLocal(s, t);
    hide ReadInt, ReadString;
  }

  lemma EntryLocal(k: Scalar, v: Scalar, s: Bytes, t: Bytes)
    ensures Same(ReadEntry(k, v, s), ReadEntry(k, v, s + t))
  {
    hide ReadScalar;
    ScalarLocal(k, s, t);
    if ReadScalar(k, s).Ok? {
      Shorter(s, t, ReadScalar(k, s).n);
      ScalarLocal(v, s[ReadScalar(k, s).n..], t);
    }
  }

  lemma {:induction false} EntriesLocal(k: Scalar, v: Scalar, size: nat, acc: map<Val, Val>, s: Bytes, t: Bytes)
    ensures Same(ReadEntries(k, v, size, acc, s), ReadEntries(k, v, size, acc, s + t))
    decreases size
  {
    hide ReadEntry;
    if size > 0 {
      EntryLocal(k, v, s, t);
      if ReadEntry(k, v, s).Ok? {
        var (key, val) := ReadEntry(k, v, s).value;
        Shorter(s, t, ReadEntry(k, v, s).n);
        EntriesLocal(k, v, size - 1, acc[key := val], s[ReadEntry(k, v, s).n..], t);
      }
    }
  }

  lemma {:induction false} ValLocal(ty: Ty, s: Bytes, t: Bytes)
    ensures Same(ReadVal(ty, s), ReadVal(ty, s + t))
    decreases |s|, 1
  {
    hide ReadScalar, ReadListBegin, ReadMapBegin, ReadEntries;
    match ty
    case TScalar(x) => ScalarLocal(x, s, t);
    case TStruct(sch) => StructLocal(sch, Zero(sch), s, t);
    case TList(e) =>
      ListBeginLocal(s, t);
      if ReadListBegin(s).Ok? {
        Shorter(s, t, 5);
        ItemsLocal(e, ReadListBegin(s).value.1, s[5..], t);
      }
    case TMap(k, v) =>
      MapBeginLocal(s, t);
      if ReadMapBegin(s).Ok? {
        Shorter(s, t, 6);
        EntriesLocal(k, v, ReadMapBegin(s).value.2, map[], s[6..], t);
      }
  }

  lemma {:induction false} ItemsLocal(e: Ty, size: nat, s: Bytes, t: Bytes)
    ensures Same(ReadItems(e, size, s), ReadItems(e, size, s + t))
    decreases |s|, 2
  {
    hide ReadVal;
    if size > 0 {
      ValLocal(e, s, t);
      if ReadVal(e, s).Ok? {
        Shorter(s, t, ReadVal(e, s).n);
        ItemsLocal(e, size - 1, s[ReadVal(e, s).n..], t);
      }
    }
  }

  lemma {:induction false} FieldLocal(sch: Schema, p: map<int, Val>, ty: int, id: int, s: Bytes, t: Bytes)
    ensures Same(ReadField(sch, p, ty, id, s), ReadField(sch, p, ty, id, s + t))
    decreases |s|, 2
  {
    hide ReadVal, Skip;
    if Accepts(sch, ty, id) {
      ValLocal(Lookup(sch, id).value.ty, s, t);
    } else {
      SkipLocal(s, t, ty);
    }
  }

  lemma {:induction false} StructLocal(sch: Schema, p: map<int, Val>, s: Bytes, t: Bytes)
    ensures Same(ReadStruct(sch, p, s), ReadStruct(sch, p, s + t))
    decreases |s|, 0
  {
    hide ReadFieldBegin, ReadField;
    FieldBeginLocal(s, t);
    if ReadFieldBegin(s).Ok? && ReadFieldBegin(s).value.0 != STOP {
      var n := ReadFieldBegin(s).n;
      var (ty, id) := ReadFieldBegin(s).value;
      Shorter(s, t, n);
      FieldLocal(sch, p, ty, id, s[n..], t);
      var r := ReadField(sch, p, ty, id, s[n..]);
      if r.Ok? {
        Shorter(s, t, n + r.n);
        StructLocal(sch, r.value, s[n + r.n..], t);
      }
    }
  }

  // ---------- no prefix of a message is a message

  /** What is written for a value, in any map order, is rejected when any of its last bytes are missing. */
  lemma {:induction false} TruncatedMessageRejected(ty: Ty, v: Val, w: Tree, n: nat)
    requires ValidTy(ty) && HasType(ty, v) && Writes(ty, v, w) && n < |Print(w)|
    ensures ReadVal(ty, Print(w)[..n]).Err?
  {
    hide ReadVal, HasType, Writes, Print, Length, ValidTy;
    var s := Print(w);
    RoundTrip(ty, v, w, []);
    WrittenLength(ty, v, w);
    assert s + [] == s && s[..n] + s[n..] == s;
    ValLocal(ty, s[..n], s[n..]);
    assert ReadVal(ty, s[..n]).n <= n;
  }
}
