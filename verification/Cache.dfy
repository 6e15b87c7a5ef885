/** MemoryCache: entries that expire. Marshalling and unmarshalling a value are taken to be inverse. */
module Cache {
  import opened Binary
  import opened Options

  datatype Entry<V> = Entry(value: V, expiration: int)

  predicate Expired<V>(e: Entry<V>, now: int)
  {
    now > e.expiration
  }

  /** What a Get at this time finds. */
  function Hit<V>(data: map<Bytes, Entry<V>>, key: Bytes, now: int): Option<V>
  {
    if key in data && !Expired(data[key], now) then Some(data[key].value) else None
  }

  /** What a Get at this time leaves behind: an expired entry it meets is dropped. */
  function Touched<V>(data: map<Bytes, Entry<V>>, key: Bytes, now: int): map<Bytes, Entry<V>>
  {
    if key in data && Expired(data[key], now) then data - {key} else data
  }

  /** The entries a cleanup at this time leaves. */
  function Unexpired<V>(data: map<Bytes, Entry<V>>, now: int): map<Bytes, Entry<V>>
  {
    map key | key in data && !Expired(data[key], now) :: data[key]
  }

  class MemoryCache<V> {
    var data: map<Bytes, Entry<V>>

    constructor ()
      ensures data == map[]
    {
      data := map[];
    }

    method Get(key: Bytes, now: int) returns (r: Option<V>)
      modifies this
      ensures r == Hit(old(data), key, now)
      ensures data == Touched(old(data), key, now)
      ensures if key in old(data) && now <= old(data)[key].expiration
        then r == Some(old(data)[key].value) && data == old(data)
        else r == None && data == old(data) - {key}
    {
      if key !in data {
        return None;
      }
      var entry := data[key];
      if now > entry.expiration {
        data := data - {key};
        return None;
      }
      return Some(entry.value);
    }

    method Set(key: Bytes, value: V, ttl: nat, now: int)
      modifies this
      ensures data == old(data)[key := Entry(value, now + ttl)]
    {
      data := data[key := Entry(value, now + ttl)];
    }

    method Delete(key: Bytes)
      modifies this
      ensures data == old(data) - {key}
    {
      data := data - {key};
    }

    method Clear()
      modifies this
      ensures data == map[]
    {
      data := map[];
    }

    method Cleanup(now: int)
      modifies this
      ensures data == Unexpired(old(data), now)
      ensures forall k :: k in data <==> k in old(data) && now <= old(data)[k].expiration
      ensures forall k <- data :: data[k] == old(data)[k]
    {
      var pending := data.Keys;
      while pending != {}
        invariant pending <= old(data).Keys
        invariant data.Keys == pending + Unexpired(old(data), now).Keys
        invariant forall key <- data :: data[key] == old(data)[key]
        invariant pending <= data.Keys
        decreases pending
      {
        var key :| key in pending;
        if Expired(data[key], now) {
          data := data - {key};
        }
        pending := pending - {key};
      }
    }
  }

  /**
   Over any reads and cleanups a value is served only until its expiration: an entry found at a time
   is still the one that was set, and its time to live has not passed.
   */
  lemma ServedBeforeExpiry<V>(data: map<Bytes, Entry<V>>, key: Bytes, other: Bytes, tick: int, now: int)
    ensures var d := Touched(Unexpired(data, tick), other, tick);
      Hit(d, key, now).Some? ==> key in data && d[key] == data[key] && now <= data[key].expiration
    ensures tick <= now ==> Hit(Touched(Unexpired(data, tick), other, tick), key, now) == Hit(data, key, now)
  {}

  // ---------- keys

  function Digits(n: nat): (d: Bytes)
    ensures d != [] && forall b <- d :: 48 <= b < 58
  {
    if n < 10 then [48 + n] else Digits(n / 10) + [48 + n % 10]
  }

  /** The number a string of digits stands for. */
  function Number(d: Bytes): int
  {
    if d == [] then 0 else 10 * Number(d[..|d| - 1]) + d[|d| - 1] as int - 48
  }

  lemma {:induction false} DigitsReadBack(n: nat)
    ensures Number(Digits(n)) == n
  {
    if n < 10 {
      assert Digits(n)[..0] == [];
      assert Number(Digits(n)[..0]) == 0;
    } else {
      DigitsReadBack(n / 10);
      assert Digits(n)[..|Digits(n)| - 1] == Digits(n / 10);
    }
  }

  /** The verb %d. */
  function Decimal(i: int): Bytes
  {
    if i < 0 then [45] + Digits(-i) else Digits(i)
  }

  lemma DecimalInjective(i: int, j: int)
    requires Decimal(i) == Decimal(j)
    ensures i == j
  {
    DigitsReadBack(if i < 0 then -i else i);
    DigitsReadBack(if j < 0 then -j else j);
    assert i < 0 ==> Decimal(i)[0] == 45 && Decimal(i)[1..] == Digits(-i);
    assert j < 0 ==> Decimal(j)[0] == 45 && Decimal(j)[1..] == Digits(-j);
    assert i >= 0 ==> Digits(i)[0] in Digits(i);
    assert j >= 0 ==> Digits(j)[0] in Digits(j);
  }
}
