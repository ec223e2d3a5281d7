/** The queue of values by serial, src/common/SerialQueue.h: buckets of values that share a serial,
    seen from outside as one list of values with their serials. */
module SerialQueues {
  import opened Wrappers

  type Serial = nat

  datatype Bucket<T> = Bucket(serial: Serial, values: seq<T>)

  datatype Entry<T> = Entry(serial: Serial, value: T)

  // ----- Buckets as a list -----

  function Entries<T>(serial: Serial, values: seq<T>): (es: seq<Entry<T>>)
    ensures |es| == |values| && forall i :: 0 <= i < |es| ==> es[i] == Entry(serial, values[i])
  {
    if values == [] then [] else [Entry(serial, values[0])] + Entries(serial, values[1..])
  }

  function Flat<T>(storage: seq<Bucket<T>>): seq<Entry<T>> {
    if storage == [] then [] else Entries(storage[0].serial, storage[0].values) + Flat(storage[1..])
  }

  /** Serials do not decrease, and no bucket is empty. */
  predicate Ordered<T>(storage: seq<Bucket<T>>) {
    && (forall i :: 0 <= i < |storage| ==> storage[i].values != [])
    && (forall i, j :: 0 <= i < j < |storage| ==> storage[i].serial <= storage[j].serial)
  }

  // ----- Lists by serial -----

  /** The entries with at most, or with more than, a serial. */
  function Below<T>(es: seq<Entry<T>>, serial: Serial): seq<Entry<T>> {
    if es == [] then [] else (if es[0].serial <= serial then [es[0]] else []) + Below(es[1..], serial)
  }

  function Above<T>(es: seq<Entry<T>>, serial: Serial): seq<Entry<T>> {
    if es == [] then [] else (if es[0].serial <= serial then [] else [es[0]]) + Above(es[1..], serial)
  }

  function Values<T>(es: seq<Entry<T>>): seq<T> {
    if es == [] then [] else [es[0].value] + Values(es[1..])
  }

  lemma Assoc<T>(a: seq<T>, b: seq<T>, c: seq<T>)
    ensures a + b + c == a + (b + c)
  {
  }

  lemma {:induction false} FlatJoin<T>(a: seq<Bucket<T>>, b: seq<Bucket<T>>)
    ensures Flat(a + b) == Flat(a) + Flat(b)
  {
    if a == [] {
      assert a + b == b;
    } else {
      assert (a + b)[1..] == a[1..] + b;
      FlatJoin(a[1..], b);
      Assoc(Entries(a[0].serial, a[0].values), Flat(a[1..]), Flat(b));
    }
  }

  lemma FlatOne<T>(b: Bucket<T>)
    ensures Flat([b]) == Entries(b.serial, b.values)
  {
    assert [b][1..] == [];
    assert Entries(b.serial, b.values) + [] == Entries(b.serial, b.values);
  }

  lemma {:induction false} EntriesJoin<T>(serial: Serial, a: seq<T>, b: seq<T>)
    ensures Entries(serial, a + b) == Entries(serial, a) + Entries(serial, b)
  {
  }

  lemma {:induction false} ValuesJoin<T>(a: seq<Entry<T>>, b: seq<Entry<T>>)
    ensures Values(a + b) == Values(a) + Values(b)
  {
    if a == [] {
      assert a + b == b;
    } else {
      assert (a + b)[1..] == a[1..] + b;
      ValuesJoin(a[1..], b);
      Assoc([a[0].value], Values(a[1..]), Values(b));
    }
  }

  lemma {:induction false} ValuesOfEntries<T>(serial: Serial, values: seq<T>)
    ensures Values(Entries(serial, values)) == values
  {
    if values != [] {
      assert Entries(serial, values)[1..] == Entries(serial, values[1..]);
      ValuesOfEntries(serial, values[1..]);
    }
  }

  /** A list that ends with larger serials only is cut there. */
  lemma {:induction false} CutBySerial<T>(low: seq<Entry<T>>, high: seq<Entry<T>>, serial: Serial)
    requires (forall e | e in low :: e.serial <= serial) && (forall e | e in high :: e.serial > serial)
    ensures Below(low + high, serial) == low && Above(low + high, serial) == high
  {
    if low == [] {
      assert low + high == high;
      if high != [] {
        assert high == [] + high && high == [high[0]] + high[1..];
        CutBySerial(low, high[1..], serial);
        assert [] + high[1..] == high[1..];
      }
    } else {
      assert (low + high)[1..] == low[1..] + high;
      CutBySerial(low[1..], high, serial);
      assert low == [low[0]] + low[1..] && high == [] + high;
    }
  }

  lemma {:induction false} FlatSerials<T>(storage: seq<Bucket<T>>, serial: Serial)
    ensures (forall b | b in storage :: b.serial <= serial) ==> forall e | e in Flat(storage) :: e.serial <= serial
    ensures (forall b | b in storage :: b.serial > serial) ==> forall e | e in Flat(storage) :: e.serial > serial
  {
    if storage != [] {
      FlatSerials(storage[1..], serial);
      var first := Entries(storage[0].serial, storage[0].values);
      assert storage[0] in storage && forall b | b in storage[1..] :: b in storage;
      forall e | e in Flat(storage) ensures e in first || e in Flat(storage[1..]) {
      }
    }
  }

  /** Buckets up to an index with serials up to `serial`, and the others above. */
  lemma FlatCut<T>(storage: seq<Bucket<T>>, k: nat, serial: Serial)
    requires k <= |storage| && Ordered(storage)
    requires (forall i :: 0 <= i < k ==> storage[i].serial <= serial) && (k < |storage| ==> storage[k].serial > serial)
    ensures Below(Flat(storage), serial) == Flat(storage[..k]) && Above(Flat(storage), serial) == Flat(storage[k..])
  {
    hide Flat, Below, Above;
    assert storage == storage[..k] + storage[k..];
    FlatJoin(storage[..k], storage[k..]);
    FlatSerials(storage[..k], serial);
    FlatSerials(storage[k..], serial);
    assert forall b | b in storage[k..] :: b.serial > serial;
    CutBySerial(Flat(storage[..k]), Flat(storage[k..]), serial);
  }

  // ----- The two-level iterator -----

  /** A bucket, and a position in its values; the first position is tagged by none. */
  datatype Cursor = Cursor(bucket: nat, position: Option<nat>)

  function Index(c: Cursor): nat {
    if c.position.None? then 0 else c.position.value
  }

  /** The cursor is at a value before the end, or at the end. */
  predicate InRange<T>(storage: seq<Bucket<T>>, c: Cursor, end: nat) {
    && c.bucket <= end <= |storage|
    && (c.bucket == end ==> c.position.None?)
    && (c.bucket < end ==> Index(c) < |storage[c.bucket].values| && c.position != Some(0))
  }

  /** The values from the cursor to the end. */
  function Left<T>(storage: seq<Bucket<T>>, c: Cursor, end: nat): seq<T>
    requires InRange(storage, c, end)
  {
    if c.bucket == end then [] else storage[c.bucket].values[Index(c)..] + Values(Flat(storage[c.bucket + 1..end]))
  }

  function Next<T>(storage: seq<Bucket<T>>, c: Cursor): Cursor
    requires c.bucket < |storage|
  {
    var i := if c.position.None? then 1 else c.position.value + 1;
    if i >= |storage[c.bucket].values| then Cursor(c.bucket + 1, None) else Cursor(c.bucket, Some(i))
  }

  lemma NoValues<T>()
    ensures Values(Flat<T>([])) == []
  {
  }

  lemma NextIsRest<T>(storage: seq<Bucket<T>>, c: Cursor, end: nat)
    requires Ordered(storage) && InRange(storage, c, end) && c.bucket < end
    ensures InRange(storage, Next(storage, c), end)
    ensures Left(storage, c, end) == [storage[c.bucket].values[Index(c)]] + Left(storage, Next(storage, c), end)
  {
    hide Flat, Values, Entries;
    var values, i := storage[c.bucket].values, Index(c);
    var rest := Values(Flat(storage[c.bucket + 1..end]));
    assert values[i..] == [values[i]] + values[i + 1..];
    Assoc([values[i]], values[i + 1..], rest);
    if i + 1 >= |values| {
      assert values[i + 1..] == [] && [] + rest == rest;
      if c.bucket + 1 < end {
        FlatFirst(storage, c.bucket + 1, end);
        assert storage[c.bucket + 1].values[0..] == storage[c.bucket + 1].values;
      } else {
        assert storage[c.bucket + 1..end] == [];
        NoValues<T>();
      }
    }
  }

  lemma FlatFirst<T>(storage: seq<Bucket<T>>, k: nat, end: nat)
    requires k < end <= |storage|
    ensures Values(Flat(storage[k..end])) == storage[k].values + Values(Flat(storage[k + 1..end]))
  {
    assert storage[k..end][1..] == storage[k + 1..end];
    ValuesJoin(Entries(storage[k].serial, storage[k].values), Flat(storage[k + 1..end]));
    ValuesOfEntries(storage[k].serial, storage[k].values);
  }

  lemma AllLeft<T>(storage: seq<Bucket<T>>, end: nat)
    requires Ordered(storage) && end <= |storage|
    ensures InRange(storage, Cursor(0, None), end)
    ensures Left(storage, Cursor(0, None), end) == Values(Flat(storage[..end]))
  {
    if end > 0 {
      FlatFirst(storage, 0, end);
      assert storage[0].values[0..] == storage[0].values;
    }
    assert storage[0..end] == storage[..end];
  }

  // ----- The queue as an object -----

  class SerialQueue<T(==)> {
    var storage: seq<Bucket<T>>

    predicate Valid()
      reads this
    {
      Ordered(storage)
    }

    function Contents(): seq<Entry<T>>
      reads this
    {
      Flat(storage)
    }

    /** Callers give serials in non-decreasing order. */
    predicate Accepts(serial: Serial)
      reads this
    {
      storage == [] || storage[|storage| - 1].serial <= serial
    }

    constructor ()
      ensures Valid() && Contents() == []
    {
      storage := [];
    }

    method Enqueue(value: T, serial: Serial)
      requires Valid() && Accepts(serial)
      modifies this
      ensures Valid() && Contents() == old(Contents()) + [Entry(serial, value)] && !Empty() && Accepts(serial)
    {
      hide Flat;
      if storage == [] || storage[|storage| - 1].serial < serial {
        FlatOne(Bucket(serial, [value]));
        FlatJoin(storage, [Bucket(serial, [value])]);
        storage := storage + [Bucket(serial, [])];
        storage := storage[|storage| - 1 := Bucket(serial, [value])];
        assert storage == old(storage) + [Bucket(serial, [value])];
      } else {
        var last := |storage| - 1;
        var front, bucket := storage[..last], storage[last];
        var bucket' := Bucket(bucket.serial, bucket.values + [value]);
        assert storage == front + [bucket];
        FlatJoin(front, [bucket]);
        FlatJoin(front, [bucket']);
        FlatOne(bucket);
        FlatOne(bucket');
        EntriesJoin(bucket.serial, bucket.values, [value]);
        Assoc(Flat(front), Entries(bucket.serial, bucket.values), [Entry(serial, value)]);
        storage := storage[last := bucket'];
        assert storage == front + [bucket'];
      }
    }

    method EnqueueAll(values: seq<T>, serial: Serial)
      requires Valid() && Accepts(serial) && values != []
      modifies this
      ensures Valid() && Contents() == old(Contents()) + Entries(serial, values) && !Empty() && Accepts(serial)
    {
      FlatOne(Bucket(serial, values));
      FlatJoin(storage, [Bucket(serial, values)]);
      storage := storage + [Bucket(serial, values)];
    }

    predicate Empty()
      reads this
    {
      storage == []
    }

    /** The smallest serial in the queue. */
    method FirstSerial() returns (serial: Serial)
      requires Valid() && !Empty()
      ensures Contents() != [] && Contents()[0].serial == serial && forall e | e in Contents() :: serial <= e.serial
    {
      serial := storage[0].serial;
      assert Contents()[0] == Entry(serial, storage[0].values[0]);
      if serial > 0 {
        assert forall b | b in storage :: b.serial > serial - 1;
        FlatSerials(storage, serial - 1);
      }
    }

    method FindUpTo(serial: Serial) returns (it: nat)
      requires Valid()
      ensures it <= |storage|
      ensures Below(Contents(), serial) == Flat(storage[..it]) && Above(Contents(), serial) == Flat(storage[it..])
    {
      it := 0;
      while it < |storage| && storage[it].serial <= serial
        invariant it <= |storage| && forall i :: 0 <= i < it ==> storage[i].serial <= serial
      {
        it := it + 1;
      }
      FlatCut(storage, it, serial);
    }

    /** The values an iteration up to a serial visits: all with at most that serial, in the order they
        were enqueued. */
    method IterateUpTo(serial: Serial) returns (visited: seq<T>)
      requires Valid()
      ensures visited == Values(Below(Contents(), serial))
    {
      hide Flat, Values, Below, Above, Ordered;
      var end := FindUpTo(serial);
      var it := Cursor(0, None);
      visited := [];
      AllLeft(storage, end);
      while it != Cursor(end, None)
        invariant InRange(storage, it, end)
        invariant visited + Left(storage, it, end) == Values(Flat(storage[..end]))
        decreases |Left(storage, it, end)|
      {
        NextIsRest(storage, it, end);
        visited := visited + [storage[it.bucket].values[Index(it)]];
        it := Next(storage, it);
      }
    }

    method ClearUpTo(serial: Serial)
      requires Valid()
      modifies this
      ensures Valid() && Contents() == Above(old(Contents()), serial)
      ensures forall next: Serial :: old(Accepts(next)) ==> Accepts(next)
    {
      var it := FindUpTo(serial);
      storage := storage[it..];
    }

    method Clear()
      modifies this
      ensures Valid() && Contents() == []
    {
      storage := [];
    }
  }
}
