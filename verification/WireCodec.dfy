/** The serializer and deserializer of generator/templates/dawn_wire/WireCmd.cpp as code: loops that
    fill a buffer in place and that advance a read position, each against the function that says
    what it computes. */
module WireCodec {
  import opened Bytes
  import opened WireFormat
  import opened WireRoundTrip
  import opened WireSerialize

  // ----- GetExtraRequiredSize -----

  lemma ConsElementsRequired(t: Type, vs: seq<Value>, k: nat)
    requires k < |vs| && FitsElements(t, vs[k..])
    ensures FitsType(t, vs[k]) && FitsElements(t, vs[k + 1..])
    ensures ElementsRequired(t, vs[k..]) == Required(t, vs[k]) + ElementsRequired(t, vs[k + 1..])
  {
    assert vs[k..][1..] == vs[k + 1..];
  }

  method GetExtraRequiredSize(t: Type, v: Value) returns (size: nat)
    requires FitsType(t, v)
    ensures size == Required(t, v)
    decreases t, 0, 0
  {
    if !t.Struct? {
      return 0;
    }
    var s, r := t.schema, v.record;
    size := 0;
    var i := 0;
    while i < |r.strings|
      invariant i <= |r.strings| && size + |Concat(r.strings[i..])| == |Concat(r.strings)|
    {
      assert r.strings[i..][1..] == r.strings[i + 1..];
      size := size + |r.strings[i]|;
      i := i + 1;
    }
    assert r.strings[i..] == [];
    var pointers := GetPointersRequiredSize(s.pointers, r.arrays, r.values);
    size := size + pointers;
  }

  lemma ConsPointersRequired(ps: seq<Pointer>, arrays: seq<Array>, values: seq<Value>, k: nat)
    requires k < |ps| == |arrays| && FitsPointers(ps[k..], arrays[k..], values)
    ensures FitsPointer(ps[k], arrays[k].elements, values) && FitsPointers(ps[k + 1..], arrays[k + 1..], values)
    ensures PointersRequired(ps[k..], arrays[k..], values)
            == PointerRequired(ps[k], arrays[k].elements, values) + PointersRequired(ps[k + 1..], arrays[k + 1..], values)
  {
    assert ps[k..][1..] == ps[k + 1..] && arrays[k..][1..] == arrays[k + 1..];
  }

  method GetPointersRequiredSize(ps: seq<Pointer>, arrays: seq<Array>, values: seq<Value>) returns (size: nat)
    requires FitsPointers(ps, arrays, values)
    ensures size == PointersRequired(ps, arrays, values)
    decreases ps, 0, 0
  {
    size := 0;
    var k := 0;
    while k < |ps|
      invariant k <= |ps| == |arrays| && FitsPointers(ps[k..], arrays[k..], values)
      invariant size + PointersRequired(ps[k..], arrays[k..], values) == PointersRequired(ps, arrays, values)
    {
      ConsPointersRequired(ps, arrays, values, k);
      var pointed := GetPointerRequiredSize(ps[k], arrays[k].elements, values);
      size := size + pointed;
      k := k + 1;
    }
  }

  method GetPointerRequiredSize(p: Pointer, elements: seq<Value>, values: seq<Value>) returns (size: nat)
    requires FitsPointer(p, elements, values)
    ensures size == PointerRequired(p, elements, values)
    decreases p, 0, 0
  {
    size := ElementsSize(p.elem, |elements|);
    var i := 0;
    while i < |elements|
      invariant i <= |elements| && FitsElements(p.elem, elements[i..])
      invariant size + ElementsRequired(p.elem, elements[i..]) == PointerRequired(p, elements, values)
    {
      ConsElementsRequired(p.elem, elements, i);
      var extra := GetExtraRequiredSize(p.elem, elements[i]);
      size := size + extra;
      i := i + 1;
    }
  }

  // ----- Serialize -----

  lemma PutOneMore(buffer: seq<byte>, at: nat, b: seq<byte>, i: nat)
    requires i < |b| && at + |b| <= |buffer|
    ensures Put(buffer, at, b[..i])[at + i := b[i]] == Put(buffer, at, b[..i + 1])
  {
  }

  /** `memcpy` and the store of a plain member. */
  method PutInto(buffer: array<byte>, at: nat, b: seq<byte>)
    requires at + |b| <= buffer.Length
    modifies buffer
    ensures buffer[..] == Put(old(buffer[..]), at, b)
  {
    var i := 0;
    assert buffer[..] == Put(buffer[..], at, b[..0]);
    while i < |b|
      invariant i <= |b| && buffer[..] == Put(old(buffer[..]), at, b[..i])
    {
      PutOneMore(old(buffer[..]), at, b, i);
      buffer[at + i] := b[i];
      i := i + 1;
    }
    assert b[..i] == b;
  }

  method SerializeValue(t: Type, v: Value, buffer: array<byte>, at: nat, extra: nat)
    requires FitsType(t, v) && at + TransferSize(t) <= extra && extra + Extent(t, v) <= buffer.Length
    modifies buffer
    ensures buffer[..] == WriteValue(t, v, old(buffer[..]), at, extra)
    decreases t, 0, 0
  {
    match t
    case Scalar(w) => PutInto(buffer, at, ToBytes(w, v.n));
    case Object => PutInto(buffer, at, ToBytes(OBJECT_ID_SIZE, v.id));
    case Struct(s) => SerializeRecord(s, v.record, buffer, at, extra);
  }

  method SerializeValues(ts: seq<Type>, vs: seq<Value>, buffer: array<byte>, at: nat, extra: nat)
    requires FitsTypes(ts, vs) && at + ValuesSize(ts) <= extra && extra + ValuesExtent(ts, vs) <= buffer.Length
    modifies buffer
    ensures buffer[..] == WriteValues(ts, vs, old(buffer[..]), at, extra)
    decreases ts, 0, 0
  {
    var k: nat, to: nat := 0, at;
    while k < |ts|
      invariant k <= |ts| == |vs| && FitsTypes(ts[k..], vs[k..])
      invariant to + ValuesSize(ts[k..]) <= extra && extra + ValuesExtent(ts[k..], vs[k..]) <= buffer.Length
      invariant WriteValues(ts[k..], vs[k..], buffer[..], to, extra) == WriteValues(ts, vs, old(buffer[..]), at, extra)
    {
      assert ts[k..][1..] == ts[k + 1..] && vs[k..][1..] == vs[k + 1..];
      SerializeValue(ts[k], vs[k], buffer, to, extra);
      to := to + TransferSize(ts[k]);
      k := k + 1;
    }
  }

  lemma ConsStringsLeft(strings: seq<seq<byte>>, k: nat)
    requires k < |strings| && FitsStrings(|strings| - k, strings[k..])
    ensures strings[k..][1..] == strings[k + 1..]
    ensures FitsStrings(|strings| - (k + 1), strings[k + 1..])
    ensures |Concat(strings[k..])| == |strings[k]| + |Concat(strings[k + 1..])|
  {
    hide Pow256;
    assert strings[k..][1..] == strings[k + 1..];
  }

  method SerializeStrings(strings: seq<seq<byte>>, buffer: array<byte>, at: nat, extra: nat) returns (end: nat)
    requires FitsStrings(|strings|, strings) && at + STRLEN_SIZE * |strings| <= extra && extra + |Concat(strings)| <= buffer.Length
    modifies buffer
    ensures buffer[..] == WriteStrings(|strings|, strings, old(buffer[..]), at, extra) && end == extra + |Concat(strings)|
  {
    hide ToBytes, Pow256, Put;
    var k: nat, to: nat := 0, at;
    end := extra;
    while k < |strings|
      invariant k <= |strings| && FitsStrings(|strings| - k, strings[k..])
      invariant to == at + STRLEN_SIZE * k && extra <= end && end + |Concat(strings[k..])| == extra + |Concat(strings)|
      invariant WriteStrings(|strings| - k, strings[k..], buffer[..], to, end)
                == WriteStrings(|strings|, strings, old(buffer[..]), at, extra)
    {
      ConsStringsLeft(strings, k);
      PutInto(buffer, to, ToBytes(STRLEN_SIZE, |strings[k]|));
      PutInto(buffer, end, strings[k]);
      to, end := to + STRLEN_SIZE, end + |strings[k]|;
      k := k + 1;
    }
  }

  method SerializeElements(t: Type, vs: seq<Value>, buffer: array<byte>, at: nat, extra: nat)
    requires FitsElements(t, vs) && at + ElementsSize(t, |vs|) <= extra && extra + ElementsExtent(t, vs) <= buffer.Length
    modifies buffer
    ensures buffer[..] == WriteElements(t, vs, old(buffer[..]), at, extra)
    decreases t, 1, 0
  {
    hide WriteValue, FitsType, Extent, TransferSize;
    var i: nat, to: nat := 0, at;
    while i < |vs|
      invariant i <= |vs| && FitsElements(t, vs[i..])
      invariant to + ElementsSize(t, |vs[i..]|) <= extra && extra + ElementsExtent(t, vs[i..]) <= buffer.Length
      invariant WriteElements(t, vs[i..], buffer[..], to, extra) == WriteElements(t, vs, old(buffer[..]), at, extra)
    {
      assert vs[i..][1..] == vs[i + 1..];
      SerializeValue(t, vs[i], buffer, to, extra);
      to := to + TransferSize(t);
      i := i + 1;
    }
  }

  method SerializePointer(p: Pointer, elements: seq<Value>, values: seq<Value>, buffer: array<byte>, at: nat) returns (end: nat)
    requires FitsPointer(p, elements, values) && at + PointerExtent(p, elements, values) <= buffer.Length
    modifies buffer
    ensures buffer[..] == WritePointer(p, elements, values, old(buffer[..]), at)
    ensures end == at + ElementsSize(p.elem, |elements|)
    decreases p, 0, 0
  {
    end := at + ElementsSize(p.elem, |elements|);
    SerializeElements(p.elem, elements, buffer, at, end);
  }

  method SerializePointers(ps: seq<Pointer>, arrays: seq<Array>, values: seq<Value>, buffer: array<byte>, at: nat)
    requires FitsPointers(ps, arrays, values) && at + PointersExtent(ps, arrays, values) <= buffer.Length
    modifies buffer
    ensures buffer[..] == WritePointers(ps, arrays, values, old(buffer[..]), at)
    decreases ps, 0, 0
  {
    hide WritePointer, FitsPointer, ElementsSize;
    var k: nat, to: nat := 0, at;
    while k < |ps|
      invariant k <= |ps| == |arrays| && FitsPointers(ps[k..], arrays[k..], values)
      invariant to + PointersExtent(ps[k..], arrays[k..], values) <= buffer.Length
      invariant WritePointers(ps[k..], arrays[k..], values, buffer[..], to)
                == WritePointers(ps, arrays, values, old(buffer[..]), at)
    {
      assert ps[k..][1..] == ps[k + 1..] && arrays[k..][1..] == arrays[k + 1..];
      to := SerializePointer(ps[k], arrays[k].elements, values, buffer, to);
      k := k + 1;
    }
  }

  /** The nested call gets the position of the extra data by value: what it appends there is not
      skipped by the caller. */
  method SerializeRecord(s: Schema, r: Record, buffer: array<byte>, at: nat, extra: nat)
    requires FitsSchema(s, r) && at + TransferSize(Struct(s)) <= extra && extra + RecordExtent(s, r) <= buffer.Length
    modifies buffer
    ensures buffer[..] == WriteRecord(s, r, old(buffer[..]), at, extra)
    decreases s, 0, 0
  {
    hide WriteValues, WriteStrings, WritePointers, FitsTypes, FitsStrings, FitsPointers, PointersExtent, ValuesExtent, Concat;
    SerializeValues(s.values, r.values, buffer, at, extra);
    StringsCounted(s.strings, r.strings);
    var end := SerializeStrings(r.strings, buffer, at + ValuesSize(s.values), extra);
    SerializePointers(s.pointers, r.arrays, r.values, buffer, end);
  }

  lemma StringsCounted(n: nat, strings: seq<seq<byte>>)
    requires FitsStrings(n, strings)
    ensures |strings| == n
  {
  }

  /** A command serialized into a fresh buffer of the size `GetRequiredSize` asks for: the bytes
      decode to the command. */
  method SerializeCommand(s: Schema, r: Record) returns (buffer: array<byte>)
    requires FitsSchema(s, r) && SupportedRecord(s, r)
    ensures fresh(buffer) && buffer[..] == Layout(s, r)
  {
    var extra := GetExtraRequiredSize(Struct(s), Nested(r));
    buffer := new byte[TransferSize(Struct(s)) + extra];
    SerializesLayout(s, r, buffer[..]);
    SerializeRecord(s, r, buffer, 0, TransferSize(Struct(s)));
  }

  // ----- Deserialize -----

  datatype Status = Success | FatalError | ErrorObjectFound

  /** The outcome of a read is what decoding says, and the reader stands where decoding stopped. */
  predicate Agrees<T(==)>(status: Status, value: T, rest: seq<byte>, d: Decoded<T>) {
    match d
    case Ok(v, r) => status == Success && value == v && rest == r
    case Fatal => status == FatalError
    case ErrorObject(r) => status == ErrorObjectFound && rest == r
  }

  /** Decoding the rest of a list whose front has been decoded. */
  function Prepend<T>(front: seq<T>, d: Decoded<seq<T>>): (r: Decoded<seq<T>>)
    ensures front == [] ==> r == d
    ensures d.Ok? && d.value == [] ==> r == Ok(front, d.rest)
  {
    match d
    case Ok(vs, rest) =>
      assert [] + vs == vs && front + [] == front;
      Ok(front + vs, rest)
    case Fatal => Fatal
    case ErrorObject(rest) => ErrorObject(rest)
  }

  lemma PrependOne<T>(front: seq<T>, v: T, d: Decoded<seq<T>>)
    ensures Prepend(front, Prepend([v], d)) == Prepend(front + [v], d)
  {
    if d.Ok? {
      assert front + ([v] + d.value) == front + [v] + d.value;
    }
  }

  /** A position in a received stream, with the number of bytes left. */
  class Reader {
    const stream: seq<byte>
    const resolve: Resolver
    var position: nat
    var size: nat

    predicate Valid()
      reads this
    {
      position + size == |stream|
    }

    function Rest(): seq<byte>
      reads this
      requires Valid()
    {
      stream[position..]
    }

    constructor (stream: seq<byte>, resolve: Resolver)
      ensures Valid() && this.stream == stream && this.resolve == resolve && Rest() == stream
    {
      this.stream := stream;
      this.resolve := resolve;
      position := 0;
      size := |stream|;
    }

    method GetPtrFromBuffer(count: nat) returns (status: Status, data: seq<byte>)
      requires Valid()
      modifies this
      ensures Valid() && Agrees(status, data, Rest(), Take(old(Rest()), count))
    {
      if count > size {
        return FatalError, [];
      }
      data := stream[position..position + count];
      position := position + count;
      size := size - count;
      status := Success;
      assert data == old(Rest())[..count];
    }

    method ReadValue(t: Type, transfer: seq<byte>) returns (status: Status, v: Value)
      requires Valid() && |transfer| == TransferSize(t)
      modifies this
      ensures Valid() && Agrees(status, v, Rest(), DecodeValue(t, transfer, old(Rest()), resolve))
      decreases t, 0, 0
    {
      v := Number(0);
      match t
      case Scalar(_) =>
        status, v := Success, Number(FromBytes(transfer));
      case Object =>
        var id := FromBytes(transfer);
        match resolve(id) {
          case Unknown => status := FatalError;
          case ErrorValue => status := ErrorObjectFound;
          case Known => status, v := Success, ObjectRef(id);
        }
      case Struct(s) =>
        var r;
        status, r := ReadRecord(s, transfer);
        v := Nested(r);
    }

    method ReadValues(ts: seq<Type>, transfer: seq<byte>) returns (status: Status, vs: seq<Value>)
      requires Valid() && |transfer| == ValuesSize(ts)
      modifies this
      ensures Valid() && Agrees(status, vs, Rest(), DecodeValues(ts, transfer, old(Rest()), resolve))
      decreases ts, 0, 0
    {
      var k, from := 0, transfer;
      vs := [];
      while k < |ts|
        invariant Valid() && k <= |ts| && |from| == ValuesSize(ts[k..])
        invariant DecodeValues(ts, transfer, old(Rest()), resolve) == Prepend(vs, DecodeValues(ts[k..], from, Rest(), resolve))
      {
        var n := TransferSize(ts[k]);
        assert ts[k..][1..] == ts[k + 1..];
        ghost var before := Rest();
        var v;
        status, v := ReadValue(ts[k], from[..n]);
        if status != Success {
          return;
        }
        PrependOne(vs, v, DecodeValues(ts[k + 1..], from[n..], Rest(), resolve));
        assert DecodeValues(ts[k..], from, before, resolve) == Prepend([v], DecodeValues(ts[k + 1..], from[n..], Rest(), resolve));
        k, from, vs := k + 1, from[n..], vs + [v];
      }
      status := Success;
    }

    method ReadStrings(n: nat, lengths: seq<byte>) returns (status: Status, ss: seq<seq<byte>>)
      requires Valid() && |lengths| == STRLEN_SIZE * n
      modifies this
      ensures Valid() && Agrees(status, ss, Rest(), DecodeStrings(n, lengths, old(Rest())))
    {
      var k, from := 0, lengths;
      ss := [];
      while k < n
        invariant Valid() && k <= n && |from| == STRLEN_SIZE * (n - k)
        invariant DecodeStrings(n, lengths, old(Rest())) == Prepend(ss, DecodeStrings(n - k, from, Rest()))
      {
        ghost var before := Rest();
        var s;
        status, s := GetPtrFromBuffer(FromBytes(from[..STRLEN_SIZE]));
        if status != Success {
          return;
        }
        PrependOne(ss, s, DecodeStrings(n - k - 1, from[STRLEN_SIZE..], Rest()));
        assert DecodeStrings(n - k, from, before) == Prepend([s], DecodeStrings(n - k - 1, from[STRLEN_SIZE..], Rest()));
        k, from, ss := k + 1, from[STRLEN_SIZE..], ss + [s];
      }
      status := Success;
    }

    method ReadElements(t: Type, count: nat, transfer: seq<byte>) returns (status: Status, vs: seq<Value>)
      requires Valid() && |transfer| == ElementsSize(t, count)
      modifies this
      ensures Valid() && Agrees(status, vs, Rest(), DecodeElements(t, count, transfer, old(Rest()), resolve))
      decreases t, 1, 0
    {
      var i, from, n := 0, transfer, TransferSize(t);
      vs := [];
      while i < count
        invariant Valid() && i <= count && |from| == ElementsSize(t, count - i)
        invariant DecodeElements(t, count, transfer, old(Rest()), resolve) == Prepend(vs, DecodeElements(t, count - i, from, Rest(), resolve))
      {
        ghost var before := Rest();
        var v;
        status, v := ReadValue(t, from[..n]);
        if status != Success {
          return;
        }
        PrependOne(vs, v, DecodeElements(t, count - i - 1, from[n..], Rest(), resolve));
        assert DecodeElements(t, count - i, from, before, resolve) == Prepend([v], DecodeElements(t, count - i - 1, from[n..], Rest(), resolve));
        i, from, vs := i + 1, from[n..], vs + [v];
      }
      status := Success;
    }

    method ReadPointer(p: Pointer, values: seq<Value>) returns (status: Status, elements: seq<Value>)
      requires Valid()
      modifies this
      ensures Valid() && Agrees(status, elements, Rest(), DecodePointer(p, values, old(Rest()), resolve))
      decreases p, 0, 0
    {
      var count := LengthOf(p.length, values);
      var transfer;
      status, transfer := GetPtrFromBuffer(ElementsSize(p.elem, count));
      if status != Success {
        return status, [];
      }
      status, elements := ReadElements(p.elem, count, transfer);
    }

    method ReadPointers(ps: seq<Pointer>, values: seq<Value>) returns (status: Status, arrays: seq<Array>)
      requires Valid()
      modifies this
      ensures Valid() && Agrees(status, arrays, Rest(), DecodePointers(ps, values, old(Rest()), resolve))
      decreases ps, 0, 0
    {
      var k := 0;
      arrays := [];
      while k < |ps|
        invariant Valid() && k <= |ps|
        invariant DecodePointers(ps, values, old(Rest()), resolve) == Prepend(arrays, DecodePointers(ps[k..], values, Rest(), resolve))
      {
        assert ps[k..][1..] == ps[k + 1..];
        ghost var before := Rest();
        var elements;
        status, elements := ReadPointer(ps[k], values);
        if status != Success {
          return;
        }
        PrependOne(arrays, Array(elements), DecodePointers(ps[k + 1..], values, Rest(), resolve));
        assert DecodePointers(ps[k..], values, before, resolve) == Prepend([Array(elements)], DecodePointers(ps[k + 1..], values, Rest(), resolve));
        k, arrays := k + 1, arrays + [Array(elements)];
      }
      status := Success;
    }

    method ReadRecord(s: Schema, transfer: seq<byte>) returns (status: Status, r: Record)
      requires Valid() && |transfer| == TransferSize(Struct(s))
      modifies this
      ensures Valid() && Agrees(status, r, Rest(), DecodeRecord(s, transfer, old(Rest()), resolve))
      decreases s, 0, 0
    {
      r := Record([], [], []);
      var n := ValuesSize(s.values);
      var values;
      status, values := ReadValues(s.values, transfer[..n]);
      if status != Success {
        return;
      }
      var strings;
      status, strings := ReadStrings(s.strings, transfer[n..]);
      if status != Success {
        return;
      }
      var arrays;
      status, arrays := ReadPointers(s.pointers, values);
      r := Record(values, strings, arrays);
    }

    /** Reads one command from the front of what is left. */
    method ReadCommand(s: Schema) returns (status: Status, r: Record)
      requires Valid()
      modifies this
      ensures Valid() && Agrees(status, r, Rest(), Deserialize(s, old(Rest()), resolve))
    {
      var transfer;
      status, transfer := GetPtrFromBuffer(TransferSize(Struct(s)));
      if status != Success {
        return status, Record([], [], []);
      }
      status, r := ReadRecord(s, transfer);
    }
  }
}
