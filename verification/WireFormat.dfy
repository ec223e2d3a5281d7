/** The byte format of wire commands, generator/templates/dawn_wire/WireCmd.cpp: schemas, records,
    the layout of a record, and its decoding. The generator emits one serializer per schema; here
    the schema is a value and the functions interpret it. */
module WireFormat {
  import opened Bytes

  // ----- Schemas and records -----

  /** Type of a member on the wire. A scalar is any plain type, given by its width in bytes. */
  datatype Type = Scalar(width: nat) | Object | Struct(schema: Schema)

  /** Number of elements a pointer member points to: a constant, or the value of the scalar
      member at an index. */
  datatype Length = Constant(count: nat) | Counted(index: nat)

  datatype Pointer = Pointer(elem: Type, length: Length)

  /** Members by the way they travel: in place, as a string, or behind a pointer. */
  datatype Schema = Schema(values: seq<Type>, strings: nat, pointers: seq<Pointer>)

  /** An object is named by its id on both sides. */
  datatype Value = Number(n: nat) | ObjectRef(id: nat) | Nested(record: Record)

  /** What a pointer member points to. */
  datatype Array = Array(elements: seq<Value>)

  datatype Record = Record(values: seq<Value>, strings: seq<seq<byte>>, arrays: seq<Array>)

  const OBJECT_ID_SIZE: nat := 4
  const STRLEN_SIZE: nat := 8

  // ----- Well-formed records -----

  /** What the count of a pointer member says. */
  function LengthOf(l: Length, values: seq<Value>): nat {
    match l
    case Constant(n) => n
    case Counted(i) => if i < |values| && values[i].Number? then values[i].n else 0
  }

  predicate FitsType(t: Type, v: Value)
    decreases t, 0, 0
  {
    match t
    case Scalar(w) => v.Number? && v.n < Pow256(w)
    case Object => v.ObjectRef? && v.id < Pow256(OBJECT_ID_SIZE)
    case Struct(s) => v.Nested? && FitsSchema(s, v.record)
  }

  predicate FitsTypes(ts: seq<Type>, vs: seq<Value>)
    decreases ts, 0, 0
  {
    |vs| == |ts| && (ts != [] ==> FitsType(ts[0], vs[0]) && FitsTypes(ts[1..], vs[1..]))
  }

  predicate FitsElements(t: Type, vs: seq<Value>)
    decreases t, 1, |vs|
  {
    vs != [] ==> FitsType(t, vs[0]) && FitsElements(t, vs[1..])
  }

  predicate FitsPointers(ps: seq<Pointer>, arrays: seq<Array>, values: seq<Value>)
    decreases ps, 0, 0
  {
    |arrays| == |ps| &&
    (ps != [] ==> FitsPointer(ps[0], arrays[0].elements, values) && FitsPointers(ps[1..], arrays[1..], values))
  }

  predicate FitsPointer(p: Pointer, elements: seq<Value>, values: seq<Value>)
    decreases p, 0, 0
  {
    |elements| == LengthOf(p.length, values) && FitsElements(p.elem, elements)
  }

  predicate FitsStrings(n: nat, strings: seq<seq<byte>>) {
    |strings| == n && (n > 0 ==> |strings[0]| < Pow256(STRLEN_SIZE) && FitsStrings(n - 1, strings[1..]))
  }

  /** The record has the members its schema asks for, and every array is as long as its count
      says. */
  predicate FitsSchema(s: Schema, r: Record)
    decreases s, 0, 0
  {
    && FitsTypes(s.values, r.values)
    && FitsStrings(s.strings, r.strings)
    && FitsPointers(s.pointers, r.arrays, r.values)
  }

  // ----- The layout a reader expects -----

  function TransferSize(t: Type): nat
    decreases t, 0, 0
  {
    match t
    case Scalar(w) => w
    case Object => OBJECT_ID_SIZE
    case Struct(s) => ValuesSize(s.values) + STRLEN_SIZE * s.strings
  }

  function ValuesSize(ts: seq<Type>): nat
    decreases ts, 0, 0
  {
    if ts == [] then 0 else TransferSize(ts[0]) + ValuesSize(ts[1..])
  }

  /** The part of a value that lies in the transfer structure. */
  function Transfer(t: Type, v: Value): (b: seq<byte>)
    requires FitsType(t, v)
    ensures |b| == TransferSize(t)
    decreases t, 0, 0
  {
    match t
    case Scalar(w) => ToBytes(w, v.n)
    case Object => ToBytes(OBJECT_ID_SIZE, v.id)
    case Struct(s) =>
      assert FitsSchema(s, v.record);
      ValuesTransfer(s.values, v.record.values) + StringLengths(s.strings, v.record.strings)
  }

  function ValuesTransfer(ts: seq<Type>, vs: seq<Value>): (b: seq<byte>)
    requires FitsTypes(ts, vs)
    ensures |b| == ValuesSize(ts)
    decreases ts, 0, 0
  {
    if ts == [] then [] else Transfer(ts[0], vs[0]) + ValuesTransfer(ts[1..], vs[1..])
  }

  function StringLengths(n: nat, strings: seq<seq<byte>>): (b: seq<byte>)
    requires FitsStrings(n, strings)
    ensures |b| == STRLEN_SIZE * n
  {
    if n == 0 then [] else ToBytes(STRLEN_SIZE, |strings[0]|) + StringLengths(n - 1, strings[1..])
  }

  /** Size of `n` elements of one type. */
  function ElementsSize(t: Type, n: nat): nat {
    if n == 0 then 0 else TransferSize(t) + ElementsSize(t, n - 1)
  }

  function ElementsTransfer(t: Type, vs: seq<Value>): (b: seq<byte>)
    requires FitsElements(t, vs)
    ensures |b| == ElementsSize(t, |vs|)
    decreases t, 1, |vs|
  {
    if vs == [] then [] else Transfer(t, vs[0]) + ElementsTransfer(t, vs[1..])
  }

  /** The part of a value that follows the transfer structure. */
  function Extra(t: Type, v: Value): seq<byte>
    requires FitsType(t, v)
    decreases t, 0, 0
  {
    match t
    case Scalar(_) => []
    case Object => []
    case Struct(s) => RecordExtra(s, v.record)
  }

  function ValuesExtra(ts: seq<Type>, vs: seq<Value>): seq<byte>
    requires FitsTypes(ts, vs)
    decreases ts, 0, 0
  {
    if ts == [] then [] else Extra(ts[0], vs[0]) + ValuesExtra(ts[1..], vs[1..])
  }

  function Concat(strings: seq<seq<byte>>): seq<byte> {
    if strings == [] then [] else strings[0] + Concat(strings[1..])
  }

  function ElementsExtra(t: Type, vs: seq<Value>): seq<byte>
    requires FitsElements(t, vs)
    decreases t, 1, |vs|
  {
    if vs == [] then [] else Extra(t, vs[0]) + ElementsExtra(t, vs[1..])
  }

  function PointersExtra(ps: seq<Pointer>, arrays: seq<Array>, values: seq<Value>): seq<byte>
    requires FitsPointers(ps, arrays, values)
    decreases ps, 0, 0
  {
    if ps == [] then []
    else PointerExtra(ps[0], arrays[0].elements, values) + PointersExtra(ps[1..], arrays[1..], values)
  }

  /** The elements one after the other, then what each of them adds. */
  function PointerExtra(p: Pointer, elements: seq<Value>, values: seq<Value>): seq<byte>
    requires FitsPointer(p, elements, values)
    decreases p, 0, 0
  {
    ElementsTransfer(p.elem, elements) + ElementsExtra(p.elem, elements)
  }

  function RecordExtra(s: Schema, r: Record): seq<byte>
    requires FitsSchema(s, r)
    decreases s, 0, 0
  {
    ValuesExtra(s.values, r.values) + Concat(r.strings) + PointersExtra(s.pointers, r.arrays, r.values)
  }

  /** All the bytes of a record. */
  function Layout(s: Schema, r: Record): seq<byte>
    requires FitsSchema(s, r)
  {
    Transfer(Struct(s), Nested(r)) + RecordExtra(s, r)
  }

  // ----- Decoding -----

  /** What the server says about an id. */
  datatype Resolution = Unknown | ErrorValue | Known

  type Resolver = nat -> Resolution

  /** Result of decoding: the value and the bytes not consumed, or why there is none. After
      ErrorObject the stream has been consumed up to the object in question only. */
  datatype Decoded<+T> = Ok(value: T, rest: seq<byte>) | Fatal | ErrorObject(rest: seq<byte>) {
    predicate IsFailure() { !Ok? }

    function PropagateFailure<U>(): Decoded<U>
      requires !Ok?
    {
      if Fatal? then Fatal else ErrorObject(rest)
    }

    function Extract(): (T, seq<byte>)
      requires Ok?
    {
      (value, rest)
    }
  }

  /** `GetPtrFromBuffer`. */
  function Take(buffer: seq<byte>, size: nat): Decoded<seq<byte>> {
    if size > |buffer| then Fatal else Ok(buffer[..size], buffer[size..])
  }

  function DecodeValue(t: Type, transfer: seq<byte>, buffer: seq<byte>, resolve: Resolver): Decoded<Value>
    requires |transfer| == TransferSize(t)
    decreases t, 0, 0
  {
    match t
    case Scalar(_) => Ok(Number(FromBytes(transfer)), buffer)
    case Object =>
      var id := FromBytes(transfer);
      (match resolve(id)
       case Unknown => Fatal
       case ErrorValue => ErrorObject(buffer)
       case Known => Ok(ObjectRef(id), buffer))
    case Struct(s) =>
      var (r, buffer1) :- DecodeRecord(s, transfer, buffer, resolve);
      Ok(Nested(r), buffer1)
  }

  function DecodeValues(ts: seq<Type>, transfer: seq<byte>, buffer: seq<byte>, resolve: Resolver): (d: Decoded<seq<Value>>)
    requires |transfer| == ValuesSize(ts)
    ensures d.Ok? ==> |d.value| == |ts|
    decreases ts, 0, 0
  {
    if ts == [] then Ok([], buffer)
    else
      var n := TransferSize(ts[0]);
      var (v, buffer1) :- DecodeValue(ts[0], transfer[..n], buffer, resolve);
      var (vs, buffer2) :- DecodeValues(ts[1..], transfer[n..], buffer1, resolve);
      Ok([v] + vs, buffer2)
  }

  function DecodeStrings(n: nat, lengths: seq<byte>, buffer: seq<byte>): (d: Decoded<seq<seq<byte>>>)
    requires |lengths| == STRLEN_SIZE * n
    ensures d.Ok? ==> |d.value| == n
    ensures !d.ErrorObject?
  {
    if n == 0 then Ok([], buffer)
    else
      var (s, buffer1) :- Take(buffer, FromBytes(lengths[..STRLEN_SIZE]));
      var (ss, buffer2) :- DecodeStrings(n - 1, lengths[STRLEN_SIZE..], buffer1);
      Ok([s] + ss, buffer2)
  }

  function DecodeElements(t: Type, count: nat, transfer: seq<byte>, buffer: seq<byte>, resolve: Resolver): (d: Decoded<seq<Value>>)
    requires |transfer| == ElementsSize(t, count)
    ensures d.Ok? ==> |d.value| == count
    decreases t, 1, count
  {
    if count == 0 then Ok([], buffer)
    else
      var n := TransferSize(t);
      var (v, buffer1) :- DecodeValue(t, transfer[..n], buffer, resolve);
      var (vs, buffer2) :- DecodeElements(t, count - 1, transfer[n..], buffer1, resolve);
      Ok([v] + vs, buffer2)
  }

  function DecodePointers(ps: seq<Pointer>, values: seq<Value>, buffer: seq<byte>, resolve: Resolver): (d: Decoded<seq<Array>>)
    ensures d.Ok? ==> |d.value| == |ps|
    decreases ps, 0, 0
  {
    if ps == [] then Ok([], buffer)
    else
      var (elements, buffer1) :- DecodePointer(ps[0], values, buffer, resolve);
      var (arrays, buffer2) :- DecodePointers(ps[1..], values, buffer1, resolve);
      Ok([Array(elements)] + arrays, buffer2)
  }

  function DecodePointer(p: Pointer, values: seq<Value>, buffer: seq<byte>, resolve: Resolver): (d: Decoded<seq<Value>>)
    ensures d.Ok? ==> |d.value| == LengthOf(p.length, values)
    decreases p, 0, 0
  {
    var count := LengthOf(p.length, values);
    var (transfer, buffer1) :- Take(buffer, ElementsSize(p.elem, count));
    DecodeElements(p.elem, count, transfer, buffer1, resolve)
  }

  function DecodeRecord(s: Schema, transfer: seq<byte>, buffer: seq<byte>, resolve: Resolver): Decoded<Record>
    requires |transfer| == ValuesSize(s.values) + STRLEN_SIZE * s.strings
    decreases s, 0, 0
  {
    var n := ValuesSize(s.values);
    var (values, buffer1) :- DecodeValues(s.values, transfer[..n], buffer, resolve);
    var (strings, buffer2) :- DecodeStrings(s.strings, transfer[n..], buffer1);
    var (arrays, buffer3) :- DecodePointers(s.pointers, values, buffer2, resolve);
    Ok(Record(values, strings, arrays), buffer3)
  }

  /** `Deserialize` of a record from the front of a stream. */
  function Deserialize(s: Schema, stream: seq<byte>, resolve: Resolver): Decoded<Record> {
    var (transfer, buffer) :- Take(stream, TransferSize(Struct(s)));
    DecodeRecord(s, transfer, buffer, resolve)
  }
}
