/** The serializer as the source writes it, generator/templates/dawn_wire/WireCmd.cpp: it fills a
    buffer in place and hands the write position of the extra data to nested structures by value.
    `Write...` are the functions that say what ends up in the buffer. */
module WireSerialize {
  import opened Bytes
  import opened WireFormat
  import opened WireRoundTrip

  function Max(a: nat, b: nat): nat { if a < b then b else a }

  // ----- Sizes -----

  /** `GetExtraRequiredSize`: members passed by value are taken to need nothing extra. */
  function Required(t: Type, v: Value): nat
    requires FitsType(t, v)
    decreases t, 0, 0
  {
    match t
    case Scalar(_) => 0
    case Object => 0
    case Struct(s) => RecordRequired(s, v.record)
  }

  function RecordRequired(s: Schema, r: Record): nat
    requires FitsSchema(s, r)
    decreases s, 0, 0
  {
    |Concat(r.strings)| + PointersRequired(s.pointers, r.arrays, r.values)
  }

  function PointersRequired(ps: seq<Pointer>, arrays: seq<Array>, values: seq<Value>): nat
    requires FitsPointers(ps, arrays, values)
    decreases ps, 0, 0
  {
    if ps == [] then 0
    else PointerRequired(ps[0], arrays[0].elements, values) + PointersRequired(ps[1..], arrays[1..], values)
  }

  function PointerRequired(p: Pointer, elements: seq<Value>, values: seq<Value>): nat
    requires FitsPointer(p, elements, values)
    decreases p, 0, 0
  {
    ElementsSize(p.elem, |elements|) + ElementsRequired(p.elem, elements)
  }

  function ElementsRequired(t: Type, vs: seq<Value>): nat
    requires FitsElements(t, vs)
    decreases t, 1, |vs|
  {
    if vs == [] then 0 else Required(t, vs[0]) + ElementsRequired(t, vs[1..])
  }

  /** `GetRequiredSize`. */
  function RequiredSize(s: Schema, r: Record): nat
    requires FitsSchema(s, r)
  {
    TransferSize(Struct(s)) + RecordRequired(s, r)
  }

  /** How far past the start of the extra data the serializer writes. */
  function Extent(t: Type, v: Value): nat
    requires FitsType(t, v)
    decreases t, 0, 0
  {
    match t
    case Scalar(_) => 0
    case Object => 0
    case Struct(s) => RecordExtent(s, v.record)
  }

  function ValuesExtent(ts: seq<Type>, vs: seq<Value>): nat
    requires FitsTypes(ts, vs)
    decreases ts, 0, 0
  {
    if ts == [] then 0 else Max(Extent(ts[0], vs[0]), ValuesExtent(ts[1..], vs[1..]))
  }

  function ElementsExtent(t: Type, vs: seq<Value>): nat
    requires FitsElements(t, vs)
    decreases t, 1, |vs|
  {
    if vs == [] then 0 else Max(Extent(t, vs[0]), ElementsExtent(t, vs[1..]))
  }

  function PointersExtent(ps: seq<Pointer>, arrays: seq<Array>, values: seq<Value>): nat
    requires FitsPointers(ps, arrays, values)
    decreases ps, 0, 0
  {
    if ps == [] then 0
    else Max(PointerExtent(ps[0], arrays[0].elements, values),
             ElementsSize(ps[0].elem, |arrays[0].elements|) + PointersExtent(ps[1..], arrays[1..], values))
  }

  function PointerExtent(p: Pointer, elements: seq<Value>, values: seq<Value>): nat
    requires FitsPointer(p, elements, values)
    decreases p, 0, 0
  {
    ElementsSize(p.elem, |elements|) + ElementsExtent(p.elem, elements)
  }

  function RecordExtent(s: Schema, r: Record): nat
    requires FitsSchema(s, r)
    decreases s, 0, 0
  {
    Max(ValuesExtent(s.values, r.values), |Concat(r.strings)| + PointersExtent(s.pointers, r.arrays, r.values))
  }

  // ----- When the two sides agree -----

  /** Nothing that is written after an extra part overlaps it: members passed by value have no
      extra part, and behind an element with one nothing else follows. */
  predicate Supported(t: Type, v: Value)
    requires FitsType(t, v)
    decreases t, 0, 0
  {
    match t
    case Scalar(_) => true
    case Object => true
    case Struct(s) => SupportedRecord(s, v.record)
  }

  predicate SupportedRecord(s: Schema, r: Record)
    requires FitsSchema(s, r)
    decreases s, 0, 0
  {
    ValuesExtra(s.values, r.values) == [] && SupportedPointers(s.pointers, r.arrays, r.values)
  }

  predicate SupportedPointers(ps: seq<Pointer>, arrays: seq<Array>, values: seq<Value>)
    requires FitsPointers(ps, arrays, values)
    decreases ps, 0, 0
  {
    ps != [] ==>
      && SupportedPointers(ps[1..], arrays[1..], values)
      && SupportedPointer(ps[0], arrays[0].elements, values, PointersExtra(ps[1..], arrays[1..], values) == [])
  }

  predicate SupportedPointer(p: Pointer, elements: seq<Value>, values: seq<Value>, last: bool)
    requires FitsPointer(p, elements, values)
    decreases p, 0, 0
  {
    SupportedElements(p.elem, elements) && (last || ElementsExtra(p.elem, elements) == [])
  }

  predicate SupportedElements(t: Type, vs: seq<Value>)
    requires FitsElements(t, vs)
    decreases t, 1, |vs|
  {
    vs != [] ==>
      && SupportedElements(t, vs[1..])
      && (ElementsExtra(t, vs[1..]) == [] || Extra(t, vs[0]) == [])
      && Supported(t, vs[0])
  }

  // ----- Supported is exact about sizes -----

  lemma {:induction false} ValueSizes(t: Type, v: Value)
    requires FitsType(t, v)
    ensures Required(t, v) <= |Extra(t, v)| && Extent(t, v) <= |Extra(t, v)|
    ensures Supported(t, v) <==> Required(t, v) == Extent(t, v) == |Extra(t, v)|
    decreases t, 0, 0
  {
    if t.Struct? {
      RecordSizes(t.schema, v.record);
    }
  }

  lemma {:induction false} ValuesSizes(ts: seq<Type>, vs: seq<Value>)
    requires FitsTypes(ts, vs)
    ensures ValuesExtent(ts, vs) <= |ValuesExtra(ts, vs)|
    decreases ts, 0, 0
  {
    if ts != [] {
      ValueSizes(ts[0], vs[0]);
      ValuesSizes(ts[1..], vs[1..]);
    }
  }

  lemma {:induction false} ElementsSizes(t: Type, vs: seq<Value>)
    requires FitsElements(t, vs)
    ensures ElementsRequired(t, vs) <= |ElementsExtra(t, vs)| && ElementsExtent(t, vs) <= |ElementsExtra(t, vs)|
    ensures SupportedElements(t, vs) <==> ElementsRequired(t, vs) == ElementsExtent(t, vs) == |ElementsExtra(t, vs)|
    decreases t, 1, |vs|
  {
    if vs != [] {
      ValueSizes(t, vs[0]);
      ElementsSizes(t, vs[1..]);
    }
  }

  lemma {:induction false} PointerSizes(p: Pointer, elements: seq<Value>, values: seq<Value>)
    requires FitsPointer(p, elements, values)
    ensures var size := |PointerExtra(p, elements, values)|;
            && PointerRequired(p, elements, values) <= size && PointerExtent(p, elements, values) <= size
            && size == ElementsSize(p.elem, |elements|) + |ElementsExtra(p.elem, elements)|
            && (SupportedPointer(p, elements, values, true) <==>
                  PointerRequired(p, elements, values) == PointerExtent(p, elements, values) == size)
            && (SupportedPointer(p, elements, values, false) <==>
                  PointerRequired(p, elements, values) == size == ElementsSize(p.elem, |elements|))
    decreases p, 0, 0
  {
    ElementsSizes(p.elem, elements);
  }

  lemma {:induction false} PointersSizes(ps: seq<Pointer>, arrays: seq<Array>, values: seq<Value>)
    requires FitsPointers(ps, arrays, values)
    ensures var size := |PointersExtra(ps, arrays, values)|;
            && PointersRequired(ps, arrays, values) <= size && PointersExtent(ps, arrays, values) <= size
            && (SupportedPointers(ps, arrays, values) <==>
                  PointersRequired(ps, arrays, values) == PointersExtent(ps, arrays, values) == size)
    decreases ps, 0, 0
  {
    if ps != [] {
      PointerSizes(ps[0], arrays[0].elements, values);
      PointersSizes(ps[1..], arrays[1..], values);
    }
  }

  lemma {:induction false} RecordSizes(s: Schema, r: Record)
    requires FitsSchema(s, r)
    ensures RecordRequired(s, r) <= |RecordExtra(s, r)| && RecordExtent(s, r) <= |RecordExtra(s, r)|
    ensures SupportedRecord(s, r) <==> RecordRequired(s, r) == RecordExtent(s, r) == |RecordExtra(s, r)|
    decreases s, 0, 0
  {
    ValuesSizes(s.values, r.values);
    PointersSizes(s.pointers, r.arrays, r.values);
  }

  // ----- What the serializer writes -----

  /** The elements' own parts are written at `at`, what they add from `extra` on. */
  function WriteValue(t: Type, v: Value, buffer: seq<byte>, at: nat, extra: nat): (r: seq<byte>)
    requires FitsType(t, v) && at + TransferSize(t) <= extra && extra + Extent(t, v) <= |buffer|
    ensures |r| == |buffer|
    decreases t, 0, 0
  {
    match t
    case Scalar(w) => Put(buffer, at, ToBytes(w, v.n))
    case Object => Put(buffer, at, ToBytes(OBJECT_ID_SIZE, v.id))
    case Struct(s) => WriteRecord(s, v.record, buffer, at, extra)
  }

  function WriteValues(ts: seq<Type>, vs: seq<Value>, buffer: seq<byte>, at: nat, extra: nat): (r: seq<byte>)
    requires FitsTypes(ts, vs) && at + ValuesSize(ts) <= extra && extra + ValuesExtent(ts, vs) <= |buffer|
    ensures |r| == |buffer|
    decreases ts, 0, 0
  {
    if ts == [] then buffer
    else
      var buffer1 := WriteValue(ts[0], vs[0], buffer, at, extra);
      WriteValues(ts[1..], vs[1..], buffer1, at + TransferSize(ts[0]), extra)
  }

  /** Each string's length goes to the transfer structure and its characters to the buffer, which
      advances. */
  function WriteStrings(n: nat, strings: seq<seq<byte>>, buffer: seq<byte>, at: nat, extra: nat): (r: seq<byte>)
    requires FitsStrings(n, strings) && at + STRLEN_SIZE * n <= extra && extra + |Concat(strings)| <= |buffer|
    ensures |r| == |buffer|
    decreases n
  {
    if n == 0 then buffer
    else
      var buffer1 := Put(buffer, at, ToBytes(STRLEN_SIZE, |strings[0]|));
      var buffer2 := Put(buffer1, extra, strings[0]);
      WriteStrings(n - 1, strings[1..], buffer2, at + STRLEN_SIZE, extra + |strings[0]|)
  }

  function WriteElements(t: Type, vs: seq<Value>, buffer: seq<byte>, at: nat, extra: nat): (r: seq<byte>)
    requires FitsElements(t, vs) && at + ElementsSize(t, |vs|) <= extra && extra + ElementsExtent(t, vs) <= |buffer|
    ensures |r| == |buffer|
    decreases t, 1, |vs|
  {
    if vs == [] then buffer
    else
      var buffer1 := WriteValue(t, vs[0], buffer, at, extra);
      WriteElements(t, vs[1..], buffer1, at + TransferSize(t), extra)
  }

  function WritePointer(p: Pointer, elements: seq<Value>, values: seq<Value>, buffer: seq<byte>, at: nat): (r: seq<byte>)
    requires FitsPointer(p, elements, values) && at + PointerExtent(p, elements, values) <= |buffer|
    ensures |r| == |buffer|
    decreases p, 0, 0
  {
    WriteElements(p.elem, elements, buffer, at, at + ElementsSize(p.elem, |elements|))
  }

  /** The buffer advances past the elements but not past what they add. */
  function WritePointers(ps: seq<Pointer>, arrays: seq<Array>, values: seq<Value>, buffer: seq<byte>, at: nat): (r: seq<byte>)
    requires FitsPointers(ps, arrays, values) && at + PointersExtent(ps, arrays, values) <= |buffer|
    ensures |r| == |buffer|
    decreases ps, 0, 0
  {
    if ps == [] then buffer
    else
      var buffer1 := WritePointer(ps[0], arrays[0].elements, values, buffer, at);
      WritePointers(ps[1..], arrays[1..], values, buffer1, at + ElementsSize(ps[0].elem, |arrays[0].elements|))
  }

  function WriteMembers(s: Schema, r: Record, buffer: seq<byte>, at: nat, extra: nat): (b: seq<byte>)
    requires FitsSchema(s, r) && at + TransferSize(Struct(s)) <= extra && extra + RecordExtent(s, r) <= |buffer|
    ensures |b| == |buffer|
    decreases s, 0, 0
  {
    var buffer1 := WriteValues(s.values, r.values, buffer, at, extra);
    WriteStrings(s.strings, r.strings, buffer1, at + ValuesSize(s.values), extra)
  }

  function WriteRecord(s: Schema, r: Record, buffer: seq<byte>, at: nat, extra: nat): (b: seq<byte>)
    requires FitsSchema(s, r) && at + TransferSize(Struct(s)) <= extra && extra + RecordExtent(s, r) <= |buffer|
    ensures |b| == |buffer|
    decreases s, 0, 1
  {
    WritePointers(s.pointers, r.arrays, r.values, WriteMembers(s, r, buffer, at, extra), extra + |Concat(r.strings)|)
  }

  /** `Serialize` of a record into a buffer of at least its extent. */
  function Serialize(s: Schema, r: Record, buffer: seq<byte>): (b: seq<byte>)
    requires FitsSchema(s, r) && TransferSize(Struct(s)) + RecordExtent(s, r) <= |buffer|
    ensures |b| == |buffer|
  {
    WriteRecord(s, r, buffer, 0, TransferSize(Struct(s)))
  }

  // ----- The serializer stays inside its two regions -----

  lemma {:induction false} FramesValue(t: Type, v: Value, buffer: seq<byte>, at: nat, extra: nat)
    requires FitsType(t, v) && at + TransferSize(t) <= extra && extra + Extent(t, v) <= |buffer|
    ensures Framed(WriteValue(t, v, buffer, at, extra), buffer, at, TransferSize(t), extra, Extent(t, v))
    decreases t, 0, 0
  {
    if t.Struct? {
      FramesRecord(t.schema, v.record, buffer, at, extra);
    }
  }

  lemma {:induction false} FramesValues(ts: seq<Type>, vs: seq<Value>, buffer: seq<byte>, at: nat, extra: nat)
    requires FitsTypes(ts, vs) && at + ValuesSize(ts) <= extra && extra + ValuesExtent(ts, vs) <= |buffer|
    ensures Framed(WriteValues(ts, vs, buffer, at, extra), buffer, at, ValuesSize(ts), extra, ValuesExtent(ts, vs))
    decreases ts, 0, 0
  {
    if ts != [] {
      FramesValue(ts[0], vs[0], buffer, at, extra);
      FramesValues(ts[1..], vs[1..], WriteValue(ts[0], vs[0], buffer, at, extra), at + TransferSize(ts[0]), extra);
    }
  }

  lemma {:induction false} FramesStrings(n: nat, strings: seq<seq<byte>>, buffer: seq<byte>, at: nat, extra: nat)
    requires FitsStrings(n, strings) && at + STRLEN_SIZE * n <= extra && extra + |Concat(strings)| <= |buffer|
    ensures Framed(WriteStrings(n, strings, buffer, at, extra), buffer, at, STRLEN_SIZE * n, extra, |Concat(strings)|)
    decreases n
  {
    if n > 0 {
      var buffer1 := Put(buffer, at, ToBytes(STRLEN_SIZE, |strings[0]|));
      var buffer2 := Put(buffer1, extra, strings[0]);
      FramesStrings(n - 1, strings[1..], buffer2, at + STRLEN_SIZE, extra + |strings[0]|);
    }
  }

  lemma {:induction false} FramesElements(t: Type, vs: seq<Value>, buffer: seq<byte>, at: nat, extra: nat)
    requires FitsElements(t, vs) && at + ElementsSize(t, |vs|) <= extra && extra + ElementsExtent(t, vs) <= |buffer|
    ensures Framed(WriteElements(t, vs, buffer, at, extra), buffer, at, ElementsSize(t, |vs|), extra, ElementsExtent(t, vs))
    decreases t, 1, |vs|
  {
    if vs != [] {
      FramesValue(t, vs[0], buffer, at, extra);
      FramesElements(t, vs[1..], WriteValue(t, vs[0], buffer, at, extra), at + TransferSize(t), extra);
    }
  }

  lemma {:induction false} FramesPointer(p: Pointer, elements: seq<Value>, values: seq<Value>, buffer: seq<byte>, at: nat)
    requires FitsPointer(p, elements, values) && at + PointerExtent(p, elements, values) <= |buffer|
    ensures Framed(WritePointer(p, elements, values, buffer, at), buffer, at, PointerExtent(p, elements, values), 0, 0)
    decreases p, 0, 0
  {
    FramesElements(p.elem, elements, buffer, at, at + ElementsSize(p.elem, |elements|));
  }

  lemma {:induction false} FramesPointers(ps: seq<Pointer>, arrays: seq<Array>, values: seq<Value>, buffer: seq<byte>, at: nat)
    requires FitsPointers(ps, arrays, values) && at + PointersExtent(ps, arrays, values) <= |buffer|
    ensures Framed(WritePointers(ps, arrays, values, buffer, at), buffer, at, PointersExtent(ps, arrays, values), 0, 0)
    decreases ps, 0, 0
  {
    if ps != [] {
      FramesPointer(ps[0], arrays[0].elements, values, buffer, at);
      FramesPointers(ps[1..], arrays[1..], values, WritePointer(ps[0], arrays[0].elements, values, buffer, at),
                     at + ElementsSize(ps[0].elem, |arrays[0].elements|));
    }
  }

  lemma {:induction false} FramesRecord(s: Schema, r: Record, buffer: seq<byte>, at: nat, extra: nat)
    requires FitsSchema(s, r) && at + TransferSize(Struct(s)) <= extra && extra + RecordExtent(s, r) <= |buffer|
    ensures Framed(WriteRecord(s, r, buffer, at, extra), buffer, at, TransferSize(Struct(s)), extra, RecordExtent(s, r))
    decreases s, 0, 0
  {
    var buffer1 := WriteValues(s.values, r.values, buffer, at, extra);
    var buffer2 := WriteStrings(s.strings, r.strings, buffer1, at + ValuesSize(s.values), extra);
    FramesValues(s.values, r.values, buffer, at, extra);
    FramesStrings(s.strings, r.strings, buffer1, at + ValuesSize(s.values), extra);
    FramesPointers(s.pointers, r.arrays, r.values, buffer2, extra + |Concat(r.strings)|);
  }

  // ----- Supported records are written as their layout -----

  /** Two parts in place, `a` at `at` and `e` at `extra`, stay when more is written behind the first
      and over the second, provided only one of them has an extra part. */
  lemma ConsWritten(r: seq<byte>, buffer: seq<byte>, at: nat, extra: nat, x: nat,
                    a: seq<byte>, b: seq<byte>, e: seq<byte>, f: seq<byte>)
    requires Holds(buffer, at, a) && Holds(buffer, extra, e)
    requires Framed(r, buffer, at + |a|, |b|, extra, x) && Holds(r, at + |a|, b) && Holds(r, extra, f)
    requires at + |a| + |b| <= extra
    requires e == [] || (f == [] && x == 0)
    ensures Holds(r, at, a + b) && Holds(r, extra, e + f)
  {
    KeepsHolds(r, buffer, at + |a|, |b|, extra, x, at, a);
    JoinHolds(r, at, a, b);
    if e == [] {
      assert e + f == f;
    } else {
      KeepsHolds(r, buffer, at + |a|, |b|, extra, x, extra, e);
      assert e + f == e;
    }
  }

  /** A value without extra part is supported and touches nothing but its own bytes. */
  lemma PlainValue(t: Type, v: Value)
    requires FitsType(t, v) && Extra(t, v) == []
    ensures Supported(t, v) && Extent(t, v) == 0
  {
    ValueSizes(t, v);
  }

  lemma {:induction false} WritesValue(t: Type, v: Value, buffer: seq<byte>, at: nat, extra: nat)
    requires FitsType(t, v) && Supported(t, v)
    requires at + TransferSize(t) <= extra && extra + Extent(t, v) <= |buffer|
    ensures Holds(WriteValue(t, v, buffer, at, extra), at, Transfer(t, v))
    ensures Holds(WriteValue(t, v, buffer, at, extra), extra, Extra(t, v))
    decreases t, 0, 0
  {
    match t
    case Scalar(w) => PutHolds(buffer, at, ToBytes(w, v.n));
    case Object => PutHolds(buffer, at, ToBytes(OBJECT_ID_SIZE, v.id));
    case Struct(s) => WritesRecord(s, v.record, buffer, at, extra);
  }

  /** What values without extra part are made of. */
  lemma ConsValueParts(ts: seq<Type>, vs: seq<Value>)
    requires ts != [] && FitsTypes(ts, vs) && ValuesExtra(ts, vs) == []
    ensures FitsType(ts[0], vs[0]) && Supported(ts[0], vs[0]) && Extent(ts[0], vs[0]) == 0
    ensures FitsTypes(ts[1..], vs[1..]) && ValuesExtra(ts[1..], vs[1..]) == [] && ValuesExtent(ts[1..], vs[1..]) == 0
    ensures ValuesTransfer(ts, vs) == Transfer(ts[0], vs[0]) + ValuesTransfer(ts[1..], vs[1..])
  {
    PlainValue(ts[0], vs[0]);
    ValuesSizes(ts[1..], vs[1..]);
  }

  lemma ConsValuesWritten(ts: seq<Type>, vs: seq<Value>, r: seq<byte>, buffer: seq<byte>, at: nat, extra: nat)
    requires ts != [] && FitsTypes(ts, vs) && ValuesExtra(ts, vs) == []
    requires at + ValuesSize(ts) <= extra <= |buffer|
    requires Holds(buffer, at, Transfer(ts[0], vs[0]))
    requires Framed(r, buffer, at + TransferSize(ts[0]), ValuesSize(ts[1..]), extra, ValuesExtent(ts[1..], vs[1..]))
    requires Holds(r, at + TransferSize(ts[0]), ValuesTransfer(ts[1..], vs[1..]))
    ensures Holds(r, at, ValuesTransfer(ts, vs))
  {
    hide Transfer, Extra, Extent, FitsType, TransferSize, ValuesExtra, ValuesExtent, Holds, Framed;
    ConsValueParts(ts, vs);
    var a, b := Transfer(ts[0], vs[0]), ValuesTransfer(ts[1..], vs[1..]);
    KeepsHolds(r, buffer, at + |a|, |b|, extra, 0, at, a);
    JoinHolds(r, at, a, b);
  }

  lemma {:induction false} WritesValues(ts: seq<Type>, vs: seq<Value>, buffer: seq<byte>, at: nat, extra: nat)
    requires FitsTypes(ts, vs) && ValuesExtra(ts, vs) == []
    requires at + ValuesSize(ts) <= extra && extra + ValuesExtent(ts, vs) <= |buffer|
    ensures Holds(WriteValues(ts, vs, buffer, at, extra), at, ValuesTransfer(ts, vs))
    decreases ts, 0, 0
  {
    hide WriteValue, Transfer, Extra, Extent, TransferSize, FitsType, Holds, Framed;
    if ts == [] {
      EmptyHolds(buffer, at);
    } else {
      var buffer1 := WriteValue(ts[0], vs[0], buffer, at, extra);
      ConsValueParts(ts, vs);
      WritesValue(ts[0], vs[0], buffer, at, extra);
      WritesValues(ts[1..], vs[1..], buffer1, at + TransferSize(ts[0]), extra);
      FramesValues(ts[1..], vs[1..], buffer1, at + TransferSize(ts[0]), extra);
      ConsValuesWritten(ts, vs, WriteValues(ts, vs, buffer, at, extra), buffer1, at, extra);
    }
  }

  /** A string in front of others that are in place. */
  lemma ConsStringWritten(r: seq<byte>, buffer: seq<byte>, at: nat, extra: nat,
                          length: seq<byte>, lengths: seq<byte>, s: seq<byte>, chars: seq<byte>)
    requires at + |length| + |lengths| <= extra && extra + |s| + |chars| <= |buffer|
    requires var buffer2 := Put(Put(buffer, at, length), extra, s);
             Framed(r, buffer2, at + |length|, |lengths|, extra + |s|, |chars|)
    requires Holds(r, at + |length|, lengths) && Holds(r, extra + |s|, chars)
    ensures Holds(r, at, length + lengths) && Holds(r, extra, s + chars)
  {
    var buffer1 := Put(buffer, at, length);
    var buffer2 := Put(buffer1, extra, s);
    PutHolds(buffer, at, length);
    PutHolds(buffer1, extra, s);
    KeepsHolds(buffer2, buffer1, 0, 0, extra, |s|, at, length);
    KeepsHolds(r, buffer2, at + |length|, |lengths|, extra + |s|, |chars|, at, length);
    KeepsHolds(r, buffer2, at + |length|, |lengths|, extra + |s|, |chars|, extra, s);
    JoinHolds(r, at, length, lengths);
    JoinHolds(r, extra, s, chars);
  }

  lemma {:induction false} WritesStrings(n: nat, strings: seq<seq<byte>>, buffer: seq<byte>, at: nat, extra: nat)
    requires FitsStrings(n, strings) && at + STRLEN_SIZE * n <= extra && extra + |Concat(strings)| <= |buffer|
    ensures Holds(WriteStrings(n, strings, buffer, at, extra), at, StringLengths(n, strings))
    ensures Holds(WriteStrings(n, strings, buffer, at, extra), extra, Concat(strings))
    decreases n
  {
    hide ToBytes, Pow256, Put, Holds, Framed;
    if n == 0 {
      EmptyHolds(buffer, at);
      EmptyHolds(buffer, extra);
    } else {
      var s, length := strings[0], ToBytes(STRLEN_SIZE, |strings[0]|);
      var buffer2 := Put(Put(buffer, at, length), extra, s);
      WritesStrings(n - 1, strings[1..], buffer2, at + STRLEN_SIZE, extra + |s|);
      FramesStrings(n - 1, strings[1..], buffer2, at + STRLEN_SIZE, extra + |s|);
      ConsStringWritten(WriteStrings(n, strings, buffer, at, extra), buffer, at, extra,
                        length, StringLengths(n - 1, strings[1..]), s, Concat(strings[1..]));
    }
  }

  lemma ConsElementBounds(t: Type, vs: seq<Value>)
    requires vs != [] && FitsElements(t, vs)
    ensures FitsType(t, vs[0]) && FitsElements(t, vs[1..])
    ensures ElementsSize(t, |vs|) == TransferSize(t) + ElementsSize(t, |vs[1..]|)
    ensures Extent(t, vs[0]) <= ElementsExtent(t, vs) && ElementsExtent(t, vs[1..]) <= ElementsExtent(t, vs)
    ensures SupportedElements(t, vs) ==> Supported(t, vs[0]) && SupportedElements(t, vs[1..])
  {
  }

  /** What elements are made of, and when they are supported. */
  lemma ConsElementParts(t: Type, vs: seq<Value>)
    requires vs != [] && FitsElements(t, vs) && SupportedElements(t, vs)
    ensures FitsType(t, vs[0]) && FitsElements(t, vs[1..])
    ensures ElementsTransfer(t, vs) == Transfer(t, vs[0]) + ElementsTransfer(t, vs[1..])
    ensures ElementsExtra(t, vs) == Extra(t, vs[0]) + ElementsExtra(t, vs[1..])
    ensures Extra(t, vs[0]) == [] || (ElementsExtra(t, vs[1..]) == [] && ElementsExtent(t, vs[1..]) == 0)
  {
    ElementsSizes(t, vs[1..]);
  }

  /** Elements are in place, their own parts at `at` and what they add at `extra`. */
  predicate ElementsIn(t: Type, vs: seq<Value>, r: seq<byte>, at: nat, extra: nat)
    requires FitsElements(t, vs)
  {
    Holds(r, at, ElementsTransfer(t, vs)) && Holds(r, extra, ElementsExtra(t, vs))
  }

  lemma ConsElementsIn(t: Type, vs: seq<Value>, r: seq<byte>, buffer: seq<byte>, at: nat, extra: nat)
    requires vs != [] && FitsElements(t, vs) && SupportedElements(t, vs) && at + ElementsSize(t, |vs|) <= extra
    requires Holds(buffer, at, Transfer(t, vs[0])) && Holds(buffer, extra, Extra(t, vs[0]))
    requires Framed(r, buffer, at + TransferSize(t), ElementsSize(t, |vs[1..]|), extra, ElementsExtent(t, vs[1..]))
    requires ElementsIn(t, vs[1..], r, at + TransferSize(t), extra)
    ensures ElementsIn(t, vs, r, at, extra)
  {
    hide Transfer, Extra, Extent, Supported, FitsType, TransferSize, Holds, Framed;
    ConsElementBounds(t, vs);
    ConsElementParts(t, vs);
    ConsWritten(r, buffer, at, extra, ElementsExtent(t, vs[1..]), Transfer(t, vs[0]), ElementsTransfer(t, vs[1..]),
                Extra(t, vs[0]), ElementsExtra(t, vs[1..]));
  }

  lemma NoElementsIn(t: Type, buffer: seq<byte>, at: nat, extra: nat)
    requires at <= extra <= |buffer|
    ensures WriteElements(t, [], buffer, at, extra) == buffer
    ensures ElementsIn(t, [], buffer, at, extra)
  {
    EmptyHolds(buffer, at);
    EmptyHolds(buffer, extra);
  }

  lemma {:induction false} WritesElements(t: Type, vs: seq<Value>, buffer: seq<byte>, at: nat, extra: nat)
    requires FitsElements(t, vs) && SupportedElements(t, vs)
    requires at + ElementsSize(t, |vs|) <= extra && extra + ElementsExtent(t, vs) <= |buffer|
    ensures ElementsIn(t, vs, WriteElements(t, vs, buffer, at, extra), at, extra)
    decreases t, 1, |vs|
  {
    hide WriteValue, Transfer, Extra, Extent, Supported, FitsType, TransferSize, ElementsIn, Framed, Holds;
    hide FitsElements, SupportedElements, ElementsExtent, ElementsSize, ElementsTransfer, ElementsExtra;
    if vs == [] {
      NoElementsIn(t, buffer, at, extra);
    } else {
      ConsElementBounds(t, vs);
      var buffer1 := WriteValue(t, vs[0], buffer, at, extra);
      WritesValue(t, vs[0], buffer, at, extra);
      WritesElements(t, vs[1..], buffer1, at + TransferSize(t), extra);
      FramesElements(t, vs[1..], buffer1, at + TransferSize(t), extra);
      ConsElementsIn(t, vs, WriteElements(t, vs, buffer, at, extra), buffer1, at, extra);
    }
  }

  lemma {:induction false} WritesPointer(p: Pointer, elements: seq<Value>, values: seq<Value>, buffer: seq<byte>, at: nat)
    requires FitsPointer(p, elements, values) && SupportedPointer(p, elements, values, true)
    requires at + PointerExtent(p, elements, values) <= |buffer|
    ensures Holds(WritePointer(p, elements, values, buffer, at), at, PointerExtra(p, elements, values))
    decreases p, 0, 0
  {
    var extra := at + ElementsSize(p.elem, |elements|);
    WritesElements(p.elem, elements, buffer, at, extra);
    JoinHolds(WriteElements(p.elem, elements, buffer, at, extra), at,
              ElementsTransfer(p.elem, elements), ElementsExtra(p.elem, elements));
  }

  /** A part in place at `at`, and what is written `n` bytes further: either the part has just `n`
      bytes, or nothing is written. */
  lemma ConsPointerWritten(r: seq<byte>, buffer: seq<byte>, at: nat, n: nat, x: nat, first: seq<byte>, others: seq<byte>)
    requires Holds(buffer, at, first) && Framed(r, buffer, at + n, x, 0, 0) && Holds(r, at + n, others)
    requires |first| == n || (others == [] && x == 0)
    ensures Holds(r, at, first + others)
  {
    KeepsHolds(r, buffer, at + n, x, 0, 0, at, first);
    if |first| == n {
      JoinHolds(r, at, first, others);
    } else {
      assert first + others == first;
    }
  }

  lemma {:induction false} WritesPointers(ps: seq<Pointer>, arrays: seq<Array>, values: seq<Value>, buffer: seq<byte>, at: nat)
    requires FitsPointers(ps, arrays, values) && SupportedPointers(ps, arrays, values)
    requires at + PointersExtent(ps, arrays, values) <= |buffer|
    ensures Holds(WritePointers(ps, arrays, values, buffer, at), at, PointersExtra(ps, arrays, values))
    decreases ps, 0, 0
  {
    if ps != [] {
      var elements, n := arrays[0].elements, ElementsSize(ps[0].elem, |arrays[0].elements|);
      var buffer1 := WritePointer(ps[0], elements, values, buffer, at);
      WritesPointer(ps[0], elements, values, buffer, at);
      WritesPointers(ps[1..], arrays[1..], values, buffer1, at + n);
      FramesPointers(ps[1..], arrays[1..], values, buffer1, at + n);
      PointerSizes(ps[0], elements, values);
      PointersSizes(ps[1..], arrays[1..], values);
      ConsPointerWritten(WritePointers(ps[1..], arrays[1..], values, buffer1, at + n), buffer1, at, n,
                         PointersExtent(ps[1..], arrays[1..], values),
                         PointerExtra(ps[0], elements, values), PointersExtra(ps[1..], arrays[1..], values));
    }
  }

  /** The values and strings of a record, in place. */
  lemma {:induction false} WritesMembers(s: Schema, r: Record, buffer: seq<byte>, at: nat, extra: nat)
    requires FitsSchema(s, r) && ValuesExtra(s.values, r.values) == []
    requires at + TransferSize(Struct(s)) <= extra && extra + RecordExtent(s, r) <= |buffer|
    ensures Holds(WriteMembers(s, r, buffer, at, extra), at, Transfer(Struct(s), Nested(r)))
    ensures Holds(WriteMembers(s, r, buffer, at, extra), extra, Concat(r.strings))
    decreases s, 0, 0
  {
    hide WriteValues, WriteStrings, ValuesTransfer, StringLengths, Concat, FitsTypes, FitsStrings;
    var n, plain := ValuesSize(s.values), ValuesTransfer(s.values, r.values);
    var lengths, chars := StringLengths(s.strings, r.strings), Concat(r.strings);
    var buffer1 := WriteValues(s.values, r.values, buffer, at, extra);
    var buffer2 := WriteStrings(s.strings, r.strings, buffer1, at + n, extra);
    WritesValues(s.values, r.values, buffer, at, extra);
    WritesStrings(s.strings, r.strings, buffer1, at + n, extra);
    FramesStrings(s.strings, r.strings, buffer1, at + n, extra);
    KeepsHolds(buffer2, buffer1, at + n, |lengths|, extra, |chars|, at, plain);
    JoinHolds(buffer2, at, plain, lengths);
  }

  /** What is written behind the strings leaves the rest of the record alone. */
  lemma PointersWritten(b: seq<byte>, buffer2: seq<byte>, at: nat, extra: nat, x: nat,
                        transfer: seq<byte>, chars: seq<byte>, others: seq<byte>)
    requires Holds(buffer2, at, transfer) && Holds(buffer2, extra, chars) && at + |transfer| <= extra
    requires Framed(b, buffer2, extra + |chars|, x, 0, 0) && Holds(b, extra + |chars|, others)
    ensures Holds(b, at, transfer) && Holds(b, extra, [] + chars + others)
  {
    KeepsHolds(b, buffer2, extra + |chars|, x, 0, 0, at, transfer);
    KeepsHolds(b, buffer2, extra + |chars|, x, 0, 0, extra, chars);
    JoinHolds(b, extra, chars, others);
    assert [] + chars == chars;
  }

  lemma {:induction false} WritesRecord(s: Schema, r: Record, buffer: seq<byte>, at: nat, extra: nat)
    requires FitsSchema(s, r) && SupportedRecord(s, r)
    requires at + TransferSize(Struct(s)) <= extra && extra + RecordExtent(s, r) <= |buffer|
    ensures Holds(WriteRecord(s, r, buffer, at, extra), at, Transfer(Struct(s), Nested(r)))
    ensures Holds(WriteRecord(s, r, buffer, at, extra), extra, RecordExtra(s, r))
    decreases s, 0, 1
  {
    hide WriteMembers, WritePointers, PointersExtra, PointersExtent, SupportedPointers, FitsTypes, FitsStrings, FitsPointers;
    hide Transfer, Concat, Holds, Framed;
    var chars, others := Concat(r.strings), PointersExtra(s.pointers, r.arrays, r.values);
    var buffer2 := WriteMembers(s, r, buffer, at, extra);
    var b := WritePointers(s.pointers, r.arrays, r.values, buffer2, extra + |chars|);
    WritesMembers(s, r, buffer, at, extra);
    WritesPointers(s.pointers, r.arrays, r.values, buffer2, extra + |chars|);
    FramesPointers(s.pointers, r.arrays, r.values, buffer2, extra + |chars|);
    PointersWritten(b, buffer2, at, extra, PointersExtent(s.pointers, r.arrays, r.values),
                    Transfer(Struct(s), Nested(r)), chars, others);
  }

  // ----- The round trip, exactly -----

  /** A supported record fills a buffer of the required size with its layout. */
  lemma SerializesLayout(s: Schema, r: Record, buffer: seq<byte>)
    requires FitsSchema(s, r) && SupportedRecord(s, r) && |buffer| == RequiredSize(s, r)
    ensures TransferSize(Struct(s)) + RecordExtent(s, r) <= |buffer|
    ensures Serialize(s, r, buffer) == Layout(s, r)
  {
    RecordSizes(s, r);
    var n := TransferSize(Struct(s));
    WritesRecord(s, r, buffer, 0, n);
    var b := Serialize(s, r, buffer);
    SplitAt(b, n);
    assert b[0..n] == b[..n] && b[n..|b|] == b[n..];
  }

  /** Every record of a supported shape makes the round trip, whatever the buffer held before and
      whatever follows it in the stream. */
  lemma RoundTrip(s: Schema, r: Record, buffer: seq<byte>, suffix: seq<byte>, resolve: Resolver)
    requires FitsSchema(s, r) && SupportedRecord(s, r) && AllKnown(Nested(r), resolve)
    requires |buffer| == RequiredSize(s, r)
    ensures TransferSize(Struct(s)) + RecordExtent(s, r) <= |buffer|
    ensures Deserialize(s, Serialize(s, r, buffer) + suffix, resolve) == Ok(r, suffix)
  {
    SerializesLayout(s, r, buffer);
    DecodesLayout(s, r, suffix, resolve);
  }

  /** The buffer of the required size is also the space the record takes, and whatever it held
      before, its serialization decodes to the record. */
  ghost predicate MakesRoundTrip(s: Schema, r: Record, resolve: Resolver)
    requires FitsSchema(s, r)
  {
    && RequiredSize(s, r) == |Layout(s, r)|
    && forall buffer: seq<byte> :: |buffer| == RequiredSize(s, r) ==> SurvivesIn(s, r, buffer, resolve)
  }

  predicate SurvivesIn(s: Schema, r: Record, buffer: seq<byte>, resolve: Resolver)
    requires FitsSchema(s, r)
  {
    && TransferSize(Struct(s)) + RecordExtent(s, r) <= |buffer|
    && Deserialize(s, Serialize(s, r, buffer), resolve) == Ok(r, [])
  }

  /** Bytes that differ from the given ones in the last. */
  lemma WrongLastByte(all: seq<byte>) returns (buffer: seq<byte>)
    requires all != []
    ensures |buffer| == |all| && buffer[|all| - 1] != all[|all| - 1]
  {
    var other: byte := if all[|all| - 1] == 0 then 1 else 0;
    buffer := all[|all| - 1 := other];
  }

  /** Exactly the supported records make the round trip. */
  lemma RoundTripIsExact(s: Schema, r: Record, resolve: Resolver)
    requires FitsSchema(s, r) && AllKnown(Nested(r), resolve)
    ensures MakesRoundTrip(s, r, resolve) <==> SupportedRecord(s, r)
  {
    RecordSizes(s, r);
    if SupportedRecord(s, r) {
      forall buffer: seq<byte> | |buffer| == RequiredSize(s, r) ensures SurvivesIn(s, r, buffer, resolve) {
        RoundTrip(s, r, buffer, [], resolve);
        assert Serialize(s, r, buffer) + [] == Serialize(s, r, buffer);
      }
    } else if RequiredSize(s, r) == |Layout(s, r)| {
      // The last byte of the buffer is never written.
      var buffer := WrongLastByte(Layout(s, r));
      FramesRecord(s, r, buffer, 0, TransferSize(Struct(s)));
      DecodesExactlyLayouts(s, r, Serialize(s, r, buffer), [], resolve);
      assert Layout(s, r) + [] == Layout(s, r);
      assert !SurvivesIn(s, r, buffer, resolve);
    }
  }
}
