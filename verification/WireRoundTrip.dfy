/** Layout and decoding are inverse to each other: decoding the layout of a record gives the
    record back and leaves the rest of the stream alone, and no other bytes decode to it. */
module WireRoundTrip {
  import opened Bytes
  import opened WireFormat

  /** Every object the value names is known to the server and valid. */
  predicate AllKnown(v: Value, resolve: Resolver) {
    match v
    case Number(_) => true
    case ObjectRef(id) => resolve(id) == Known
    case Nested(r) => (forall x | x in r.values :: AllKnown(x, resolve)) && (forall a | a in r.arrays :: AllKnowns(a.elements, resolve))
  }

  predicate AllKnowns(vs: seq<Value>, resolve: Resolver) {
    forall x | x in vs :: AllKnown(x, resolve)
  }

  // ----- Decoding a layout -----

  lemma {:induction false} DecodesValue(t: Type, v: Value, rest: seq<byte>, resolve: Resolver)
    requires FitsType(t, v) && AllKnown(v, resolve)
    ensures DecodeValue(t, Transfer(t, v), Extra(t, v) + rest, resolve) == Ok(v, rest)
    decreases t, 0, 0
  {
    match t
    case Scalar(w) =>
      BytesOfNumber(w, v.n);
      assert [] + rest == rest;
    case Object =>
      BytesOfNumber(OBJECT_ID_SIZE, v.id);
      assert [] + rest == rest;
    case Struct(s) =>
      DecodesRecord(s, v.record, rest, resolve);
  }

  lemma {:induction false} DecodesValues(ts: seq<Type>, vs: seq<Value>, rest: seq<byte>, resolve: Resolver)
    requires FitsTypes(ts, vs) && AllKnowns(vs, resolve)
    ensures DecodeValues(ts, ValuesTransfer(ts, vs), ValuesExtra(ts, vs) + rest, resolve) == Ok(vs, rest)
    decreases ts, 0, 0
  {
    if ts == [] {
      assert [] + rest == rest;
    } else {
      var rest' := ValuesExtra(ts[1..], vs[1..]) + rest;
      Cut(Transfer(ts[0], vs[0]), ValuesTransfer(ts[1..], vs[1..]));
      Assoc(Extra(ts[0], vs[0]), ValuesExtra(ts[1..], vs[1..]), rest);
      DecodesValue(ts[0], vs[0], rest', resolve);
      DecodesValues(ts[1..], vs[1..], rest, resolve);
      assert [vs[0]] + vs[1..] == vs;
    }
  }

  lemma {:induction false} DecodesStrings(n: nat, ss: seq<seq<byte>>, rest: seq<byte>)
    requires FitsStrings(n, ss)
    ensures DecodeStrings(n, StringLengths(n, ss), Concat(ss) + rest) == Ok(ss, rest)
  {
    if n == 0 {
      assert [] + rest == rest;
    } else {
      BytesOfNumber(STRLEN_SIZE, |ss[0]|);
      Cut(ToBytes(STRLEN_SIZE, |ss[0]|), StringLengths(n - 1, ss[1..]));
      Assoc(ss[0], Concat(ss[1..]), rest);
      Cut(ss[0], Concat(ss[1..]) + rest);
      DecodesStrings(n - 1, ss[1..], rest);
      assert [ss[0]] + ss[1..] == ss;
    }
  }

  lemma {:induction false} DecodesElements(t: Type, vs: seq<Value>, rest: seq<byte>, resolve: Resolver)
    requires FitsElements(t, vs) && AllKnowns(vs, resolve)
    ensures DecodeElements(t, |vs|, ElementsTransfer(t, vs), ElementsExtra(t, vs) + rest, resolve) == Ok(vs, rest)
    decreases t, 1, |vs|
  {
    if vs == [] {
      assert [] + rest == rest;
    } else {
      var rest' := ElementsExtra(t, vs[1..]) + rest;
      Cut(Transfer(t, vs[0]), ElementsTransfer(t, vs[1..]));
      Assoc(Extra(t, vs[0]), ElementsExtra(t, vs[1..]), rest);
      DecodesValue(t, vs[0], rest', resolve);
      DecodesElements(t, vs[1..], rest, resolve);
      assert [vs[0]] + vs[1..] == vs;
    }
  }

  lemma {:induction false} DecodesPointer(p: Pointer, elements: seq<Value>, values: seq<Value>, rest: seq<byte>, resolve: Resolver)
    requires FitsPointer(p, elements, values) && AllKnowns(elements, resolve)
    ensures DecodePointer(p, values, PointerExtra(p, elements, values) + rest, resolve) == Ok(elements, rest)
    decreases p, 0, 0
  {
    var transfer := ElementsTransfer(p.elem, elements);
    Assoc(transfer, ElementsExtra(p.elem, elements), rest);
    Cut(transfer, ElementsExtra(p.elem, elements) + rest);
    DecodesElements(p.elem, elements, rest, resolve);
  }

  lemma {:induction false} DecodesPointers(ps: seq<Pointer>, arrays: seq<Array>, values: seq<Value>, rest: seq<byte>, resolve: Resolver)
    requires FitsPointers(ps, arrays, values) && (forall a | a in arrays :: AllKnowns(a.elements, resolve))
    ensures DecodePointers(ps, values, PointersExtra(ps, arrays, values) + rest, resolve) == Ok(arrays, rest)
    decreases ps, 0, 0
  {
    if ps == [] {
      assert [] + rest == rest;
    } else {
      var rest' := PointersExtra(ps[1..], arrays[1..], values) + rest;
      Assoc(PointerExtra(ps[0], arrays[0].elements, values), PointersExtra(ps[1..], arrays[1..], values), rest);
      DecodesPointer(ps[0], arrays[0].elements, values, rest', resolve);
      DecodesPointers(ps[1..], arrays[1..], values, rest, resolve);
      assert [arrays[0]] + arrays[1..] == arrays;
    }
  }

  lemma {:induction false} DecodesRecord(s: Schema, r: Record, rest: seq<byte>, resolve: Resolver)
    requires FitsSchema(s, r) && AllKnown(Nested(r), resolve)
    ensures DecodeRecord(s, Transfer(Struct(s), Nested(r)), RecordExtra(s, r) + rest, resolve) == Ok(r, rest)
    decreases s, 0, 0
  {
    var rest2 := PointersExtra(s.pointers, r.arrays, r.values) + rest;
    var rest1 := Concat(r.strings) + rest2;
    Cut(ValuesTransfer(s.values, r.values), StringLengths(s.strings, r.strings));
    assert RecordExtra(s, r) + rest == ValuesExtra(s.values, r.values) + rest1;
    DecodesValues(s.values, r.values, rest1, resolve);
    DecodesStrings(s.strings, r.strings, rest2);
    DecodesPointers(s.pointers, r.arrays, r.values, rest, resolve);
  }

  /** Decoding the bytes of a record gives the record and leaves what follows untouched. */
  lemma DecodesLayout(s: Schema, r: Record, suffix: seq<byte>, resolve: Resolver)
    requires FitsSchema(s, r) && AllKnown(Nested(r), resolve)
    ensures Deserialize(s, Layout(s, r) + suffix, resolve) == Ok(r, suffix)
  {
    var transfer := Transfer(Struct(s), Nested(r));
    Assoc(transfer, RecordExtra(s, r), suffix);
    Cut(transfer, RecordExtra(s, r) + suffix);
    DecodesRecord(s, r, suffix, resolve);
  }

  // ----- Only the layout decodes -----

  lemma {:induction false} ValueDecodedFrom(t: Type, transfer: seq<byte>, buffer: seq<byte>, resolve: Resolver)
    requires |transfer| == TransferSize(t) && DecodeValue(t, transfer, buffer, resolve).Ok?
    ensures var d := DecodeValue(t, transfer, buffer, resolve);
            && FitsType(t, d.value) && AllKnown(d.value, resolve)
            && transfer == Transfer(t, d.value) && buffer == Extra(t, d.value) + d.rest
    decreases t, 0, 0
  {
    match t
    case Scalar(_) => NumberOfBytes(transfer);
    case Object => NumberOfBytes(transfer);
    case Struct(s) => RecordDecodedFrom(s, transfer, buffer, resolve);
  }

  lemma {:induction false} ValuesDecodedFrom(ts: seq<Type>, transfer: seq<byte>, buffer: seq<byte>, resolve: Resolver)
    requires |transfer| == ValuesSize(ts) && DecodeValues(ts, transfer, buffer, resolve).Ok?
    ensures var d := DecodeValues(ts, transfer, buffer, resolve);
            && FitsTypes(ts, d.value) && AllKnowns(d.value, resolve)
            && transfer == ValuesTransfer(ts, d.value) && buffer == ValuesExtra(ts, d.value) + d.rest
    decreases ts, 0, 0
  {
    if ts != [] {
      var n := TransferSize(ts[0]);
      ValueDecodedFrom(ts[0], transfer[..n], buffer, resolve);
      var buffer1 := DecodeValue(ts[0], transfer[..n], buffer, resolve).rest;
      ValuesDecodedFrom(ts[1..], transfer[n..], buffer1, resolve);
      SplitAt(transfer, n);
    }
  }

  lemma ConsStrings(n: nat, s: seq<byte>, ss: seq<seq<byte>>, rest: seq<byte>)
    requires |s| < Pow256(STRLEN_SIZE) && FitsStrings(n, ss)
    ensures FitsStrings(n + 1, [s] + ss)
    ensures StringLengths(n + 1, [s] + ss) == ToBytes(STRLEN_SIZE, |s|) + StringLengths(n, ss)
    ensures Concat([s] + ss) + rest == s + (Concat(ss) + rest)
  {
    var all := [s] + ss;
    assert all[0] == s && all[1..] == ss;
    Assoc(s, Concat(ss), rest);
  }

  lemma {:induction false} StringsDecodedFrom(n: nat, lengths: seq<byte>, buffer: seq<byte>)
    requires |lengths| == STRLEN_SIZE * n && DecodeStrings(n, lengths, buffer).Ok?
    ensures var d := DecodeStrings(n, lengths, buffer);
            FitsStrings(n, d.value) && lengths == StringLengths(n, d.value) && buffer == Concat(d.value) + d.rest
  {
    if n == 0 {
      assert [] + buffer == buffer;
    } else {
      var head, tail := lengths[..STRLEN_SIZE], lengths[STRLEN_SIZE..];
      NumberOfBytes(head);
      var size := FromBytes(head);
      StringsDecodedFrom(n - 1, tail, buffer[size..]);
      var others := DecodeStrings(n - 1, tail, buffer[size..]);
      SplitAt(lengths, STRLEN_SIZE);
      SplitAt(buffer, size);
      ConsStrings(n - 1, buffer[..size], others.value, others.rest);
    }
  }

  /** One more element in front of elements that were decoded. */
  lemma ConsElements(t: Type, v: Value, vs: seq<Value>, buffer: seq<byte>, buffer1: seq<byte>, rest: seq<byte>, resolve: Resolver)
    requires FitsType(t, v) && AllKnown(v, resolve) && buffer == Extra(t, v) + buffer1
    requires FitsElements(t, vs) && AllKnowns(vs, resolve) && buffer1 == ElementsExtra(t, vs) + rest
    ensures var all := [v] + vs;
            && FitsElements(t, all) && AllKnowns(all, resolve)
            && ElementsTransfer(t, all) == Transfer(t, v) + ElementsTransfer(t, vs)
            && buffer == ElementsExtra(t, all) + rest
  {
    var all := [v] + vs;
    assert all[0] == v && all[1..] == vs;
    Assoc(Extra(t, v), ElementsExtra(t, vs), rest);
  }

  /** The decoding of several elements in two steps. */
  lemma SplitElements(t: Type, count: nat, transfer: seq<byte>, buffer: seq<byte>, resolve: Resolver)
    requires count > 0
    requires |transfer| == ElementsSize(t, count) && DecodeElements(t, count, transfer, buffer, resolve).Ok?
    ensures var n := TransferSize(t);
            var first := DecodeValue(t, transfer[..n], buffer, resolve);
            && first.Ok?
            && var others := DecodeElements(t, count - 1, transfer[n..], first.rest, resolve);
               others.Ok? && DecodeElements(t, count, transfer, buffer, resolve) == Ok([first.value] + others.value, others.rest)
  {
  }

  lemma {:induction false} ElementsDecodedFrom(t: Type, count: nat, transfer: seq<byte>, buffer: seq<byte>, resolve: Resolver)
    requires |transfer| == ElementsSize(t, count) && DecodeElements(t, count, transfer, buffer, resolve).Ok?
    ensures var d := DecodeElements(t, count, transfer, buffer, resolve);
            && FitsElements(t, d.value) && AllKnowns(d.value, resolve)
            && transfer == ElementsTransfer(t, d.value) && buffer == ElementsExtra(t, d.value) + d.rest
    decreases t, 1, count
  {
    if count == 0 {
      assert [] + buffer == buffer;
    } else {
      SplitElements(t, count, transfer, buffer, resolve);
      var head, tail := transfer[..TransferSize(t)], transfer[TransferSize(t)..];
      var first := DecodeValue(t, head, buffer, resolve);
      var others := DecodeElements(t, count - 1, tail, first.rest, resolve);
      ValueDecodedFrom(t, head, buffer, resolve);
      ElementsDecodedFrom(t, count - 1, tail, first.rest, resolve);
      SplitAt(transfer, TransferSize(t));
      ConsElements(t, first.value, others.value, buffer, first.rest, others.rest, resolve);
    }
  }

  lemma {:induction false} PointerDecodedFrom(p: Pointer, values: seq<Value>, buffer: seq<byte>, resolve: Resolver)
    requires DecodePointer(p, values, buffer, resolve).Ok?
    ensures var d := DecodePointer(p, values, buffer, resolve);
            FitsPointer(p, d.value, values) && AllKnowns(d.value, resolve) && buffer == PointerExtra(p, d.value, values) + d.rest
    decreases p, 0, 0
  {
    var count := LengthOf(p.length, values);
    var n := ElementsSize(p.elem, count);
    ElementsDecodedFrom(p.elem, count, buffer[..n], buffer[n..], resolve);
    SplitAt(buffer, n);
  }

  lemma {:induction false} PointersDecodedFrom(ps: seq<Pointer>, values: seq<Value>, buffer: seq<byte>, resolve: Resolver)
    requires DecodePointers(ps, values, buffer, resolve).Ok?
    ensures var d := DecodePointers(ps, values, buffer, resolve);
            && FitsPointers(ps, d.value, values) && (forall a | a in d.value :: AllKnowns(a.elements, resolve))
            && buffer == PointersExtra(ps, d.value, values) + d.rest
    decreases ps, 0, 0
  {
    if ps != [] {
      PointerDecodedFrom(ps[0], values, buffer, resolve);
      var first := DecodePointer(ps[0], values, buffer, resolve);
      PointersDecodedFrom(ps[1..], values, first.rest, resolve);
      var others := DecodePointers(ps[1..], values, first.rest, resolve);
      Assoc(PointerExtra(ps[0], first.value, values), PointersExtra(ps[1..], others.value, values), others.rest);
      assert ([Array(first.value)] + others.value)[1..] == others.value;
    }
  }

  lemma {:induction false} RecordDecodedFrom(s: Schema, transfer: seq<byte>, buffer: seq<byte>, resolve: Resolver)
    requires |transfer| == TransferSize(Struct(s)) && DecodeRecord(s, transfer, buffer, resolve).Ok?
    ensures var d := DecodeRecord(s, transfer, buffer, resolve);
            && FitsSchema(s, d.value) && AllKnown(Nested(d.value), resolve)
            && transfer == Transfer(Struct(s), Nested(d.value)) && buffer == RecordExtra(s, d.value) + d.rest
    decreases s, 0, 0
  {
    var n := ValuesSize(s.values);
    var values := DecodeValues(s.values, transfer[..n], buffer, resolve);
    ValuesDecodedFrom(s.values, transfer[..n], buffer, resolve);
    var strings := DecodeStrings(s.strings, transfer[n..], values.rest);
    StringsDecodedFrom(s.strings, transfer[n..], values.rest);
    PointersDecodedFrom(s.pointers, values.value, strings.rest, resolve);
    var arrays := DecodePointers(s.pointers, values.value, strings.rest, resolve);
    RecordOf(s, values.value, strings.value, arrays.value, arrays.rest);
    SplitAt(transfer, n);
  }

  lemma RecordOf(s: Schema, values: seq<Value>, strings: seq<seq<byte>>, arrays: seq<Array>, rest: seq<byte>)
    requires FitsTypes(s.values, values) && FitsStrings(s.strings, strings) && FitsPointers(s.pointers, arrays, values)
    ensures var r := Record(values, strings, arrays);
            && FitsSchema(s, r)
            && Transfer(Struct(s), Nested(r)) == ValuesTransfer(s.values, values) + StringLengths(s.strings, strings)
            && RecordExtra(s, r) + rest
               == ValuesExtra(s.values, values) + (Concat(strings) + (PointersExtra(s.pointers, arrays, values) + rest))
  {
    var a, b, c := ValuesExtra(s.values, values), Concat(strings), PointersExtra(s.pointers, arrays, values);
    Assoc(a + b, c, rest);
    Assoc(a, b, c + rest);
  }

  /** A stream that decodes starts with the layout of what was decoded, and what was decoded
      names only valid objects. */
  lemma DecodedFromLayout(s: Schema, stream: seq<byte>, resolve: Resolver)
    requires Deserialize(s, stream, resolve).Ok?
    ensures var d := Deserialize(s, stream, resolve);
            FitsSchema(s, d.value) && AllKnown(Nested(d.value), resolve) && stream == Layout(s, d.value) + d.rest
  {
    var n := TransferSize(Struct(s));
    RecordDecodedFrom(s, stream[..n], stream[n..], resolve);
    SplitAt(stream, n);
  }

  /** So a stream decodes to a record exactly when it starts with the layout of that record. */
  lemma DecodesExactlyLayouts(s: Schema, r: Record, stream: seq<byte>, rest: seq<byte>, resolve: Resolver)
    ensures Deserialize(s, stream, resolve) == Ok(r, rest) <==>
            FitsSchema(s, r) && AllKnown(Nested(r), resolve) && stream == Layout(s, r) + rest
  {
    if Deserialize(s, stream, resolve).Ok? {
      DecodedFromLayout(s, stream, resolve);
    }
    if FitsSchema(s, r) && AllKnown(Nested(r), resolve) {
      DecodesLayout(s, r, rest, resolve);
    }
  }
}
