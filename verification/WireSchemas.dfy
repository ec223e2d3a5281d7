/** Which schemas are written and read back whatever the record holds: a shape that suffices, and a
    schema without it. */
module WireSchemas {
  import opened Bytes
  import opened WireFormat
  import opened WireRoundTrip
  import opened WireSerialize

  // ----- Schemas all of whose records make the round trip -----

  /** A type whose values lie in the transfer structure as a whole. */
  predicate Plain(t: Type)
    decreases t, 0, 0
  {
    match t
    case Scalar(_) => true
    case Object => true
    case Struct(s) => PlainTypes(s.values) && s.strings == 0 && s.pointers == []
  }

  predicate PlainTypes(ts: seq<Type>)
    decreases ts, 0, 0
  {
    ts != [] ==> Plain(ts[0]) && PlainTypes(ts[1..])
  }

  /** Members passed by value are plain, and so is what pointers point to, except that the last
      pointer may point to one structure of a supported shape. */
  predicate Shaped(s: Schema)
    decreases s, 0, 0
  {
    PlainTypes(s.values) && ShapedPointers(s.pointers)
  }

  predicate ShapedPointers(ps: seq<Pointer>)
    decreases ps, 0, 0
  {
    ps != [] ==> ShapedPointers(ps[1..]) && (Plain(ps[0].elem) || (|ps| == 1 && ShapedPointer(ps[0])))
  }

  predicate ShapedPointer(p: Pointer)
    decreases p, 0, 0
  {
    p.length == Constant(1) && p.elem.Struct? && Shaped(p.elem.schema)
  }

  lemma {:induction false} PlainHasNoExtra(t: Type, v: Value)
    requires Plain(t) && FitsType(t, v)
    ensures Extra(t, v) == []
    decreases t, 0, 0
  {
    if t.Struct? {
      assert FitsSchema(t.schema, v.record);
      PlainTypesHaveNoExtra(t.schema.values, v.record.values);
      assert Extra(t, v) == RecordExtra(t.schema, v.record) == [] + [] + [];
    }
  }

  lemma {:induction false} PlainTypesHaveNoExtra(ts: seq<Type>, vs: seq<Value>)
    requires PlainTypes(ts) && FitsTypes(ts, vs)
    ensures ValuesExtra(ts, vs) == []
    decreases ts, 0, 0
  {
    if ts != [] {
      PlainHasNoExtra(ts[0], vs[0]);
      PlainTypesHaveNoExtra(ts[1..], vs[1..]);
    }
  }

  lemma {:induction false} PlainElements(t: Type, vs: seq<Value>)
    requires Plain(t) && FitsElements(t, vs)
    ensures ElementsExtra(t, vs) == [] && SupportedElements(t, vs)
  {
    if vs != [] {
      PlainHasNoExtra(t, vs[0]);
      PlainValue(t, vs[0]);
      PlainElements(t, vs[1..]);
    }
  }

  lemma {:induction false} ShapedPointersSupported(ps: seq<Pointer>, arrays: seq<Array>, values: seq<Value>)
    requires ShapedPointers(ps) && FitsPointers(ps, arrays, values)
    ensures SupportedPointers(ps, arrays, values)
    decreases ps, 0, 0
  {
    if ps != [] {
      ShapedPointersSupported(ps[1..], arrays[1..], values);
      if Plain(ps[0].elem) {
        PlainElements(ps[0].elem, arrays[0].elements);
      } else {
        ShapedPointerSupported(ps[0], arrays[0].elements, values);
      }
    }
  }

  lemma {:induction false} ShapedPointerSupported(p: Pointer, elements: seq<Value>, values: seq<Value>)
    requires ShapedPointer(p) && FitsPointer(p, elements, values)
    ensures SupportedPointer(p, elements, values, true)
    decreases p, 0, 0
  {
    assert FitsElements(p.elem, elements) && FitsType(p.elem, elements[0]);
    assert elements[1..] == [];
    ShapedIsSupported(p.elem.schema, elements[0].record);
  }

  /** Every record of a schema of this shape is written and read back. */
  lemma {:induction false} ShapedIsSupported(s: Schema, r: Record)
    requires Shaped(s) && FitsSchema(s, r)
    ensures SupportedRecord(s, r)
    decreases s, 0, 0
  {
    PlainTypesHaveNoExtra(s.values, r.values);
    ShapedPointersSupported(s.pointers, r.arrays, r.values);
  }

  // ----- Two structures with strings -----

  /** A command with two structures that hold a string each. */
  const TWO_NAMES: Schema := Schema([], 0, [Pointer(Struct(NAME), Constant(1)), Pointer(Struct(NAME), Constant(1))])

  const NAME: Schema := Schema([], 1, [])

  function Name(chars: seq<byte>): Array { Array([Nested(Record([], [chars], []))]) }

  /** A name behind a pointer: its length, then its characters. */
  lemma NameParts(chars: seq<byte>)
    requires |chars| < Pow256(STRLEN_SIZE)
    ensures var p, elements := Pointer(Struct(NAME), Constant(1)), Name(chars).elements;
            && FitsPointer(p, elements, [])
            && ElementsExtra(p.elem, elements) == chars && |PointerExtra(p, elements, [])| == STRLEN_SIZE + |chars|
            && SupportedElements(p.elem, elements)
  {
    hide Pow256, ToBytes;
    var t, r := Struct(NAME), Record([], [chars], []);
    assert FitsStrings(1, [chars]);
    assert FitsSchema(NAME, r);
    assert Concat([chars]) == chars + Concat([]);
    assert RecordExtra(NAME, r) == chars;
    assert ElementsExtra(t, [Nested(r)]) == Extra(t, Nested(r)) + [];
    assert ElementsSize(t, 1) == STRLEN_SIZE;
  }

  /** The second structure overwrites the string of the first, so such a command makes the round
      trip only if the first string is empty. */
  lemma TwoNamesClash(a: seq<byte>, b: seq<byte>, resolve: Resolver)
    requires |a| < Pow256(STRLEN_SIZE) && |b| < Pow256(STRLEN_SIZE)
    ensures FitsSchema(TWO_NAMES, Record([], [], [Name(a), Name(b)]))
    ensures MakesRoundTrip(TWO_NAMES, Record([], [], [Name(a), Name(b)]), resolve) <==> a == []
  {
    hide Pow256, ToBytes, Name, PointerExtra, ElementsExtra, SupportedElements;
    var p, r := Pointer(Struct(NAME), Constant(1)), Record([], [], [Name(a), Name(b)]);
    NameParts(a);
    NameParts(b);
    assert TWO_NAMES.pointers[1..] == [p] && r.arrays[1..] == [Name(b)];
    LastPointer(p, Name(b), []);
    assert SupportedPointers(TWO_NAMES.pointers, r.arrays, []) <==> a == [];
    NamesKnown(a, b, resolve);
    RoundTripIsExact(TWO_NAMES, r, resolve);
  }

  lemma LastPointer(p: Pointer, pointed: Array, values: seq<Value>)
    requires FitsPointer(p, pointed.elements, values)
    ensures FitsPointers([p], [pointed], values)
    ensures PointersExtra([p], [pointed], values) == PointerExtra(p, pointed.elements, values)
    ensures SupportedPointers([p], [pointed], values) <==> SupportedPointer(p, pointed.elements, values, true)
  {
    assert PointersExtra([], [], values) == [];
  }

  lemma NamesKnown(a: seq<byte>, b: seq<byte>, resolve: Resolver)
    ensures AllKnown(Nested(Record([], [], [Name(a), Name(b)])), resolve)
  {
    forall x: Array | x in [Name(a), Name(b)] ensures AllKnowns(x.elements, resolve) {
      assert x == Name(a) || x == Name(b);
    }
  }
}
