/** Decoding of a layout that names objects the server does not know or knows to be invalid: where it
    stops, and what it leaves in the stream. */
module WireErrors {
  import opened Bytes
  import opened WireFormat
  import opened WireRoundTrip

  /** What decoding comes across, in order: an id to resolve, or bytes to take from behind the transfer
      structure. */
  datatype Token = Id(id: nat) | Taken(bytes: seq<byte>)

  function ValueTokens(t: Type, v: Value): seq<Token>
    requires FitsType(t, v)
    decreases t, 0, 0
  {
    match t
    case Scalar(_) => []
    case Object => [Id(v.id)]
    case Struct(s) => RecordTokens(s, v.record)
  }

  function ValuesTokens(ts: seq<Type>, vs: seq<Value>): seq<Token>
    requires FitsTypes(ts, vs)
    decreases ts, 0, 0
  {
    if ts == [] then [] else ValueTokens(ts[0], vs[0]) + ValuesTokens(ts[1..], vs[1..])
  }

  function StringTokens(strings: seq<seq<byte>>): seq<Token> {
    if strings == [] then [] else [Taken(strings[0])] + StringTokens(strings[1..])
  }

  function ElementsTokens(t: Type, vs: seq<Value>): seq<Token>
    requires FitsElements(t, vs)
    decreases t, 1, |vs|
  {
    if vs == [] then [] else ValueTokens(t, vs[0]) + ElementsTokens(t, vs[1..])
  }

  /** All elements are taken first. */
  function PointerTokens(p: Pointer, elements: seq<Value>, values: seq<Value>): seq<Token>
    requires FitsPointer(p, elements, values)
    decreases p, 0, 0
  {
    [Taken(ElementsTransfer(p.elem, elements))] + ElementsTokens(p.elem, elements)
  }

  function PointersTokens(ps: seq<Pointer>, arrays: seq<Array>, values: seq<Value>): seq<Token>
    requires FitsPointers(ps, arrays, values)
    decreases ps, 0, 0
  {
    if ps == [] then []
    else PointerTokens(ps[0], arrays[0].elements, values) + PointersTokens(ps[1..], arrays[1..], values)
  }

  function RecordTokens(s: Schema, r: Record): seq<Token>
    requires FitsSchema(s, r)
    decreases s, 0, 0
  {
    ValuesTokens(s.values, r.values) + StringTokens(r.strings) + PointersTokens(s.pointers, r.arrays, r.values)
  }

  // ----- What decoding makes of them -----

  function BytesIn(tokens: seq<Token>): seq<byte> {
    if tokens == [] then []
    else (if tokens[0].Taken? then tokens[0].bytes else []) + BytesIn(tokens[1..])
  }

  /** Decoding ends at the first id that is not of a valid object; what has not been taken by then is
      left. */
  function Outcome<T>(tokens: seq<Token>, value: T, rest: seq<byte>, resolve: Resolver): Decoded<T>
    decreases |tokens|
  {
    if tokens == [] then Ok(value, rest)
    else if tokens[0].Taken? || resolve(tokens[0].id) == Known then Outcome(tokens[1..], value, rest, resolve)
    else if resolve(tokens[0].id) == Unknown then Fatal
    else ErrorObject(BytesIn(tokens[1..]) + rest)
  }

  lemma {:induction false} BytesJoin(a: seq<Token>, b: seq<Token>)
    ensures BytesIn(a + b) == BytesIn(a) + BytesIn(b)
  {
    if a == [] {
      assert a + b == b;
    } else {
      assert (a + b)[0] == a[0] && (a + b)[1..] == a[1..] + b;
      BytesJoin(a[1..], b);
      Assoc(if a[0].Taken? then a[0].bytes else [], BytesIn(a[1..]), BytesIn(b));
    }
  }

  /** One part after another. */
  lemma {:induction false} OutcomeJoin<S, T>(a: seq<Token>, b: seq<Token>, first: S, value: T, rest: seq<byte>, resolve: Resolver)
    ensures Outcome(a + b, value, rest, resolve)
            == match Outcome(a, first, BytesIn(b) + rest, resolve)
               case Ok(_, _) => Outcome(b, value, rest, resolve)
               case Fatal => Fatal
               case ErrorObject(left) => ErrorObject(left)
    ensures Outcome(a, first, BytesIn(b) + rest, resolve).Ok? ==>
              Outcome(a, first, BytesIn(b) + rest, resolve) == Ok(first, BytesIn(b) + rest)
    decreases |a|
  {
    if a == [] {
      assert a + b == b;
    } else {
      assert (a + b)[0] == a[0] && (a + b)[1..] == a[1..] + b;
      OutcomeJoin(a[1..], b, first, value, rest, resolve);
      BytesJoin(a[1..], b);
      Assoc(BytesIn(a[1..]), BytesIn(b), rest);
    }
  }

  /** The value does not matter to where decoding ends. */
  lemma {:induction false} SameEnd<S, T>(tokens: seq<Token>, first: S, value: T, rest: seq<byte>, resolve: Resolver)
    ensures Outcome(tokens, value, rest, resolve)
            == match Outcome(tokens, first, rest, resolve)
               case Ok(_, left) => Ok(value, left)
               case Fatal => Fatal
               case ErrorObject(left) => ErrorObject(left)
    decreases |tokens|
  {
    if tokens != [] {
      SameEnd(tokens[1..], first, value, rest, resolve);
    }
  }

  // ----- The bytes of the tokens are the extra bytes -----

  lemma {:induction false} ValueBytes(t: Type, v: Value)
    requires FitsType(t, v)
    ensures BytesIn(ValueTokens(t, v)) == Extra(t, v)
    decreases t, 0, 0
  {
    if t.Struct? {
      RecordBytes(t.schema, v.record);
    }
  }

  lemma {:induction false} ValuesBytes(ts: seq<Type>, vs: seq<Value>)
    requires FitsTypes(ts, vs)
    ensures BytesIn(ValuesTokens(ts, vs)) == ValuesExtra(ts, vs)
    decreases ts, 0, 0
  {
    if ts != [] {
      ValueBytes(ts[0], vs[0]);
      ValuesBytes(ts[1..], vs[1..]);
      BytesJoin(ValueTokens(ts[0], vs[0]), ValuesTokens(ts[1..], vs[1..]));
    }
  }

  lemma {:induction false} StringBytes(strings: seq<seq<byte>>)
    ensures BytesIn(StringTokens(strings)) == Concat(strings)
  {
    if strings != [] {
      StringBytes(strings[1..]);
      assert ([Taken(strings[0])] + StringTokens(strings[1..]))[1..] == StringTokens(strings[1..]);
    }
  }

  lemma {:induction false} ElementsBytes(t: Type, vs: seq<Value>)
    requires FitsElements(t, vs)
    ensures BytesIn(ElementsTokens(t, vs)) == ElementsExtra(t, vs)
    decreases t, 1, |vs|
  {
    if vs != [] {
      ValueBytes(t, vs[0]);
      ElementsBytes(t, vs[1..]);
      BytesJoin(ValueTokens(t, vs[0]), ElementsTokens(t, vs[1..]));
    }
  }

  lemma {:induction false} PointerBytes(p: Pointer, elements: seq<Value>, values: seq<Value>)
    requires FitsPointer(p, elements, values)
    ensures BytesIn(PointerTokens(p, elements, values)) == PointerExtra(p, elements, values)
    decreases p, 0, 0
  {
    ElementsBytes(p.elem, elements);
    assert PointerTokens(p, elements, values)[1..] == ElementsTokens(p.elem, elements);
  }

  lemma {:induction false} PointersBytes(ps: seq<Pointer>, arrays: seq<Array>, values: seq<Value>)
    requires FitsPointers(ps, arrays, values)
    ensures BytesIn(PointersTokens(ps, arrays, values)) == PointersExtra(ps, arrays, values)
    decreases ps, 0, 0
  {
    if ps != [] {
      PointerBytes(ps[0], arrays[0].elements, values);
      PointersBytes(ps[1..], arrays[1..], values);
      BytesJoin(PointerTokens(ps[0], arrays[0].elements, values), PointersTokens(ps[1..], arrays[1..], values));
    }
  }

  lemma {:induction false} RecordBytes(s: Schema, r: Record)
    requires FitsSchema(s, r)
    ensures BytesIn(RecordTokens(s, r)) == RecordExtra(s, r)
    decreases s, 0, 0
  {
    ValuesBytes(s.values, r.values);
    StringBytes(r.strings);
    PointersBytes(s.pointers, r.arrays, r.values);
    BytesJoin(ValuesTokens(s.values, r.values) + StringTokens(r.strings), PointersTokens(s.pointers, r.arrays, r.values));
    BytesJoin(ValuesTokens(s.values, r.values), StringTokens(r.strings));
  }

  // ----- Decoding a layout, whatever its ids resolve to -----

  lemma {:induction false} ValueOutcome(t: Type, v: Value, rest: seq<byte>, resolve: Resolver)
    requires FitsType(t, v)
    ensures DecodeValue(t, Transfer(t, v), Extra(t, v) + rest, resolve) == Outcome(ValueTokens(t, v), v, rest, resolve)
    decreases t, 0, 0
  {
    match t
    case Scalar(w) =>
      BytesOfNumber(w, v.n);
      assert [] + rest == rest;
    case Object =>
      BytesOfNumber(OBJECT_ID_SIZE, v.id);
      assert [] + rest == rest && [Id(v.id)][1..] == [];
      assert BytesIn([]) + rest == rest;
    case Struct(s) =>
      RecordOutcome(s, v.record, rest, resolve);
      SameEnd(RecordTokens(s, v.record), v.record, v, rest, resolve);
      EndsOk(RecordTokens(s, v.record), v.record, rest, resolve);
  }

  lemma {:induction false} ValuesOutcome(ts: seq<Type>, vs: seq<Value>, rest: seq<byte>, resolve: Resolver)
    requires FitsTypes(ts, vs)
    ensures DecodeValues(ts, ValuesTransfer(ts, vs), ValuesExtra(ts, vs) + rest, resolve) == Outcome(ValuesTokens(ts, vs), vs, rest, resolve)
    decreases ts, 0, 0
  {
    if ts == [] {
      assert [] + rest == rest && vs == [];
    } else {
      var others := ValuesTokens(ts[1..], vs[1..]);
      var rest' := ValuesExtra(ts[1..], vs[1..]) + rest;
      Cut(Transfer(ts[0], vs[0]), ValuesTransfer(ts[1..], vs[1..]));
      Assoc(Extra(ts[0], vs[0]), ValuesExtra(ts[1..], vs[1..]), rest);
      ValuesBytes(ts[1..], vs[1..]);
      ValueOutcome(ts[0], vs[0], rest', resolve);
      ValuesOutcome(ts[1..], vs[1..], rest, resolve);
      OutcomeJoin(ValueTokens(ts[0], vs[0]), others, vs[0], vs, rest, resolve);
      SameEnd(others, vs[1..], vs, rest, resolve);
      EndsOk(others, vs[1..], rest, resolve);
      assert [vs[0]] + vs[1..] == vs;
    }
  }

  lemma {:induction false} EndsOk<T>(tokens: seq<Token>, value: T, rest: seq<byte>, resolve: Resolver)
    ensures Outcome(tokens, value, rest, resolve).Ok? ==> Outcome(tokens, value, rest, resolve) == Ok(value, rest)
    decreases |tokens|
  {
    if tokens != [] {
      EndsOk(tokens[1..], value, rest, resolve);
    }
  }

  lemma {:induction false} StringOutcome<T>(strings: seq<seq<byte>>, value: T, rest: seq<byte>, resolve: Resolver)
    ensures Outcome(StringTokens(strings), value, rest, resolve) == Ok(value, rest)
  {
    if strings != [] {
      assert StringTokens(strings)[1..] == StringTokens(strings[1..]);
      StringOutcome(strings[1..], value, rest, resolve);
    }
  }

  lemma {:induction false} ElementsOutcome(t: Type, vs: seq<Value>, rest: seq<byte>, resolve: Resolver)
    requires FitsElements(t, vs)
    ensures DecodeElements(t, |vs|, ElementsTransfer(t, vs), ElementsExtra(t, vs) + rest, resolve)
            == Outcome(ElementsTokens(t, vs), vs, rest, resolve)
    decreases t, 1, |vs|
  {
    if vs == [] {
      assert [] + rest == rest;
    } else {
      var others := ElementsTokens(t, vs[1..]);
      var rest' := ElementsExtra(t, vs[1..]) + rest;
      Cut(Transfer(t, vs[0]), ElementsTransfer(t, vs[1..]));
      Assoc(Extra(t, vs[0]), ElementsExtra(t, vs[1..]), rest);
      ElementsBytes(t, vs[1..]);
      ValueOutcome(t, vs[0], rest', resolve);
      ElementsOutcome(t, vs[1..], rest, resolve);
      OutcomeJoin(ValueTokens(t, vs[0]), others, vs[0], vs, rest, resolve);
      SameEnd(others, vs[1..], vs, rest, resolve);
      EndsOk(others, vs[1..], rest, resolve);
      assert [vs[0]] + vs[1..] == vs;
    }
  }

  lemma {:induction false} PointerOutcome(p: Pointer, elements: seq<Value>, values: seq<Value>, rest: seq<byte>, resolve: Resolver)
    requires FitsPointer(p, elements, values)
    ensures DecodePointer(p, values, PointerExtra(p, elements, values) + rest, resolve)
            == Outcome(PointerTokens(p, elements, values), elements, rest, resolve)
    decreases p, 0, 0
  {
    var transfer := ElementsTransfer(p.elem, elements);
    Assoc(transfer, ElementsExtra(p.elem, elements), rest);
    Cut(transfer, ElementsExtra(p.elem, elements) + rest);
    ElementsOutcome(p.elem, elements, rest, resolve);
    assert PointerTokens(p, elements, values)[1..] == ElementsTokens(p.elem, elements);
  }

  lemma {:induction false} PointersOutcome(ps: seq<Pointer>, arrays: seq<Array>, values: seq<Value>, rest: seq<byte>, resolve: Resolver)
    requires FitsPointers(ps, arrays, values)
    ensures DecodePointers(ps, values, PointersExtra(ps, arrays, values) + rest, resolve)
            == Outcome(PointersTokens(ps, arrays, values), arrays, rest, resolve)
    decreases ps, 0, 0
  {
    if ps == [] {
      assert [] + rest == rest;
    } else {
      var elements, others := arrays[0].elements, PointersTokens(ps[1..], arrays[1..], values);
      var rest' := PointersExtra(ps[1..], arrays[1..], values) + rest;
      Assoc(PointerExtra(ps[0], elements, values), PointersExtra(ps[1..], arrays[1..], values), rest);
      PointersBytes(ps[1..], arrays[1..], values);
      PointerOutcome(ps[0], elements, values, rest', resolve);
      PointersOutcome(ps[1..], arrays[1..], values, rest, resolve);
      OutcomeJoin(PointerTokens(ps[0], elements, values), others, elements, arrays, rest, resolve);
      SameEnd(others, arrays[1..], arrays, rest, resolve);
      EndsOk(others, arrays[1..], rest, resolve);
      assert [Array(elements)] + arrays[1..] == arrays;
    }
  }

  lemma {:induction false} RecordOutcome(s: Schema, r: Record, rest: seq<byte>, resolve: Resolver)
    requires FitsSchema(s, r)
    ensures DecodeRecord(s, Transfer(Struct(s), Nested(r)), RecordExtra(s, r) + rest, resolve) == Outcome(RecordTokens(s, r), r, rest, resolve)
    decreases s, 0, 0
  {
    var first, middle, last := ValuesTokens(s.values, r.values), StringTokens(r.strings), PointersTokens(s.pointers, r.arrays, r.values);
    var rest2 := PointersExtra(s.pointers, r.arrays, r.values) + rest;
    var rest1 := Concat(r.strings) + rest2;
    Cut(ValuesTransfer(s.values, r.values), StringLengths(s.strings, r.strings));
    assert RecordExtra(s, r) + rest == ValuesExtra(s.values, r.values) + rest1;
    ValuesOutcome(s.values, r.values, rest1, resolve);
    DecodesStrings(s.strings, r.strings, rest2);
    PointersOutcome(s.pointers, r.arrays, r.values, rest, resolve);
    StringBytes(r.strings);
    PointersBytes(s.pointers, r.arrays, r.values);
    BytesJoin(middle, last);
    Assoc(Concat(r.strings), PointersExtra(s.pointers, r.arrays, r.values), rest);
    assert first + middle + last == first + (middle + last);
    OutcomeJoin(first, middle + last, r.values, r, rest, resolve);
    OutcomeJoin(middle, last, r.strings, r, rest, resolve);
    StringOutcome(r.strings, r.strings, BytesIn(last) + rest, resolve);
    SameEnd(last, r.arrays, r, rest, resolve);
    EndsOk(last, r.arrays, rest, resolve);
  }

  /** Decoding the layout of any record of a schema, followed by anything. */
  lemma DecodingEnds(s: Schema, r: Record, suffix: seq<byte>, resolve: Resolver)
    requires FitsSchema(s, r)
    ensures Deserialize(s, Layout(s, r) + suffix, resolve) == Outcome(RecordTokens(s, r), r, suffix, resolve)
  {
    var transfer := Transfer(Struct(s), Nested(r));
    Assoc(transfer, RecordExtra(s, r), suffix);
    Cut(transfer, RecordExtra(s, r) + suffix);
    RecordOutcome(s, r, suffix, resolve);
  }

  // ----- Framing after an error -----

  /** The id at `i` is the first that is not of a valid object, and it is of an invalid one. */
  predicate FirstError(tokens: seq<Token>, i: nat, resolve: Resolver) {
    && i < |tokens| && tokens[i].Id? && resolve(tokens[i].id) == ErrorValue
    && forall j :: 0 <= j < i && tokens[j].Id? ==> resolve(tokens[j].id) == Known
  }

  lemma {:induction false} ErrorAt<T>(tokens: seq<Token>, i: nat, value: T, rest: seq<byte>, resolve: Resolver)
    requires FirstError(tokens, i, resolve)
    ensures Outcome(tokens, value, rest, resolve) == ErrorObject(BytesIn(tokens[i + 1..]) + rest)
    decreases |tokens|
  {
    if i > 0 {
      assert forall j :: 0 <= j < i - 1 ==> tokens[1..][j] == tokens[j + 1];
      ErrorAt(tokens[1..], i - 1, value, rest, resolve);
      assert tokens[1..][i..] == tokens[i + 1..];
    }
  }

  /** Wherever in the command the first invalid object is named: decoding stops there, and the next
      command is found in the right place exactly when nothing is taken from the stream behind it. */
  lemma ErrorFraming(s: Schema, r: Record, i: nat, suffix: seq<byte>, resolve: Resolver)
    requires FitsSchema(s, r) && FirstError(RecordTokens(s, r), i, resolve)
    ensures var left := BytesIn(RecordTokens(s, r)[i + 1..]);
            && Deserialize(s, Layout(s, r) + suffix, resolve) == ErrorObject(left + suffix)
            && (Deserialize(s, Layout(s, r) + suffix, resolve) == ErrorObject(suffix) <==> left == [])
  {
    var left := BytesIn(RecordTokens(s, r)[i + 1..]);
    DecodingEnds(s, r, suffix, resolve);
    ErrorAt(RecordTokens(s, r), i, r, suffix, resolve);
    assert |left + suffix| == |suffix| ==> left == [];
    assert [] + suffix == suffix;
  }

  predicate ErrorSelf(vs: seq<Value>, resolve: Resolver) {
    |vs| >= 2 && vs[1].ObjectRef? && resolve(vs[1].id) == ErrorValue
  }

  /** So for a command on an invalid object, whose id comes before everything else, exactly when it has
      no extra data. */
  lemma ErrorSelfFraming(s: Schema, r: Record, suffix: seq<byte>, resolve: Resolver)
    requires FitsSchema(s, r) && |s.values| >= 2 && s.values[0].Scalar? && s.values[1].Object?
    requires ErrorSelf(r.values, resolve)
    ensures Deserialize(s, Layout(s, r) + suffix, resolve) == ErrorObject(RecordExtra(s, r) + suffix)
    ensures Deserialize(s, Layout(s, r) + suffix, resolve) == ErrorObject(suffix) <==> RecordExtra(s, r) == []
  {
    var tokens := RecordTokens(s, r);
    SelfFirst(s, r);
    ErrorFraming(s, r, 0, suffix, resolve);
    RecordBytes(s, r);
    assert [] + BytesIn(tokens[1..]) == BytesIn(tokens[1..]);
  }

  lemma SelfFirst(s: Schema, r: Record)
    requires FitsSchema(s, r) && |s.values| >= 2 && s.values[0].Scalar? && s.values[1].Object?
    requires |r.values| >= 2 && r.values[1].ObjectRef?
    ensures RecordTokens(s, r) != [] && RecordTokens(s, r)[0] == Id(r.values[1].id)
  {
    var ts, vs := s.values[1..], r.values[1..];
    assert FitsTypes(ts, vs) && ts[0] == Object && vs[0] == r.values[1];
    assert ValuesTokens(ts, vs) == [Id(r.values[1].id)] + ValuesTokens(ts[1..], vs[1..]);
    assert ValuesTokens(s.values, r.values) == [] + ValuesTokens(ts, vs);
  }
}
