/** Bind group layouts as the cache of the device compares them, src/dawn_native/BindGroupLayout.cpp:
    validation of a descriptor, the info the constructor fills in, hash and equality of infos. */
module LayoutCache {
  import opened Wrappers

  const MAX_BINDINGS: nat := 16

  // ----- Descriptors and binding infos -----

  datatype Binding = Binding(index: nat, visibility: nat, kind: nat)

  type Descriptor = seq<Binding>

  /** The arrays hold anything at indices outside the mask. */
  datatype Info = Info(visibilities: seq<nat>, kinds: seq<nat>, mask: set<nat>)

  predicate WellFormed(info: Info) {
    |info.visibilities| == MAX_BINDINGS && |info.kinds| == MAX_BINDINGS && forall i | i in info.mask :: i < MAX_BINDINGS
  }

  /** `OutOfRange`: an index that passes the check against the maximum but not the bitset. */
  datatype Validation = Valid | Invalid | OutOfRange

  predicate FieldsValid(b: Binding) {
    b.visibility < 8 && b.kind < 4
  }

  /** `ValidateBindGroupLayoutDescriptor` behind the bindings already seen. */
  function Validate(d: Descriptor, seen: set<nat>): Validation {
    if d == [] then Valid
    else if !FieldsValid(d[0]) || d[0].index > MAX_BINDINGS then Invalid
    else if d[0].index == MAX_BINDINGS then OutOfRange
    else if d[0].index in seen then Invalid
    else Validate(d[1..], seen + {d[0].index})
  }

  predicate Accepted(d: Descriptor) {
    && (forall b | b in d :: b.visibility < 8 && b.kind < 4 && b.index < 16)
    && (forall i, j :: 0 <= i < j < |d| ==> d[i].index != d[j].index)
  }

  lemma {:induction false} ValidatesExactly(d: Descriptor, seen: set<nat>)
    ensures Validate(d, seen) == Valid <==> Accepted(d) && forall b | b in d :: b.index !in seen
  {
    if d != [] {
      var b, rest := d[0], d[1..];
      ValidatesExactly(rest, seen + {b.index});
      assert forall x :: x in d <==> x == b || x in rest;
      if Accepted(d) {
        assert forall i :: 0 <= i < |rest| ==> rest[i] == d[i + 1];
        assert forall x | x in rest :: x.index != b.index;
      }
      if Accepted(rest) && FieldsValid(b) && b.index < MAX_BINDINGS && forall x | x in rest :: x.index != b.index {
        forall i, j | 0 <= i < j < |d| ensures d[i].index != d[j].index {
          assert d[j] == rest[j - 1] && d[j] in rest;
          assert i > 0 ==> d[i] == rest[i - 1];
        }
      }
    }
  }

  /** The constructor: each binding goes to its index. */
  function Fill(info: Info, d: Descriptor): (r: Info)
    requires WellFormed(info) && forall b | b in d :: b.index < MAX_BINDINGS
    ensures WellFormed(r)
    decreases |d|
  {
    if d == [] then info
    else
      var b := d[0];
      Fill(Info(info.visibilities[b.index := b.visibility], info.kinds[b.index := b.kind], info.mask + {b.index}), d[1..])
  }

  /** `operator==` on binding infos. */
  predicate SameInfo(a: Info, b: Info)
    requires WellFormed(a) && WellFormed(b)
  {
    a.mask == b.mask && forall i | i in a.mask :: a.visibilities[i] == b.visibilities[i] && a.kinds[i] == b.kinds[i]
  }

  /** The info holds exactly the bindings of the descriptor. */
  predicate Describes(info: Info, d: Descriptor)
    requires WellFormed(info) && forall b | b in d :: b.index < MAX_BINDINGS
  {
    && info.mask == (set b | b in d :: b.index)
    && forall b | b in d :: info.visibilities[b.index] == b.visibility && info.kinds[b.index] == b.kind
  }

  lemma {:induction false} FillDescribes(info: Info, before: Descriptor, d: Descriptor)
    requires Accepted(before + d) && WellFormed(info) && Describes(info, before)
    ensures forall b | b in d :: b in before + d && b.index < MAX_BINDINGS
    ensures Describes(Fill(info, d), before + d)
    decreases |d|
  {
    if d == [] {
      assert before + d == before;
    } else {
      var b := d[0];
      var info' := Info(info.visibilities[b.index := b.visibility], info.kinds[b.index := b.kind], info.mask + {b.index});
      assert before + d == before + [b] + d[1..];
      assert forall x :: x in before + [b] <==> x in before || x == b;
      forall x | x in before ensures x.index != b.index {
        var i :| 0 <= i < |before| && before[i] == x;
        assert (before + d)[i] == x && (before + d)[|before|] == b;
      }
      FillDescribes(info', before + [b], d[1..]);
    }
  }

  predicate SameBindings(d: Descriptor, e: Descriptor) {
    (forall x | x in d :: x in e) && (forall x | x in e :: x in d)
  }

  lemma SameBinding(a: Info, d: Descriptor, b: Info, e: Descriptor, x: Binding)
    requires WellFormed(a) && WellFormed(b) && Accepted(d) && Accepted(e) && Describes(a, d) && Describes(b, e)
    requires SameInfo(a, b) && x in d
    ensures x in e
  {
    assert x.index in b.mask;
    var y :| y in e && y.index == x.index;
    assert y == x;
  }

  lemma SameInfoIsSameBindings(a: Info, d: Descriptor, b: Info, e: Descriptor)
    requires WellFormed(a) && WellFormed(b) && Accepted(d) && Accepted(e) && Describes(a, d) && Describes(b, e)
    ensures SameInfo(a, b) <==> SameBindings(d, e)
  {
    if SameInfo(a, b) {
      forall x | x in d ensures x in e {
        SameBinding(a, d, b, e, x);
      }
      forall x | x in e ensures x in d {
        SameBinding(b, e, a, d, x);
      }
    }
  }

  lemma {:induction false} NoRepeats(d: Descriptor, x: Binding)
    requires forall i, j :: 0 <= i < j < |d| ==> d[i].index != d[j].index
    ensures multiset(d)[x] == if x in d then 1 else 0
  {
    if d != [] {
      assert d == [d[0]] + d[1..];
      NoRepeats(d[1..], x);
    }
  }

  lemma SameBindingsIsPermutation(d: Descriptor, e: Descriptor)
    requires Accepted(d) && Accepted(e)
    ensures SameBindings(d, e) <==> multiset(d) == multiset(e)
  {
    if SameBindings(d, e) {
      forall x ensures multiset(d)[x] == multiset(e)[x] {
        NoRepeats(d, x);
        NoRepeats(e, x);
      }
    }
    if multiset(d) == multiset(e) {
      forall x: Binding ensures x in d <==> x in e {
        assert (x in d <==> x in multiset(d)) && (x in e <==> x in multiset(e));
      }
    }
  }

  /** Two infos are the same exactly when they come from the same bindings, in any order. */
  lemma SameInfoExactly(a: Info, d: Descriptor, b: Info, e: Descriptor)
    requires WellFormed(a) && WellFormed(b) && Accepted(d) && Accepted(e) && Describes(a, d) && Describes(b, e)
    ensures SameInfo(a, b) <==> multiset(d) == multiset(e)
  {
    SameInfoIsSameBindings(a, d, b, e);
    SameBindingsIsPermutation(d, e);
  }

  // ----- Hashing -----

  /** `std::hash` of a mask and of the two kinds of values. */
  datatype Hasher = Hasher(mask: set<nat> -> bv64, visibility: nat -> bv64, kind: nat -> bv64)

  function HashCombine(hash: bv64, value: bv64): bv64 {
    hash ^ (value + 0x9e3779b97f4a7c16 + (hash << 6) + (hash >> 2))
  }

  /** The bindings of the mask from `i` on, in order. */
  function HashFrom(h: Hasher, info: Info, i: nat, hash: bv64): bv64
    requires WellFormed(info) && i <= MAX_BINDINGS
    decreases MAX_BINDINGS - i
  {
    if i == MAX_BINDINGS then hash
    else if i in info.mask then
      HashFrom(h, info, i + 1, HashCombine(HashCombine(hash, h.visibility(info.visibilities[i])), h.kind(info.kinds[i])))
    else HashFrom(h, info, i + 1, hash)
  }

  function HashInfo(h: Hasher, info: Info): bv64
    requires WellFormed(info)
  {
    HashFrom(h, info, 0, h.mask(info.mask))
  }

  lemma {:induction false} EqualHashFrom(h: Hasher, a: Info, b: Info, i: nat, hash: bv64)
    requires WellFormed(a) && WellFormed(b) && SameInfo(a, b) && i <= MAX_BINDINGS
    ensures HashFrom(h, a, i, hash) == HashFrom(h, b, i, hash)
    decreases MAX_BINDINGS - i
  {
    hide HashCombine;
    if i < MAX_BINDINGS {
      if i in a.mask {
        EqualHashFrom(h, a, b, i + 1, HashCombine(HashCombine(hash, h.visibility(a.visibilities[i])), h.kind(a.kinds[i])));
      } else {
        EqualHashFrom(h, a, b, i + 1, hash);
      }
    }
  }

  /** Equal infos hash equally, whatever lies outside their masks. */
  lemma EqualHash(h: Hasher, a: Info, b: Info)
    requires WellFormed(a) && WellFormed(b) && SameInfo(a, b)
    ensures HashInfo(h, a) == HashInfo(h, b)
  {
    EqualHashFrom(h, a, b, 0, h.mask(a.mask));
  }
}
