/** The classes behind layouts: the two counters of `RefCounted`, and the loops over bindings. */
module LayoutObjects {
  import opened LayoutCache
  import opened LayoutHeap

  class RefCounted {
    var externalRefs: nat
    var internalRefs: nat

    /** Set where the source deletes the object. */
    var deleted: bool

    function Value(): Counts
      reads this
    {
      Counts(externalRefs, internalRefs)
    }

    /** External references count as one internal reference. */
    predicate Valid()
      reads this
    {
      (deleted <==> internalRefs == 0) && (externalRefs > 0 ==> internalRefs > 0)
    }

    constructor ()
      ensures Valid() && !deleted && Value() == Counts(1, 1)
    {
      externalRefs := 1;
      internalRefs := 1;
      deleted := false;
    }

    method ReferenceInternal()
      requires Valid() && !deleted
      modifies this
      ensures Valid() && !deleted && Value() == old(Value()).(internals := old(internalRefs) + 1)
    {
      internalRefs := internalRefs + 1;
    }

    /** The last internal reference is not an external one. */
    method ReleaseInternal()
      requires Valid() && !deleted && (internalRefs == 1 ==> externalRefs == 0)
      modifies this
      ensures Valid() && Value() == old(Value()).(internals := old(internalRefs) - 1) && deleted == (old(internalRefs) == 1)
    {
      internalRefs := internalRefs - 1;
      if internalRefs == 0 {
        deleted := true;
      }
    }

    method Reference()
      requires Valid() && !deleted
      modifies this
      ensures Valid() && !deleted && Value() == LayoutHeap.Reference(old(Value()))
    {
      if externalRefs == 0 {
        ReferenceInternal();
      }
      externalRefs := externalRefs + 1;
    }

    method Release()
      requires Valid() && !deleted && externalRefs > 0
      modifies this
      ensures Valid() && Value() == LayoutHeap.Release(old(Value())) && deleted == (Value().internals == 0)
    {
      externalRefs := externalRefs - 1;
      if externalRefs == 0 {
        ReleaseInternal();
      }
    }
  }

  class BindGroupLayoutBase {
    const visibilities: array<nat>
    const kinds: array<nat>
    var mask: set<nat>

    predicate Valid()
      reads this, visibilities, kinds
    {
      visibilities != kinds && WellFormed(GetBindingInfo())
    }

    function GetBindingInfo(): Info
      reads this, visibilities, kinds
    {
      Info(visibilities[..], kinds[..], mask)
    }

    /** The arrays are not initialized; bindings are stored one after the other. */
    constructor (descriptor: Descriptor)
      requires Accepted(descriptor)
      ensures Valid() && Describes(GetBindingInfo(), descriptor)
    {
      var a, b := new nat[MAX_BINDINGS], new nat[MAX_BINDINGS];
      visibilities, kinds, mask := a, b, {};
      new;
      ghost var garbage := GetBindingInfo();
      var i := 0;
      while i < |descriptor|
        invariant i <= |descriptor| && fresh(visibilities) && fresh(kinds) && visibilities != kinds
        invariant WellFormed(GetBindingInfo()) && WellFormed(garbage) && garbage.mask == {}
        invariant Fill(GetBindingInfo(), descriptor[i..]) == Fill(garbage, descriptor)
      {
        var binding := descriptor[i];
        assert descriptor[i..][1..] == descriptor[i + 1..];
        ghost var before := GetBindingInfo();
        visibilities[binding.index] := binding.visibility;
        kinds[binding.index] := binding.kind;
        mask := mask + {binding.index};
        assert GetBindingInfo() == Info(before.visibilities[binding.index := binding.visibility],
                                        before.kinds[binding.index := binding.kind], before.mask + {binding.index});
        i := i + 1;
      }
      assert [] + descriptor == descriptor;
      FillDescribes(garbage, [], descriptor);
    }
  }

  /** What the loop does for one index. */
  function HashStep(h: Hasher, info: Info, i: nat, hash: bv64): (r: bv64)
    requires WellFormed(info) && i < MAX_BINDINGS
    ensures HashFrom(h, info, i, hash) == HashFrom(h, info, i + 1, r)
  {
    hide HashCombine;
    if i in info.mask then HashCombine(HashCombine(hash, h.visibility(info.visibilities[i])), h.kind(info.kinds[i]))
    else hash
  }

  lemma EndsOfHash(h: Hasher, info: Info, first: nat, last: nat, hash: bv64)
    requires WellFormed(info) && first == 0 && last == MAX_BINDINGS
    ensures HashFrom(h, info, first, h.mask(info.mask)) == HashInfo(h, info) && HashFrom(h, info, last, hash) == hash
  {
  }

  /** `HashBindingInfo`: the loop over the mask. */
  method HashBindingInfo(h: Hasher, info: Info) returns (hash: bv64)
    requires WellFormed(info)
    ensures hash == HashInfo(h, info)
  {
    hide HashStep, HashInfo, HashFrom;
    hash := h.mask(info.mask);
    var i := 0;
    EndsOfHash(h, info, i, MAX_BINDINGS, hash);
    while i < MAX_BINDINGS
      invariant i <= MAX_BINDINGS && HashFrom(h, info, i, hash) == HashInfo(h, info)
    {
      hash := HashStep(h, info, i, hash);
      i := i + 1;
    }
    EndsOfHash(h, info, 0, i, hash);
  }

  /** `operator==`: the loop over the mask. */
  method EqualInfos(a: Info, b: Info) returns (equal: bool)
    requires WellFormed(a) && WellFormed(b)
    ensures equal == SameInfo(a, b)
  {
    if a.mask != b.mask {
      return false;
    }
    var i := 0;
    while i < MAX_BINDINGS
      invariant i <= MAX_BINDINGS
      invariant forall j | j in a.mask && j < i :: a.visibilities[j] == b.visibilities[j] && a.kinds[j] == b.kinds[j]
    {
      if i in a.mask && (a.visibilities[i] != b.visibilities[i] || a.kinds[i] != b.kinds[i]) {
        return false;
      }
      i := i + 1;
    }
    equal := true;
  }
}
