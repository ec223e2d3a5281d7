/** Tracking of how resources are used in a pass, `PassResourceUsageTracker` of
    src/dawn_native/CommandBuffer.cpp. Resources are numbered by address; a usage mask is the set of
    its bits. */
module PassUsage {
  import opened Wrappers

  datatype BufferBit = MapRead | MapWrite | BufferTransferSrc | BufferTransferDst | Index | Vertex | Uniform | BufferStorage

  datatype TextureBit = TextureTransferSrc | TextureTransferDst | Sampled | TextureStorage | OutputAttachment | Present

  const READ_ONLY: set<BufferBit> := {MapRead, BufferTransferSrc, Index, Vertex, Uniform}

  datatype PassType = Render | Compute

  /** The usages resources were created with. */
  datatype Created = Created(bufferUsage: nat -> set<BufferBit>, textureUsage: nat -> set<TextureBit>)

  datatype Use = BufferUsedAs(buffer: nat, bufferBit: BufferBit) | TextureUsedAs(texture: nat, textureBit: TextureBit)

  datatype Tracker = Tracker(buffers: map<nat, set<BufferBit>>, textures: map<nat, set<TextureBit>>, storageTwice: bool)

  const EMPTY: Tracker := Tracker(map[], map[], false)

  // ----- Tracking -----

  function BufferMask(t: Tracker, buffer: nat): set<BufferBit> {
    if buffer in t.buffers then t.buffers[buffer] else {}
  }

  function TextureMask(t: Tracker, texture: nat): set<TextureBit> {
    if texture in t.textures then t.textures[texture] else {}
  }

  function Track(t: Tracker, use: Use): Tracker {
    match use
    case BufferUsedAs(b, bit) =>
      Tracker(t.buffers[b := BufferMask(t, b) + {bit}], t.textures,
              t.storageTwice || (bit == BufferStorage && BufferStorage in BufferMask(t, b)))
    case TextureUsedAs(x, bit) =>
      Tracker(t.buffers, t.textures[x := TextureMask(t, x) + {bit}],
              t.storageTwice || (bit == TextureStorage && TextureStorage in TextureMask(t, x)))
  }

  function TrackAll(t: Tracker, uses: seq<Use>): Tracker
    decreases |uses|
  {
    if uses == [] then t else TrackAll(Track(t, uses[0]), uses[1..])
  }

  /** `HasZeroOrOneBits`. */
  predicate AtMostOne<T>(mask: set<T>) {
    |mask| <= 1
  }

  predicate BufferFine(created: Created, buffer: nat, mask: set<BufferBit>) {
    mask <= created.bufferUsage(buffer) && (mask <= READ_ONLY || AtMostOne(mask))
  }

  predicate TextureFine(created: Created, texture: nat, mask: set<TextureBit>) {
    mask <= created.textureUsage(texture) && AtMostOne(mask)
  }

  /** `ValidateUsages` reports no error. */
  predicate ValidUsages(t: Tracker, pass: PassType, created: Created) {
    && !(pass == Compute && t.storageTwice)
    && (forall b | b in t.buffers :: BufferFine(created, b, t.buffers[b]))
    && (forall x | x in t.textures :: TextureFine(created, x, t.textures[x]))
  }

  // ----- What the verdict means -----

  predicate IsStorage(use: Use) {
    match use
    case BufferUsedAs(_, bit) => bit == BufferStorage
    case TextureUsedAs(_, bit) => bit == TextureStorage
  }

  /** How the uses of a pass use a buffer, a texture. */
  function BufferBits(uses: seq<Use>, buffer: nat): set<BufferBit> {
    set use | use in uses && use.BufferUsedAs? && use.buffer == buffer :: use.bufferBit
  }

  function TextureBits(uses: seq<Use>, texture: nat): set<TextureBit> {
    set use | use in uses && use.TextureUsedAs? && use.texture == texture :: use.textureBit
  }

  /** The same storage use occurs twice. */
  predicate Repeats(uses: seq<Use>) {
    exists use | use in uses :: IsStorage(use) && multiset(uses)[use] >= 2
  }

  /** The tracker after some uses, from the uses alone. */
  ghost predicate Summarizes(t: Tracker, uses: seq<Use>) {
    && (forall b: nat :: (b in t.buffers <==> BufferBits(uses, b) != {}) && BufferMask(t, b) == BufferBits(uses, b))
    && (forall x: nat :: (x in t.textures <==> TextureBits(uses, x) != {}) && TextureMask(t, x) == TextureBits(uses, x))
    && (t.storageTwice <==> Repeats(uses))
  }

  lemma BitsAppend(uses: seq<Use>, use: Use)
    ensures forall b: nat :: BufferBits(uses + [use], b) ==
              BufferBits(uses, b) + (if use.BufferUsedAs? && use.buffer == b then {use.bufferBit} else {})
    ensures forall x: nat :: TextureBits(uses + [use], x) ==
              TextureBits(uses, x) + (if use.TextureUsedAs? && use.texture == x then {use.textureBit} else {})
  {
    assert forall u :: u in uses + [use] <==> u in uses || u == use;
  }

  lemma RepeatsAppend(uses: seq<Use>, use: Use)
    ensures Repeats(uses + [use]) <==> Repeats(uses) || (IsStorage(use) && use in uses)
  {
    var all := uses + [use];
    assert multiset(all) == multiset(uses) + multiset{use};
    if Repeats(uses) {
      var u :| u in uses && IsStorage(u) && multiset(uses)[u] >= 2;
      assert u in all;
    }
    if IsStorage(use) && use in uses {
      assert multiset(uses)[use] >= 1 && use in all;
    }
  }

  lemma StoredMeansUsed(t: Tracker, uses: seq<Use>, use: Use)
    requires Summarizes(t, uses)
    ensures use.BufferUsedAs? ==> (use.bufferBit in BufferMask(t, use.buffer) <==> use in uses)
    ensures use.TextureUsedAs? ==> (use.textureBit in TextureMask(t, use.texture) <==> use in uses)
  {
    if use.BufferUsedAs? {
      assert use in uses <==> use.bufferBit in BufferBits(uses, use.buffer);
    } else {
      assert use in uses <==> use.textureBit in TextureBits(uses, use.texture);
    }
  }

  lemma TrackSummarizes(t: Tracker, uses: seq<Use>, use: Use)
    requires Summarizes(t, uses)
    ensures Summarizes(Track(t, use), uses + [use])
  {
    hide BufferBits, TextureBits, Repeats;
    BitsAppend(uses, use);
    RepeatsAppend(uses, use);
    StoredMeansUsed(t, uses, use);
    var t', uses' := Track(t, use), uses + [use];
    assert t'.storageTwice <==> Repeats(uses');
    forall b: nat ensures (b in t'.buffers <==> BufferBits(uses', b) != {}) && BufferMask(t', b) == BufferBits(uses', b) {
      assert BufferMask(t, b) == BufferBits(uses, b);
    }
    forall x: nat ensures (x in t'.textures <==> TextureBits(uses', x) != {}) && TextureMask(t', x) == TextureBits(uses', x) {
      assert TextureMask(t, x) == TextureBits(uses, x);
    }
  }

  lemma {:induction false} TrackAllSummarizes(t: Tracker, before: seq<Use>, uses: seq<Use>)
    requires Summarizes(t, before)
    ensures Summarizes(TrackAll(t, uses), before + uses)
    decreases |uses|
  {
    hide Summarizes, Track;
    if uses == [] {
      assert before + uses == before;
    } else {
      TrackSummarizes(t, before, uses[0]);
      TrackAllSummarizes(Track(t, uses[0]), before + [uses[0]], uses[1..]);
      assert before + [uses[0]] + uses[1..] == before + uses;
    }
  }

  /** The tracker holds exactly how the pass uses each resource, and whether it uses one as storage
      twice. */
  lemma TrackedIsSummary(uses: seq<Use>)
    ensures Summarizes(TrackAll(EMPTY, uses), uses)
  {
    TrackAllSummarizes(EMPTY, [], uses);
    assert [] + uses == uses;
  }

  lemma SummaryDetermines(t: Tracker, t': Tracker, uses: seq<Use>)
    requires Summarizes(t, uses) && Summarizes(t', uses)
    ensures t == t'
  {
    assert t.buffers == t'.buffers by {
      forall b | b in t.buffers || b in t'.buffers ensures b in t.buffers && b in t'.buffers && t.buffers[b] == t'.buffers[b] {
        assert BufferMask(t, b) == BufferMask(t', b);
      }
    }
    assert t.textures == t'.textures by {
      forall x | x in t.textures || x in t'.textures ensures x in t.textures && x in t'.textures && t.textures[x] == t'.textures[x] {
        assert TextureMask(t, x) == TextureMask(t', x);
      }
    }
  }

  lemma SummaryOfMultiset(t: Tracker, uses: seq<Use>, uses': seq<Use>)
    requires Summarizes(t, uses) && multiset(uses) == multiset(uses')
    ensures Summarizes(t, uses')
  {
    assert forall use :: use in uses <==> use in multiset(uses);
    assert forall use :: use in uses' <==> use in multiset(uses');
    assert forall b: nat :: BufferBits(uses, b) == BufferBits(uses', b);
    assert forall x: nat :: TextureBits(uses, x) == TextureBits(uses', x);
  }

  /** What is tracked does not depend on the order of the uses. */
  lemma OrderIsIrrelevant(uses: seq<Use>, uses': seq<Use>)
    requires multiset(uses) == multiset(uses')
    ensures TrackAll(EMPTY, uses) == TrackAll(EMPTY, uses')
  {
    TrackedIsSummary(uses);
    TrackedIsSummary(uses');
    SummaryOfMultiset(TrackAll(EMPTY, uses), uses, uses');
    SummaryDetermines(TrackAll(EMPTY, uses), TrackAll(EMPTY, uses'), uses');
  }

  /** The condition on the uses of a pass: resources are used as they were created for, a buffer is
      only read or has a single usage, a texture has a single usage, and a compute pass uses no
      storage resource twice. */
  ghost predicate Legal(uses: seq<Use>, pass: PassType, created: Created) {
    && (pass == Compute ==> !Repeats(uses))
    && (forall b: nat :: BufferFine(created, b, BufferBits(uses, b)))
    && (forall x: nat :: TextureFine(created, x, TextureBits(uses, x)))
  }

  /** Validation of a pass succeeds exactly when its uses are legal. */
  lemma VerdictIsLegality(uses: seq<Use>, pass: PassType, created: Created)
    ensures ValidUsages(TrackAll(EMPTY, uses), pass, created) <==> Legal(uses, pass, created)
  {
    var t := TrackAll(EMPTY, uses);
    TrackedIsSummary(uses);
    if ValidUsages(t, pass, created) {
      forall b: nat ensures BufferFine(created, b, BufferBits(uses, b)) {
        assert b in t.buffers ==> t.buffers[b] == BufferBits(uses, b);
      }
      forall x: nat ensures TextureFine(created, x, TextureBits(uses, x)) {
        assert x in t.textures ==> t.textures[x] == TextureBits(uses, x);
      }
    }
    if Legal(uses, pass, created) {
      forall b | b in t.buffers ensures BufferFine(created, b, t.buffers[b]) {
        assert BufferMask(t, b) == BufferBits(uses, b);
      }
      forall x | x in t.textures ensures TextureFine(created, x, t.textures[x]) {
        assert TextureMask(t, x) == TextureBits(uses, x);
      }
    }
  }

  // ----- The tracker as an object -----

  /** `PassResourceUsage`: resources in the order of their addresses, with their masks. */
  datatype PassResourceUsage = PassResourceUsage(
    buffers: seq<nat>, bufferUsages: seq<set<BufferBit>>, textures: seq<nat>, textureUsages: seq<set<TextureBit>>)

  predicate Ascending(keys: seq<nat>) {
    forall i, j :: 0 <= i < j < |keys| ==> keys[i] < keys[j]
  }

  /** The parallel vectors list exactly the entries of the map. */
  predicate Lists<T(==)>(keys: seq<nat>, values: seq<T>, m: map<nat, T>) {
    && Ascending(keys) && |values| == |keys|
    && (forall i :: 0 <= i < |keys| ==> keys[i] in m && values[i] == m[keys[i]])
    && forall k | k in m :: k in keys
  }

  predicate Acquired(usage: PassResourceUsage, t: Tracker) {
    Lists(usage.buffers, usage.bufferUsages, t.buffers) && Lists(usage.textures, usage.textureUsages, t.textures)
  }

  class PassResourceUsageTracker {
    var bufferUsages: map<nat, set<BufferBit>>
    var textureUsages: map<nat, set<TextureBit>>
    var storageUsedMultipleTimes: bool

    function Value(): Tracker
      reads this
    {
      Tracker(bufferUsages, textureUsages, storageUsedMultipleTimes)
    }

    constructor ()
      ensures Value() == EMPTY
    {
      bufferUsages := map[];
      textureUsages := map[];
      storageUsedMultipleTimes := false;
    }

    method BufferUsedAs(buffer: nat, usage: BufferBit)
      modifies this
      ensures Value() == Track(old(Value()), Use.BufferUsedAs(buffer, usage))
    {
      var storedUsage := if buffer in bufferUsages then bufferUsages[buffer] else {};
      if usage == BufferStorage && BufferStorage in storedUsage {
        storageUsedMultipleTimes := true;
      }
      bufferUsages := bufferUsages[buffer := storedUsage + {usage}];
    }

    method TextureUsedAs(texture: nat, usage: TextureBit)
      modifies this
      ensures Value() == Track(old(Value()), Use.TextureUsedAs(texture, usage))
    {
      var storedUsage := if texture in textureUsages then textureUsages[texture] else {};
      if usage == TextureStorage && TextureStorage in storedUsage {
        storageUsedMultipleTimes := true;
      }
      textureUsages := textureUsages[texture := storedUsage + {usage}];
    }

    method ValidateBuffers(created: Created) returns (ok: bool)
      ensures ok == forall b | b in bufferUsages :: BufferFine(created, b, bufferUsages[b])
    {
      var buffers := bufferUsages.Keys;
      while buffers != {}
        invariant buffers <= bufferUsages.Keys
        invariant forall b | b in bufferUsages && b !in buffers :: BufferFine(created, b, bufferUsages[b])
        decreases |buffers|
      {
        var buffer :| buffer in buffers;
        var usage := bufferUsages[buffer];
        if !(usage <= created.bufferUsage(buffer)) {
          return false;
        }
        if !(usage <= READ_ONLY) && !AtMostOne(usage) {
          return false;
        }
        buffers := buffers - {buffer};
      }
      ok := true;
    }

    method ValidateTextures(created: Created) returns (ok: bool)
      ensures ok == forall x | x in textureUsages :: TextureFine(created, x, textureUsages[x])
    {
      var textures := textureUsages.Keys;
      while textures != {}
        invariant textures <= textureUsages.Keys
        invariant forall x | x in textureUsages && x !in textures :: TextureFine(created, x, textureUsages[x])
        decreases |textures|
      {
        var texture :| texture in textures;
        var usage := textureUsages[texture];
        if !(usage <= created.textureUsage(texture)) || !AtMostOne(usage) {
          return false;
        }
        textures := textures - {texture};
      }
      ok := true;
    }

    method ValidateUsages(pass: PassType, created: Created) returns (ok: bool)
      ensures ok == ValidUsages(Value(), pass, created)
    {
      if pass == Compute && storageUsedMultipleTimes {
        return false;
      }
      ok := ValidateBuffers(created);
      if ok {
        ok := ValidateTextures(created);
      }
    }

    method AcquireResourceUsage() returns (result: PassResourceUsage)
      ensures Acquired(result, Value())
    {
      var buffers, bufferMasks := Vectors(bufferUsages);
      var textures, textureMasks := Vectors(textureUsages);
      result := PassResourceUsage(buffers, bufferMasks, textures, textureMasks);
    }
  }

  /** The keys and values of a map as parallel vectors, in the order of the keys. */
  method Vectors<T(==)>(m: map<nat, T>) returns (keys: seq<nat>, values: seq<T>)
    ensures Lists(keys, values, m)
  {
    keys, values := [], [];
    var left := m.Keys;
    while left != {}
      invariant left <= m.Keys && Ascending(keys) && |values| == |keys|
      invariant forall i :: 0 <= i < |keys| ==> keys[i] in m && values[i] == m[keys[i]]
      invariant forall k | k in m :: k in keys || k in left
      invariant forall i, k :: 0 <= i < |keys| && k in left ==> keys[i] < k
      decreases |left|
    {
      var key := Least(left);
      keys, values := keys + [key], values + [m[key]];
      left := left - {key};
    }
  }
}
