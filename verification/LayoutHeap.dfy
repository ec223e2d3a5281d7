/** Lifetimes of cached bind group layouts: the device's cache, external references of the API, and
    internal references held by `Ref` objects. */
module LayoutHeap {
  import opened Wrappers
  import opened LayoutCache

  // ----- Reference counts -----

  datatype Counts = Counts(externals: nat, internals: nat)

  /** External references together count as one internal reference. */
  function Reference(c: Counts): Counts {
    Counts(c.externals + 1, if c.externals == 0 then c.internals + 1 else c.internals)
  }

  function Release(c: Counts): Counts
    requires c.externals > 0 && c.internals > 0
  {
    Counts(c.externals - 1, if c.externals == 1 then c.internals - 1 else c.internals)
  }

  // ----- The heap -----

  /** A layout with the descriptor it was made from. */
  datatype Layout = Layout(info: Info, made: Descriptor, counts: Counts)

  /** Layouts by address, the addresses in the cache, and the `Ref` objects with what they point
      to. */
  datatype Heap = Heap(live: map<nat, Layout>, cache: set<nat>, refs: map<nat, Option<nat>>)

  const EMPTY: Heap := Heap(map[], {}, map[])

  predicate Fits(h: Heap) {
    (forall p | p in h.live :: WellFormed(h.live[p].info)) && h.cache <= h.live.Keys
  }

  /** The key equality of the cache, which looks at hashes first. */
  predicate Equal(h: Heap, hasher: Hasher, p: nat, info: Info)
    requires Fits(h) && p in h.cache && WellFormed(info)
  {
    HashInfo(hasher, h.live[p].info) == HashInfo(hasher, info) && SameInfo(h.live[p].info, info)
  }

  /** `find`. */
  ghost function Find(h: Heap, hasher: Hasher, info: Info): (found: Option<nat>)
    requires Fits(h) && WellFormed(info)
    ensures found.Some? ==> found.value in h.cache && Equal(h, hasher, found.value, info)
    ensures found.None? ==> forall p | p in h.cache :: !Equal(h, hasher, p, info)
  {
    if p :| p in h.cache && Equal(h, hasher, p, info) then Some(p) else None
  }

  function WithCounts(h: Heap, p: nat, c: Counts): Heap
    requires p in h.live
  {
    h.(live := h.live[p := h.live[p].(counts := c)])
  }

  /** The destructor takes whatever equals the layout out of the cache. */
  ghost function Destroy(h: Heap, hasher: Hasher, p: nat): Heap
    requires Fits(h) && p in h.live
  {
    h.(live := h.live - {p}, cache := set q | q in h.cache && !Equal(h, hasher, q, h.live[p].info))
  }

  /** New counts, and destruction when no internal reference is left. */
  ghost function Update(h: Heap, hasher: Hasher, p: nat, c: Counts): Heap
    requires Fits(h) && p in h.live
  {
    if c.internals == 0 then Destroy(h, hasher, p) else WithCounts(h, p, c)
  }

  /** `ReferenceInternal` and `ReleaseInternal` through a `Ref`. */
  function Acquired(h: Heap, o: Option<nat>): Heap
    requires o.Some? ==> o.value in h.live
  {
    if o.None? then h
    else
      var c := h.live[o.value].counts;
      WithCounts(h, o.value, c.(internals := c.internals + 1))
  }

  ghost function Dropped(h: Heap, hasher: Hasher, o: Option<nat>): Heap
    requires Fits(h) && (o.Some? ==> o.value in h.live && h.live[o.value].counts.internals > 0)
  {
    if o.None? then h
    else
      var c := h.live[o.value].counts;
      Update(h, hasher, o.value, c.(internals := c.internals - 1))
  }

  // ----- Actions -----

  datatype Action =
    /** `CreateBindGroupLayout`: what uninitialized arrays hold, where a new layout would be, and
        whether the backend fails. */
    | Create(descriptor: Descriptor, garbage: Info, blueprintGarbage: Info, address: nat, fails: bool)
    | AddExternal(p: nat)
    | ReleaseExternal(p: nat)
    | RefNew(slot: nat, target: Option<nat>)
    | RefCopy(slot: nat, source: nat)
    | RefMoved(slot: nat, source: nat)
    | RefAssign(slot: nat, source: nat)
    | RefMoveAssign(slot: nat, source: nat)
    | RefDestroy(slot: nat)

  /** Callers only use layouts they hold a reference to. */
  predicate Enabled(h: Heap, a: Action) {
    match a
    case Create(d, garbage, blueprintGarbage, address, _) =>
      address !in h.live && WellFormed(garbage) && garbage.mask == {} && WellFormed(blueprintGarbage) && blueprintGarbage.mask == {}
    case AddExternal(p) => p in h.live && h.live[p].counts.externals > 0
    case ReleaseExternal(p) => p in h.live && h.live[p].counts.externals > 0
    case RefNew(slot, target) => slot !in h.refs && (target.Some? ==> target.value in h.live)
    case RefCopy(slot, source) => slot !in h.refs && source in h.refs
    case RefMoved(slot, source) => slot !in h.refs && source in h.refs
    case RefAssign(slot, source) => slot in h.refs && source in h.refs
    case RefMoveAssign(slot, source) => slot in h.refs && source in h.refs
    case RefDestroy(slot) => slot in h.refs
  }

  function InfoOf(d: Descriptor, garbage: Info): (info: Info)
    requires Validate(d, {}) == Valid && WellFormed(garbage)
    ensures WellFormed(info)
  {
    ValidatesExactly(d, {});
    Fill(garbage, d)
  }

  /** What creation returns, and the heap after it. */
  ghost function CreateLayout(h: Heap, hasher: Hasher, d: Descriptor, garbage: Info, blueprintGarbage: Info, address: nat, fails: bool):
      (Option<nat>, Heap)
    requires Fits(h) && WellFormed(garbage) && WellFormed(blueprintGarbage)
  {
    if Validate(d, {}) != Valid then (None, h)
    else
      var found := Find(h, hasher, InfoOf(d, blueprintGarbage));
      if found.Some? then (found, WithCounts(h, found.value, Reference(h.live[found.value].counts)))
      else if fails then (None, h)
      else (Some(address), h.(live := h.live[address := Layout(InfoOf(d, garbage), d, Counts(1, 1))], cache := h.cache + {address}))
  }

  /** The heap after an action; assignments between the same slot do nothing. */
  ghost function Step(h: Heap, hasher: Hasher, a: Action): Heap
    requires Inv(h) && Enabled(h, a)
  {
    match a
    case Create(d, garbage, blueprintGarbage, address, fails) =>
      CreateLayout(h, hasher, d, garbage, blueprintGarbage, address, fails).1
    case AddExternal(p) => WithCounts(h, p, Reference(h.live[p].counts))
    case ReleaseExternal(p) => Update(h, hasher, p, Release(h.live[p].counts))
    case RefNew(slot, target) => Acquired(h.(refs := h.refs[slot := target]), target)
    case RefCopy(slot, source) => Acquired(h.(refs := h.refs[slot := h.refs[source]]), h.refs[source])
    case RefMoved(slot, source) => h.(refs := h.refs[slot := h.refs[source]][source := None])
    case RefAssign(slot, source) =>
      if slot == source then h
      else
        var h1 := Acquired(h, h.refs[source]);
        Dropped(h1.(refs := h.refs[slot := h.refs[source]]), hasher, h.refs[slot])
    case RefMoveAssign(slot, source) =>
      if slot == source then h
      else Dropped(h.(refs := h.refs[slot := h.refs[source]][source := None]), hasher, h.refs[slot])
    case RefDestroy(slot) => Dropped(h.(refs := h.refs - {slot}), hasher, h.refs[slot])
  }

  // ----- The invariant -----

  function Holders(refs: map<nat, Option<nat>>, p: nat): set<nat> {
    set s | s in refs && refs[s] == Some(p)
  }

  /** The cache holds exactly the live layouts; their infos come from their descriptors and differ. */
  ghost predicate CacheFits(h: Heap) {
    && h.cache == h.live.Keys
    && (forall p | p in h.live :: Accepted(h.live[p].made) && WellFormed(h.live[p].info) && Describes(h.live[p].info, h.live[p].made))
    && (forall p, q | p in h.live && q in h.live :: p != q ==> !SameInfo(h.live[p].info, h.live[q].info))
  }

  /** Internal references are the `Ref` objects, and one for the external ones. */
  predicate Balanced(refs: map<nat, Option<nat>>, p: nat, c: Counts) {
    c.internals > 0 && c.internals == |Holders(refs, p)| + (if c.externals > 0 then 1 else 0)
  }

  /** Every count is right, and no `Ref` dangles. */
  predicate CountsFit(h: Heap) {
    && (forall p | p in h.live :: Balanced(h.refs, p, h.live[p].counts))
    && (forall s | s in h.refs :: h.refs[s].Some? ==> h.refs[s].value in h.live)
  }

  ghost predicate Inv(h: Heap) {
    Fits(h) && CacheFits(h) && CountsFit(h)
  }

  // ----- Ref objects and counts -----

  predicate NoDangling(h: Heap) {
    forall s | s in h.refs :: h.refs[s].Some? ==> h.refs[s].value in h.live
  }

  function One(b: bool): nat { if b then 1 else 0 }

  /** Counts are right but for one reference too many, or too few, to a layout. */
  predicate OneOver(h: Heap, o: Option<nat>) {
    && NoDangling(h) && (o.Some? ==> o.value in h.live)
    && forall p | p in h.live ::
         var c := h.live[p].counts;
         c.internals > 0 && c.internals == |Holders(h.refs, p)| + One(c.externals > 0) + One(o == Some(p))
  }

  predicate OneUnder(h: Heap, o: Option<nat>) {
    && NoDangling(h) && (o.Some? ==> o.value in h.live)
    && forall p | p in h.live ::
         var c := h.live[p].counts;
         c.internals > 0 && c.internals + One(o == Some(p)) == |Holders(h.refs, p)| + One(c.externals > 0)
  }

  /** A `Ref` that gets a new target. */
  lemma HoldersOfSet(refs: map<nat, Option<nat>>, slot: nat, target: Option<nat>, p: nat)
    ensures |Holders(refs[slot := target], p)| + One(slot in refs && refs[slot] == Some(p))
            == |Holders(refs, p)| + One(target == Some(p))
  {
    var before, after := Holders(refs, p), Holders(refs[slot := target], p);
    var others := before - {slot};
    assert after == if target == Some(p) then others + {slot} else others;
    assert before == if slot in refs && refs[slot] == Some(p) then others + {slot} else others;
  }

  lemma HoldersOfRemoved(refs: map<nat, Option<nat>>, slot: nat, p: nat)
    requires slot in refs
    ensures |Holders(refs - {slot}, p)| + One(refs[slot] == Some(p)) == |Holders(refs, p)|
  {
    var before, after := Holders(refs, p), Holders(refs - {slot}, p);
    assert after == before - {slot};
  }

  lemma NoHolders(refs: map<nat, Option<nat>>, p: nat)
    requires |Holders(refs, p)| == 0
    ensures forall s | s in refs :: refs[s] != Some(p)
  {
    forall s | s in refs ensures refs[s] != Some(p) {
      assert refs[s] == Some(p) ==> s in Holders(refs, p);
    }
  }

  lemma NewHasNoHolders(h: Heap, p: nat)
    requires NoDangling(h) && p !in h.live
    ensures Holders(h.refs, p) == {}
  {
  }

  /** Destroying a layout nobody refers to takes it, and only it, out of the cache. */
  lemma DestroyKeepsInv(h: Heap, hasher: Hasher, p: nat)
    requires Fits(h) && CacheFits(h) && p in h.live && NoDangling(h) && |Holders(h.refs, p)| == 0
    requires forall q | q in h.live && q != p :: Balanced(h.refs, q, h.live[q].counts)
    ensures Inv(Destroy(h, hasher, p))
  {
    NoHolders(h.refs, p);
    var h' := Destroy(h, hasher, p);
    assert Equal(h, hasher, p, h.live[p].info);
    assert h'.cache == h.cache - {p};
    assert h'.live.Keys == h.live.Keys - {p};
  }

  /** New counts that are right, or the end of the layout. */
  lemma UpdateKeepsInv(h: Heap, hasher: Hasher, p: nat, c: Counts)
    requires Fits(h) && CacheFits(h) && p in h.live && NoDangling(h)
    requires forall q | q in h.live && q != p :: Balanced(h.refs, q, h.live[q].counts)
    requires c.internals == |Holders(h.refs, p)| + One(c.externals > 0)
    ensures Inv(Update(h, hasher, p, c))
  {
    hide SameInfo, Describes, Accepted, WellFormed, Holders;
    if c.internals == 0 {
      DestroyKeepsInv(h, hasher, p);
    } else {
      var h' := WithCounts(h, p, c);
      assert h'.live.Keys == h.live.Keys;
    }
  }

  lemma DropKeepsInv(h: Heap, hasher: Hasher, o: Option<nat>)
    requires Fits(h) && CacheFits(h) && OneOver(h, o)
    ensures Inv(Dropped(h, hasher, o))
  {
    hide CacheFits, Holders, Update;
    if o.Some? {
      var c := h.live[o.value].counts;
      UpdateKeepsInv(h, hasher, o.value, c.(internals := c.internals - 1));
    }
  }

  lemma AcquireKeepsInv(h: Heap, o: Option<nat>)
    requires Fits(h) && CacheFits(h) && OneUnder(h, o)
    ensures Inv(Acquired(h, o))
  {
    hide Holders, SameInfo, Describes, Accepted, WellFormed;
    if o.Some? {
      assert Acquired(h, o).live.Keys == h.live.Keys;
    }
  }

  // ----- Creation -----

  lemma FillOf(d: Descriptor, garbage: Info)
    requires Validate(d, {}) == Valid && WellFormed(garbage) && garbage.mask == {}
    ensures Accepted(d) && Describes(InfoOf(d, garbage), d)
  {
    ValidatesExactly(d, {});
    assert [] + d == d;
    FillDescribes(garbage, [], d);
  }

  /** The cache finds a layout exactly when one was made from the same bindings. */
  lemma FindsSame(h: Heap, hasher: Hasher, d: Descriptor, garbage: Info)
    requires Fits(h) && CacheFits(h) && Validate(d, {}) == Valid && WellFormed(garbage) && garbage.mask == {}
    ensures var found := Find(h, hasher, InfoOf(d, garbage));
            && (found.Some? ==> found.value in h.live && multiset(h.live[found.value].made) == multiset(d))
            && (found.None? ==> forall p | p in h.live :: multiset(h.live[p].made) != multiset(d))
  {
    FillOf(d, garbage);
    var info := InfoOf(d, garbage);
    forall p | p in h.live ensures Equal(h, hasher, p, info) <==> multiset(h.live[p].made) == multiset(d) {
      SameInfoExactly(h.live[p].info, h.live[p].made, info, d);
      if SameInfo(h.live[p].info, info) {
        EqualHash(hasher, h.live[p].info, info);
      }
    }
  }

  lemma ReferenceKeepsInv(h: Heap, p: nat)
    requires Inv(h) && p in h.live
    ensures Inv(WithCounts(h, p, Reference(h.live[p].counts)))
  {
    hide Holders, SameInfo, Describes, Accepted, WellFormed;
    assert WithCounts(h, p, Reference(h.live[p].counts)).live.Keys == h.live.Keys;
  }

  lemma InsertKeepsInv(h: Heap, d: Descriptor, garbage: Info, address: nat)
    requires Inv(h) && address !in h.live && Validate(d, {}) == Valid && WellFormed(garbage) && garbage.mask == {}
    requires forall p | p in h.live :: multiset(h.live[p].made) != multiset(d)
    ensures Inv(h.(live := h.live[address := Layout(InfoOf(d, garbage), d, Counts(1, 1))], cache := h.cache + {address}))
  {
    hide Holders, SameInfo, Describes, Accepted, WellFormed;
    FillOf(d, garbage);
    NewHasNoHolders(h, address);
    var info := InfoOf(d, garbage);
    forall p | p in h.live ensures !SameInfo(h.live[p].info, info) && !SameInfo(info, h.live[p].info) {
      SameInfoExactly(h.live[p].info, h.live[p].made, info, d);
      SameInfoExactly(info, d, h.live[p].info, h.live[p].made);
    }
    assert h.live[address := Layout(info, d, Counts(1, 1))].Keys == h.live.Keys + {address};
  }

  /** Creation returns a layout with the bindings asked for, whatever their order: the existing one if
      there is one. */
  lemma CreateIsFine(h: Heap, hasher: Hasher, d: Descriptor, garbage: Info, blueprintGarbage: Info, address: nat, fails: bool)
    requires Inv(h) && Enabled(h, Create(d, garbage, blueprintGarbage, address, fails))
    ensures var (result, h') := CreateLayout(h, hasher, d, garbage, blueprintGarbage, address, fails);
            && Inv(h')
            && (result.Some? ==> result.value in h'.live && multiset(h'.live[result.value].made) == multiset(d)
                                 && h'.live[result.value].counts.externals > 0)
            && (result.None? ==> h' == h)
            && (result.None? <==>
                  !Accepted(d) || (fails && forall p | p in h.live :: multiset(h.live[p].made) != multiset(d)))
  {
    hide Holders, CacheFits, CountsFit;
    ValidatesExactly(d, {});
    if Validate(d, {}) == Valid {
      FindsSame(h, hasher, d, blueprintGarbage);
      var found := Find(h, hasher, InfoOf(d, blueprintGarbage));
      if found.Some? {
        ReferenceKeepsInv(h, found.value);
      } else {
        InsertKeepsInv(h, d, garbage, address);
      }
    }
  }

  // ----- Every action keeps the invariant -----

  lemma NewRefKeepsInv(h: Heap, slot: nat, target: Option<nat>)
    requires Inv(h) && slot !in h.refs && (target.Some? ==> target.value in h.live)
    ensures Inv(Acquired(h.(refs := h.refs[slot := target]), target))
  {
    hide Holders, CacheFits;
    forall p: nat ensures |Holders(h.refs[slot := target], p)| == |Holders(h.refs, p)| + One(target == Some(p)) {
      HoldersOfSet(h.refs, slot, target, p);
    }
    CacheIgnoresRefs(h, h.refs[slot := target]);
    AcquireKeepsInv(h.(refs := h.refs[slot := target]), target);
  }

  lemma CacheIgnoresRefs(h: Heap, refs: map<nat, Option<nat>>)
    requires CacheFits(h)
    ensures CacheFits(h.(refs := refs))
  {
  }

  lemma MoveHolders(refs: map<nat, Option<nat>>, slot: nat, source: nat, p: nat)
    requires source in refs && slot != source
    ensures |Holders(refs[slot := refs[source]][source := None], p)| + One(slot in refs && refs[slot] == Some(p))
            == |Holders(refs, p)|
  {
    HoldersOfSet(refs, slot, refs[source], p);
    HoldersOfSet(refs[slot := refs[source]], source, None, p);
  }

  lemma MovedKeepsInv(h: Heap, slot: nat, source: nat)
    requires Inv(h) && slot !in h.refs && source in h.refs
    ensures Inv(h.(refs := h.refs[slot := h.refs[source]][source := None]))
  {
    hide Holders, CacheFits;
    var refs' := h.refs[slot := h.refs[source]][source := None];
    CacheIgnoresRefs(h, refs');
    forall p: nat ensures |Holders(refs', p)| == |Holders(h.refs, p)| {
      MoveHolders(h.refs, slot, source, p);
    }
  }

  lemma MoveAssignKeepsInv(h: Heap, hasher: Hasher, slot: nat, source: nat)
    requires Inv(h) && slot in h.refs && source in h.refs && slot != source
    ensures Inv(Dropped(h.(refs := h.refs[slot := h.refs[source]][source := None]), hasher, h.refs[slot]))
  {
    hide Holders, CacheFits;
    var refs' := h.refs[slot := h.refs[source]][source := None];
    CacheIgnoresRefs(h, refs');
    forall p: nat ensures |Holders(refs', p)| + One(h.refs[slot] == Some(p)) == |Holders(h.refs, p)| {
      MoveHolders(h.refs, slot, source, p);
    }
    DropKeepsInv(h.(refs := refs'), hasher, h.refs[slot]);
  }

  lemma AssignKeepsInv(h: Heap, hasher: Hasher, slot: nat, source: nat)
    requires Inv(h) && slot in h.refs && source in h.refs
    ensures Inv(Dropped(Acquired(h, h.refs[source]).(refs := h.refs[slot := h.refs[source]]), hasher, h.refs[slot]))
  {
    hide Holders, CacheFits, Acquired, OneOver;
    var h1, refs' := Acquired(h, h.refs[source]), h.refs[slot := h.refs[source]];
    AcquireKeepsCache(h, h.refs[source]);
    CacheIgnoresRefs(h1, refs');
    AssignIsOneOver(h, slot, source);
    DropKeepsInv(h1.(refs := refs'), hasher, h.refs[slot]);
  }

  /** Between taking the new target and dropping the old one. */
  lemma AssignIsOneOver(h: Heap, slot: nat, source: nat)
    requires CountsFit(h) && slot in h.refs && source in h.refs
    ensures OneOver(Acquired(h, h.refs[source]).(refs := h.refs[slot := h.refs[source]]), h.refs[slot])
  {
    hide Holders;
    var refs' := h.refs[slot := h.refs[source]];
    forall p: nat ensures |Holders(refs', p)| + One(h.refs[slot] == Some(p)) == |Holders(h.refs, p)| + One(h.refs[source] == Some(p)) {
      HoldersOfSet(h.refs, slot, h.refs[source], p);
    }
  }

  lemma AcquireKeepsCache(h: Heap, o: Option<nat>)
    requires Fits(h) && CacheFits(h) && (o.Some? ==> o.value in h.live)
    ensures Fits(Acquired(h, o)) && CacheFits(Acquired(h, o)) && Acquired(h, o).live.Keys == h.live.Keys
  {
  }

  lemma DestroyRefKeepsInv(h: Heap, hasher: Hasher, slot: nat)
    requires Inv(h) && slot in h.refs
    ensures Inv(Dropped(h.(refs := h.refs - {slot}), hasher, h.refs[slot]))
  {
    hide Holders, CacheFits;
    CacheIgnoresRefs(h, h.refs - {slot});
    forall p: nat ensures |Holders(h.refs - {slot}, p)| + One(h.refs[slot] == Some(p)) == |Holders(h.refs, p)| {
      HoldersOfRemoved(h.refs, slot, p);
    }
    DropKeepsInv(h.(refs := h.refs - {slot}), hasher, h.refs[slot]);
  }

  lemma ReleaseKeepsInv(h: Heap, hasher: Hasher, p: nat)
    requires Inv(h) && p in h.live && h.live[p].counts.externals > 0
    ensures Inv(Update(h, hasher, p, Release(h.live[p].counts)))
  {
    hide Holders, CacheFits, Update;
    UpdateKeepsInv(h, hasher, p, Release(h.live[p].counts));
  }

  lemma StepKeepsInv(h: Heap, hasher: Hasher, a: Action)
    requires Inv(h) && Enabled(h, a)
    ensures Inv(Step(h, hasher, a))
  {
    hide Holders, CacheFits, Update, Dropped, Acquired, CreateLayout;
    match a
    case Create(d, garbage, blueprintGarbage, address, fails) =>
      CreateIsFine(h, hasher, d, garbage, blueprintGarbage, address, fails);
    case AddExternal(p) => ReferenceKeepsInv(h, p);
    case ReleaseExternal(p) => ReleaseKeepsInv(h, hasher, p);
    case RefNew(slot, target) => NewRefKeepsInv(h, slot, target);
    case RefCopy(slot, source) => NewRefKeepsInv(h, slot, h.refs[source]);
    case RefMoved(slot, source) => MovedKeepsInv(h, slot, source);
    case RefAssign(slot, source) =>
      if slot != source {
        AssignKeepsInv(h, hasher, slot, source);
      }
    case RefMoveAssign(slot, source) =>
      if slot != source {
        MoveAssignKeepsInv(h, hasher, slot, source);
      }
    case RefDestroy(slot) => DestroyRefKeepsInv(h, hasher, slot);
  }

  // ----- Runs -----

  ghost function Run(h: Heap, hasher: Hasher, actions: seq<Action>): (r: Option<Heap>)
    requires Inv(h)
    ensures r.Some? ==> Inv(r.value)
    decreases |actions|
  {
    if actions == [] then Some(h)
    else if !Enabled(h, actions[0]) then None
    else
      StepKeepsInv(h, hasher, actions[0]);
      Run(Step(h, hasher, actions[0]), hasher, actions[1..])
  }

  lemma EmptyIsFine()
    ensures Inv(EMPTY)
  {
  }

  /** The heap after a run that starts without layouts. */
  ghost function Reached(actions: seq<Action>, hasher: Hasher): Option<Heap> {
    EmptyIsFine();
    Run(EMPTY, hasher, actions)
  }

  /** In every run: the cache holds exactly the live layouts; two of them are the same object exactly
      when they were made from the same bindings, in any order; internal counts are the number of
      `Ref` objects plus one for external references; and no `Ref` dangles. */
  lemma PointersAreIdentities(actions: seq<Action>, hasher: Hasher)
    requires Reached(actions, hasher).Some?
    ensures var h := Reached(actions, hasher).value;
            && h.cache == h.live.Keys
            && (forall p, q | p in h.live && q in h.live :: p == q <==> multiset(h.live[p].made) == multiset(h.live[q].made))
            && (forall p | p in h.live :: Balanced(h.refs, p, h.live[p].counts))
            && (forall s | s in h.refs :: h.refs[s].Some? ==> h.refs[s].value in h.live)
  {
    EmptyIsFine();
    var h := Reached(actions, hasher).value;
    assert Inv(h);
    forall p, q | p in h.live && q in h.live ensures p == q <==> multiset(h.live[p].made) == multiset(h.live[q].made) {
      SameInfoExactly(h.live[p].info, h.live[p].made, h.live[q].info, h.live[q].made);
    }
  }

  // ----- How long a layout lives -----

  /** The sum for an address after one more action: one more for each time a creation returned it or it was
      referenced from outside, one less for each release. */
  ghost function Count(h: Heap, hasher: Hasher, a: Action, p: nat, n: int): int
    requires Inv(h) && Enabled(h, a)
  {
    match a
    case Create(d, garbage, blueprintGarbage, address, fails) =>
      if CreateLayout(h, hasher, d, garbage, blueprintGarbage, address, fails).0 == Some(p) then n + 1 else n
    case AddExternal(q) => if q == p then n + 1 else n
    case ReleaseExternal(q) => if q == p then n - 1 else n
    case _ => n
  }

  ghost function Balance(h: Heap, hasher: Hasher, actions: seq<Action>, p: nat, n: int): int
    requires Inv(h) && Run(h, hasher, actions).Some?
    decreases |actions|
  {
    if actions == [] then n
    else
      StepKeepsInv(h, hasher, actions[0]);
      Balance(Step(h, hasher, actions[0]), hasher, actions[1..], p, Count(h, hasher, actions[0], p, n))
  }

  predicate Holds(h: Heap, p: nat, n: int) {
    if p in h.live then h.live[p].counts.externals == n else n == 0
  }

  lemma DropKeepsExternals(h: Heap, hasher: Hasher, o: Option<nat>, p: nat, n: int)
    requires Fits(h) && OneOver(h, o) && Holds(h, p, n)
    ensures Holds(Dropped(h, hasher, o), p, n)
  {
    hide Holders, Equal;
  }

  lemma AcquireKeepsExternals(h: Heap, o: Option<nat>, p: nat, n: int)
    requires (o.Some? ==> o.value in h.live) && Holds(h, p, n)
    ensures Holds(Acquired(h, o), p, n)
  {
  }

  lemma ReleaseKeepsCount(h: Heap, hasher: Hasher, q: nat, p: nat, n: int)
    requires Inv(h) && q in h.live && h.live[q].counts.externals > 0 && Holds(h, p, n)
    ensures Holds(Update(h, hasher, q, Release(h.live[q].counts)), p, if q == p then n - 1 else n)
  {
    hide Holders, CacheFits, Equal;
    assert Balanced(h.refs, q, h.live[q].counts);
  }

  lemma CreateKeepsCount(h: Heap, hasher: Hasher, a: Action, p: nat, n: int)
    requires Inv(h) && Enabled(h, a) && a.Create? && Holds(h, p, n)
    ensures Holds(Step(h, hasher, a), p, Count(h, hasher, a, p, n))
  {
    hide Holders, CacheFits, Equal, Find, CountsFit;
    FindIsLive(h, hasher);
  }

  lemma FindIsLive(h: Heap, hasher: Hasher)
    requires Fits(h)
    ensures forall info | WellFormed(info) && Find(h, hasher, info).Some? :: Find(h, hasher, info).value in h.live
  {
  }

  lemma AssignKeepsCount(h: Heap, hasher: Hasher, slot: nat, source: nat, p: nat, n: int)
    requires Inv(h) && slot in h.refs && source in h.refs && slot != source && Holds(h, p, n)
    ensures Holds(Step(h, hasher, RefAssign(slot, source)), p, n)
    ensures Holds(Step(h, hasher, RefMoveAssign(slot, source)), p, n)
  {
    hide Holders, CacheFits, Acquired, Dropped, OneOver;
    AcquireKeepsCache(h, h.refs[source]);
    AcquireKeepsExternals(h, h.refs[source], p, n);
    AssignIsOneOver(h, slot, source);
    DropKeepsExternals(Acquired(h, h.refs[source]).(refs := h.refs[slot := h.refs[source]]), hasher, h.refs[slot], p, n);
    MoveIsOneOver(h, slot, source);
    DropKeepsExternals(h.(refs := h.refs[slot := h.refs[source]][source := None]), hasher, h.refs[slot], p, n);
  }

  lemma MoveIsOneOver(h: Heap, slot: nat, source: nat)
    requires CountsFit(h) && slot in h.refs && source in h.refs && slot != source
    ensures OneOver(h.(refs := h.refs[slot := h.refs[source]][source := None]), h.refs[slot])
  {
    hide Holders;
    var refs' := h.refs[slot := h.refs[source]][source := None];
    forall p: nat ensures |Holders(refs', p)| + One(h.refs[slot] == Some(p)) == |Holders(h.refs, p)| {
      MoveHolders(h.refs, slot, source, p);
    }
  }

  lemma DestroyRefIsOneOver(h: Heap, slot: nat)
    requires CountsFit(h) && slot in h.refs
    ensures OneOver(h.(refs := h.refs - {slot}), h.refs[slot])
  {
    hide Holders;
    forall p: nat ensures |Holders(h.refs - {slot}, p)| + One(h.refs[slot] == Some(p)) == |Holders(h.refs, p)| {
      HoldersOfRemoved(h.refs, slot, p);
    }
  }

  lemma StepKeepsCount(h: Heap, hasher: Hasher, a: Action, p: nat, n: int)
    requires Inv(h) && Enabled(h, a) && Holds(h, p, n)
    ensures Holds(Step(h, hasher, a), p, Count(h, hasher, a, p, n))
  {
    hide Holders, CacheFits, CountsFit, Update, Dropped, Acquired, CreateLayout, Holds, OneOver;
    match a
    case Create(_, _, _, _, _) => CreateKeepsCount(h, hasher, a, p, n);
    case AddExternal(_) => AddKeepsCount(h, hasher, a, p, n);
    case ReleaseExternal(q) => ReleaseKeepsCount(h, hasher, q, p, n);
    case RefNew(slot, target) => RefsAreOther(h, h.refs[slot := target], p, n); AcquireKeepsExternals(h.(refs := h.refs[slot := target]), target, p, n);
    case RefCopy(slot, source) =>
      RefsAreOther(h, h.refs[slot := h.refs[source]], p, n);
      CountsMean(h);
      AcquireKeepsExternals(h.(refs := h.refs[slot := h.refs[source]]), h.refs[source], p, n);
    case RefMoved(slot, source) => RefsAreOther(h, h.refs[slot := h.refs[source]][source := None], p, n);
    case RefAssign(slot, source) => if slot != source { AssignKeepsCount(h, hasher, slot, source, p, n); }
    case RefMoveAssign(slot, source) => if slot != source { AssignKeepsCount(h, hasher, slot, source, p, n); }
    case RefDestroy(slot) =>
      RefsAreOther(h, h.refs - {slot}, p, n);
      DestroyRefIsOneOver(h, slot);
      DropKeepsExternals(h.(refs := h.refs - {slot}), hasher, h.refs[slot], p, n);
  }

  lemma CountsMean(h: Heap)
    requires CountsFit(h)
    ensures NoDangling(h)
  {
  }

  lemma AddKeepsCount(h: Heap, hasher: Hasher, a: Action, p: nat, n: int)
    requires Inv(h) && Enabled(h, a) && a.AddExternal? && Holds(h, p, n)
    ensures Holds(Step(h, hasher, a), p, Count(h, hasher, a, p, n))
  {
  }

  lemma RefsAreOther(h: Heap, refs: map<nat, Option<nat>>, p: nat, n: int)
    requires Holds(h, p, n)
    ensures Holds(h.(refs := refs), p, n)
  {
  }

  lemma {:induction false} RunKeepsCount(h: Heap, hasher: Hasher, actions: seq<Action>, p: nat, n: int)
    requires Inv(h) && Run(h, hasher, actions).Some? && Holds(h, p, n)
    ensures Holds(Run(h, hasher, actions).value, p, Balance(h, hasher, actions, p, n))
    decreases |actions|
  {
    hide Inv, Step, Holds, Count, Enabled;
    if actions != [] {
      StepKeepsInv(h, hasher, actions[0]);
      StepKeepsCount(h, hasher, actions[0], p, n);
      RunKeepsCount(Step(h, hasher, actions[0]), hasher, actions[1..], p, Count(h, hasher, actions[0], p, n));
    }
  }

  /** In every run, a layout lives exactly while it was returned and referenced from outside more often than
      released, or some `Ref` points to it. */
  lemma LivesWhileReferenced(actions: seq<Action>, hasher: Hasher, p: nat)
    requires Reached(actions, hasher).Some?
    ensures var h := Reached(actions, hasher).value;
            var n := (EmptyIsFine(); Balance(EMPTY, hasher, actions, p, 0));
            n >= 0 && (p in h.live <==> n > 0 || exists s | s in h.refs :: h.refs[s] == Some(p))
  {
    hide CacheFits, Balance;
    EmptyIsFine();
    RunKeepsCount(EMPTY, hasher, actions, p, 0);
    var h := Reached(actions, hasher).value;
    if p in h.live {
      assert Balanced(h.refs, p, h.live[p].counts);
      if h.live[p].counts.externals == 0 {
        var s :| s in Holders(h.refs, p);
      }
    }
  }

  /** What a `Ref` points to after an action on it: a copy and an assignment leave their source, a move
      empties it, and nothing else changes. */
  lemma RefsPoint(h: Heap, hasher: Hasher, slot: nat, source: nat)
    requires Inv(h) && source in h.refs && slot != source
    ensures slot !in h.refs ==>
              && Step(h, hasher, RefCopy(slot, source)).refs == h.refs[slot := h.refs[source]]
              && Step(h, hasher, RefMoved(slot, source)).refs == h.refs[slot := h.refs[source]][source := None]
    ensures slot in h.refs ==>
              && Step(h, hasher, RefAssign(slot, source)).refs == h.refs[slot := h.refs[source]]
              && Step(h, hasher, RefMoveAssign(slot, source)).refs == h.refs[slot := h.refs[source]][source := None]
              && Step(h, hasher, RefDestroy(slot)).refs == h.refs - {slot}
  {
    hide CacheFits, Holders;
  }
}
