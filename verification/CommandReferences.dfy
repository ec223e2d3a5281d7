/** References held by recorded commands: what the recording methods of src/dawn_native/CommandBuffer.cpp
    assign to the `Ref` fields in memory, and what the destructors called by `FreeCommands` of
    src/dawn_native/Commands.cpp give up. */
module CommandReferences {
  import opened Wrappers
  import opened CopyValidation
  import opened CommandValidation
  import S = StateTracker
  import opened CommandEncoding

  datatype Reference = BufferRef(buffer: nat) | TextureRef(texture: nat) | InfoRef(info: RenderPass) | PipelineRef(pipeline: S.Pipeline) | GroupRef(group: Group)

  // ----- Memory -----

  /** The `Ref` objects in the structure of a command, in the order of their declaration, and in the data
      behind it. */
  datatype Stored = Stored(number: nat, fields: seq<Option<Reference>>, data: seq<Option<Reference>>)

  /** The declarations in src/dawn_native/Commands.h: how many `Ref` fields a structure has, with those of
      the locations in it. */
  function RefFields(number: nat): nat {
    if number == BEGIN_RENDER_PASS then 1
    else if number in {COPY_BUFFER_TO_BUFFER, COPY_BUFFER_TO_TEXTURE, COPY_TEXTURE_TO_BUFFER} then 2
    else if number in {SET_COMPUTE_PIPELINE, SET_RENDER_PIPELINE, SET_BIND_GROUP, SET_INDEX_BUFFER} then 1
    else 0
  }

  function Nulls(n: nat): (s: seq<Option<Reference>>)
    ensures |s| == n
  {
    if n == 0 then [] else Nulls(n - 1) + [None]
  }

  /** The references that `Ref` objects hold. */
  function Held(refs: seq<Option<Reference>>): multiset<Reference> {
    if refs == [] then multiset{} else Held(refs[..|refs| - 1]) + One(refs[|refs| - 1])
  }

  function One(o: Option<Reference>): multiset<Reference> {
    if o.None? then multiset{} else multiset{o.value}
  }

  function InMemory(s: Stored): multiset<Reference> {
    Held(s.fields) + Held(s.data)
  }

  function AllInMemory(memory: seq<Stored>): multiset<Reference> {
    if memory == [] then multiset{} else AllInMemory(memory[..|memory| - 1]) + InMemory(memory[|memory| - 1])
  }

  lemma HeldOneMore(refs: seq<Option<Reference>>, o: Option<Reference>)
    ensures Held(refs + [o]) == Held(refs) + One(o)
  {
    assert (refs + [o])[..|refs|] == refs;
  }

  // ----- What a command names -----

  function BufferRefs(buffers: seq<nat>): multiset<Reference> {
    if buffers == [] then multiset{} else BufferRefs(buffers[..|buffers| - 1]) + multiset{BufferRef(buffers[|buffers| - 1])}
  }

  /** The resources in the arguments of a recording method. */
  function Named(c: Command): multiset<Reference> {
    match c
    case BeginRenderPass(info) => multiset{InfoRef(info)}
    case CopyBufferToBuffer(copy) => multiset{BufferRef(copy.source.buffer), BufferRef(copy.destination.buffer)}
    case CopyBufferToTexture(copy) => multiset{BufferRef(copy.buffer.buffer), TextureRef(copy.texture.texture)}
    case CopyTextureToBuffer(copy) => multiset{TextureRef(copy.texture.texture), BufferRef(copy.buffer.buffer)}
    case SetComputePipeline(p) => multiset{PipelineRef(p)}
    case SetRenderPipeline(p) => multiset{PipelineRef(p)}
    case SetBindGroup(_, group) => multiset{GroupRef(group)}
    case SetIndexBuffer(buffer) => multiset{BufferRef(buffer)}
    case SetVertexBuffers(_, buffers) => BufferRefs(buffers)
    case _ => multiset{}
  }

  function AllNamed(cmds: seq<Command>): multiset<Reference> {
    if cmds == [] then multiset{} else AllNamed(cmds[..|cmds| - 1]) + Named(cmds[|cmds| - 1])
  }

  // ----- Recording and freeing -----

  /** The switch in `FreeCommands` has a case for every command, which calls the destructor of its
      structure. */
  predicate IsDestroyed(number: nat) { number <= SET_VERTEX_BUFFERS }

  /** Structures have the fields that are declared, and only vertex buffers have references behind them. */
  predicate Laid(s: Stored) {
    IsDestroyed(s.number) && |s.fields| == RefFields(s.number) && (s.number != SET_VERTEX_BUFFERS ==> s.data == [])
  }

  /** Taking away in steps what was counted. */
  lemma Remaining(before: multiset<Reference>, now: multiset<Reference>, gone: multiset<Reference>, next: multiset<Reference>)
    requires before == now + gone && gone + next <= before
    ensures next <= now && before == (now - next) + (gone + next)
  {
    forall x ensures next[x] <= now[x] {
      assert (gone + next)[x] <= before[x] && before[x] == (now + gone)[x];
    }
  }

  lemma {:induction false} HeldPrefix(refs: seq<Option<Reference>>, i: nat)
    requires i <= |refs|
    ensures Held(refs[..i]) <= Held(refs)
  {
    if i < |refs| {
      var rest := refs[..|refs| - 1];
      assert rest[..i] == refs[..i];
      HeldPrefix(rest, i);
    } else {
      assert refs[..i] == refs;
    }
  }

  lemma {:induction false} MemoryPrefix(memory: seq<Stored>, i: nat)
    requires i <= |memory|
    ensures AllInMemory(memory[..i]) <= AllInMemory(memory)
  {
    hide InMemory;
    if i < |memory| {
      var rest := memory[..|memory| - 1];
      assert rest[..i] == memory[..i];
      MemoryPrefix(rest, i);
    } else {
      assert memory[..i] == memory;
    }
  }

  lemma HeldOne(a: Option<Reference>)
    ensures Held([a]) == One(a)
  {
    HeldOneMore([], a);
    assert [] + [a] == [a];
  }

  lemma HeldTwo(a: Option<Reference>, b: Option<Reference>)
    ensures Held([a, b]) == One(a) + One(b)
  {
    HeldOne(a);
    HeldOneMore([a], b);
    assert [a] + [b] == [a, b];
  }

  /** The structure right after construction. */
  function Constructed(number: nat): Stored {
    Stored(number, Nulls(RefFields(number)), [])
  }

  lemma FieldsOf(number: nat)
    ensures RefFields(number) == 0 ==> Constructed(number).fields == []
    ensures RefFields(number) == 1 ==> Constructed(number).fields == [None]
    ensures RefFields(number) == 2 ==> Constructed(number).fields == [None, None]
  {
    hide RefFields;
    var n := RefFields(number);
    if 0 < n <= 2 { assert Nulls(n) == Nulls(n - 1) + [None]; }
    if n == 2 { assert Nulls(n - 1) == Nulls(n - 2) + [None]; }
  }

  lemma TwoOf(all: multiset<Reference>, a: Reference, b: Reference)
    ensures all + multiset{a} + multiset{b} == all + multiset{a, b}
  {
  }

  lemma FieldCounts()
    ensures RefFields(BEGIN_RENDER_PASS) == RefFields(SET_COMPUTE_PIPELINE) == RefFields(SET_RENDER_PIPELINE) == 1
    ensures RefFields(SET_BIND_GROUP) == RefFields(SET_INDEX_BUFFER) == 1
    ensures RefFields(COPY_BUFFER_TO_BUFFER) == RefFields(COPY_BUFFER_TO_TEXTURE) == RefFields(COPY_TEXTURE_TO_BUFFER) == 2
    ensures RefFields(SET_VERTEX_BUFFERS) == 0
  {
  }

  /** The other commands have no `Ref` fields and name nothing. */
  lemma NothingNamed(c: Command)
    requires !c.BeginRenderPass? && !c.CopyBufferToBuffer? && !c.CopyBufferToTexture? && !c.CopyTextureToBuffer?
    requires !c.SetComputePipeline? && !c.SetRenderPipeline? && !c.SetBindGroup? && !c.SetIndexBuffer? && !c.SetVertexBuffers?
    ensures Laid(Constructed(Number(c))) && InMemory(Constructed(Number(c))) == Named(c) == multiset{}
  {
    FieldsOf(Number(c));
    NothingBehind();
  }

  lemma JustData(data: seq<Option<Reference>>)
    ensures var s := Constructed(SET_VERTEX_BUFFERS).(data := data); Laid(s) && InMemory(s) == Held(data)
  {
    FieldsOf(SET_VERTEX_BUFFERS);
    NothingBehind();
  }

  /** The internal references that exist. */
  class ReferenceCounts {
    var counts: multiset<Reference>

    /** Assignment to a `Ref` in memory: the new target gains a reference and the old one loses it. */
    method Assign(s: Stored, i: nat, target: Reference) returns (s': Stored)
      requires i < |s.fields| && (s.fields[i].Some? ==> s.fields[i].value in counts)
      modifies this
      ensures s' == s.(fields := s.fields[i := Some(target)])
      ensures if s.fields[i].None? then counts == old(counts) + multiset{target}
              else counts + multiset{s.fields[i].value} == old(counts) + multiset{target}
    {
      var former := s.fields[i];
      counts := counts + multiset{target};
      if former.Some? {
        counts := counts - multiset{former.value};
      }
      s' := s.(fields := s.fields[i := Some(target)]);
    }

    /** A command with one reference. */
    method RecordOne(number: nat, target: Reference) returns (s: Stored)
      requires RefFields(number) == 1 && IsDestroyed(number)
      modifies this
      ensures Laid(s) && InMemory(s) == multiset{target} && counts == old(counts) + multiset{target}
    {
      FieldsOf(number);
      s := Assign(Constructed(number), 0, target);
      HeldOne(Some(target));
      NothingBehind();
    }

    /** A command with two. */
    method RecordTwo(number: nat, first: Reference, second: Reference) returns (s: Stored)
      requires RefFields(number) == 2 && IsDestroyed(number)
      modifies this
      ensures Laid(s) && InMemory(s) == multiset{first, second} && counts == old(counts) + multiset{first, second}
    {
      FieldsOf(number);
      s := Assign(Constructed(number), 0, first);
      s := Assign(s, 1, second);
      assert s.fields == [Some(first), Some(second)];
      TwoOf(old(counts), first, second);
      HeldTwo(Some(first), Some(second));
      NothingBehind();
    }

    /** The loop of `SetVertexBuffers` that constructs a reference to each buffer. */
    method ConstructBuffers(buffers: seq<nat>) returns (data: seq<Option<Reference>>)
      modifies this
      ensures counts == old(counts) + BufferRefs(buffers) && Held(data) == BufferRefs(buffers)
    {
      data := [];
      var i := 0;
      while i < |buffers|
        invariant i <= |buffers| && counts == old(counts) + BufferRefs(buffers[..i]) && Held(data) == BufferRefs(buffers[..i])
      {
        var target := BufferRef(buffers[i]);
        assert buffers[..i + 1][..i] == buffers[..i];
        HeldOneMore(data, Some(target));
        counts := counts + multiset{target};
        data := data + [Some(target)];
        i := i + 1;
      }
      assert buffers[..i] == buffers;
    }

    /** A recording method: constructs the structure and assigns its fields. */
    method Record(c: Command) returns (s: Stored)
      modifies this
      ensures Laid(s) && InMemory(s) == Named(c) && counts == old(counts) + Named(c)
    {
      hide Held, BufferRefs, Nulls, RefFields, InMemory, Laid;
      FieldCounts();
      match c {
        case CopyBufferToBuffer(copy) =>
          s := RecordTwo(COPY_BUFFER_TO_BUFFER, BufferRef(copy.source.buffer), BufferRef(copy.destination.buffer));
        case CopyBufferToTexture(copy) =>
          s := RecordTwo(COPY_BUFFER_TO_TEXTURE, BufferRef(copy.buffer.buffer), TextureRef(copy.texture.texture));
        case CopyTextureToBuffer(copy) =>
          s := RecordTwo(COPY_TEXTURE_TO_BUFFER, TextureRef(copy.texture.texture), BufferRef(copy.buffer.buffer));
        case _ => s := RecordOther(c);
      }
    }

    method RecordOther(c: Command) returns (s: Stored)
      requires !c.CopyBufferToBuffer? && !c.CopyBufferToTexture? && !c.CopyTextureToBuffer?
      modifies this
      ensures Laid(s) && InMemory(s) == Named(c) && counts == old(counts) + Named(c)
    {
      hide Held, BufferRefs, Nulls, RefFields, InMemory, Laid;
      FieldCounts();
      match c {
        case BeginRenderPass(info) => s := RecordOne(BEGIN_RENDER_PASS, InfoRef(info));
        case SetComputePipeline(pipeline) => s := RecordOne(SET_COMPUTE_PIPELINE, PipelineRef(pipeline));
        case SetRenderPipeline(pipeline) => s := RecordOne(SET_RENDER_PIPELINE, PipelineRef(pipeline));
        case SetBindGroup(_, group) => s := RecordOne(SET_BIND_GROUP, GroupRef(group));
        case SetIndexBuffer(buffer) => s := RecordOne(SET_INDEX_BUFFER, BufferRef(buffer));
        case SetVertexBuffers(_, buffers) =>
          var data := ConstructBuffers(buffers);
          s := Constructed(SET_VERTEX_BUFFERS).(data := data);
          JustData(data);
        case _ =>
          NothingNamed(c);
          s := Constructed(Number(c));
      }
    }

    method RecordAll(cmds: seq<Command>) returns (memory: seq<Stored>)
      modifies this
      ensures |memory| == |cmds| && (forall s | s in memory :: Laid(s))
      ensures counts == old(counts) + AllNamed(cmds) && AllInMemory(memory) == AllNamed(cmds)
    {
      hide Named, InMemory, Laid;
      memory := [];
      var i := 0;
      while i < |cmds|
        invariant i <= |cmds| && |memory| == i && (forall s | s in memory :: Laid(s))
        invariant counts == old(counts) + AllNamed(cmds[..i]) && AllInMemory(memory) == AllNamed(cmds[..i])
      {
        var s := Record(cmds[i]);
        assert cmds[..i + 1][..i] == cmds[..i] && (memory + [s])[..i] == memory;
        memory := memory + [s];
        i := i + 1;
      }
      assert cmds[..i] == cmds;
    }

    /** Destructors of `Ref` objects, one after the other. */
    method DestroyRefs(refs: seq<Option<Reference>>)
      requires Held(refs) <= counts
      modifies this
      ensures old(counts) == counts + Held(refs)
    {
      hide One;
      var i := 0;
      while i < |refs|
        invariant i <= |refs| && old(counts) == counts + Held(refs[..i])
      {
        assert refs[..i + 1][..i] == refs[..i];
        HeldPrefix(refs, i + 1);
        Remaining(old(counts), counts, Held(refs[..i]), One(refs[i]));
        counts := counts - One(refs[i]);
        i := i + 1;
      }
      assert refs[..i] == refs;
    }

    /** The case of `FreeCommands` for an id: the destructor of the structure, and for vertex buffers those
        of the references behind it. */
    method Free(s: Stored)
      requires Laid(s) && InMemory(s) <= counts
      modifies this
      ensures old(counts) == counts + InMemory(s)
    {
      hide Held;
      NothingBehind();
      Remaining(counts, counts, multiset{}, Held(s.data));
      if s.number == SET_VERTEX_BUFFERS {
        DestroyRefs(s.data);
      }
      Remaining(old(counts), counts, Held(s.data), Held(s.fields));
      if IsDestroyed(s.number) {
        DestroyRefs(s.fields);
      }
    }

    method FreeCommands(memory: seq<Stored>)
      requires (forall s | s in memory :: Laid(s)) && AllInMemory(memory) <= counts
      modifies this
      ensures old(counts) == counts + AllInMemory(memory)
    {
      hide InMemory, Laid;
      var i := 0;
      while i < |memory|
        invariant i <= |memory| && old(counts) == counts + AllInMemory(memory[..i])
      {
        assert memory[..i + 1][..i] == memory[..i];
        MemoryPrefix(memory, i + 1);
        Remaining(old(counts), counts, AllInMemory(memory[..i]), InMemory(memory[i]));
        Free(memory[i]);
        i := i + 1;
      }
      assert memory[..i] == memory;
    }
  }

  lemma NothingBehind()
    ensures Held([]) == multiset{}
  {
  }

  /** Recording a stream references exactly what its commands name, and freeing it gives all of that up. */
  method RecordAndFree(references: ReferenceCounts, cmds: seq<Command>)
    modifies references
    ensures references.counts == old(references.counts)
  {
    var memory := references.RecordAll(cmds);
    assert AllInMemory(memory) <= references.counts;
    references.FreeCommands(memory);
    SameAgain(references.counts, old(references.counts), AllNamed(cmds));
  }

  lemma SameAgain(a: multiset<Reference>, b: multiset<Reference>, c: multiset<Reference>)
    requires a + c == b + c
    ensures a == b
  {
    forall x ensures a[x] == b[x] {
      assert (a + c)[x] == (b + c)[x];
    }
  }
}
