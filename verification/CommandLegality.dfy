/** What validation in src/dawn_native/CommandBuffer.cpp accepts, said in terms of the commands, the
    usages and sizes resources were created with, and unbounded arithmetic. */
module CommandLegality {
  import opened Wrappers
  import opened BitMath
  import opened BitSetIteration
  import opened PassUsage
  import opened CopyValidation
  import opened CommandValidation
  import S = StateTracker

  // ----- Copies -----

  /** Both ranges end inside their buffers. */
  predicate BufferCopyLegal(copy: BufferCopy, r: Resources) {
    && copy.source.offset + copy.size <= r.bufferSize(copy.source.buffer)
    && copy.destination.offset + copy.size <= r.bufferSize(copy.destination.buffer)
    && BufferTransferSrc in r.created.bufferUsage(copy.source.buffer)
    && BufferTransferDst in r.created.bufferUsage(copy.destination.buffer)
  }

  /** The bytes the source counts for a copy, with the last row in texels: it keeps 32 bits of them. */
  function CountedBytes(copy: TextureCopy): int {
    (copy.rowPitch * (copy.texture.height - 1) + copy.texture.width) % 0x1_0000_0000
  }

  /** The rectangle ends inside the mip level, the counted bytes end inside the buffer, and the row pitch
      is large enough for what 32 bits hold of a row. */
  predicate TextureCopyLegal(copy: TextureCopy, toTexture: bool, r: Resources) {
    var t, info := copy.texture, r.texture(copy.texture.texture);
    && t.level < info.mipLevels && t.slice < info.arrayLayers && t.z == 0 && t.depth == 1
    && t.x + t.width <= info.width / Pow2(t.level) && t.y + t.height <= info.height / Pow2(t.level)
    && copy.rowPitch % 256 == 0 && t.width * info.texelSize % 0x1_0000_0000 <= copy.rowPitch
    && copy.buffer.offset % info.texelSize == 0
    && copy.buffer.offset + CountedBytes(copy) <= r.bufferSize(copy.buffer.buffer)
    && (if toTexture then BufferTransferSrc else BufferTransferDst) in r.created.bufferUsage(copy.buffer.buffer)
    && (if toTexture then TextureTransferDst else TextureTransferSrc) in r.created.textureUsage(copy.texture.texture)
  }

  predicate CopyLegal(c: Command, r: Resources) {
    match c
    case CopyBufferToBuffer(copy) => BufferCopyLegal(copy, r)
    case CopyBufferToTexture(copy) => TextureCopyLegal(copy, true, r)
    case CopyTextureToBuffer(copy) => TextureCopyLegal(copy, false, r)
    case _ => false
  }

  lemma {:induction false} ShiftIsDivision(n: nat, amount: nat)
    ensures ShiftRight(n, amount) == n / Pow2(amount)
    decreases amount
  {
    if amount > 0 {
      ShiftIsDivision(n / 2, amount - 1);
      HalvesQuotient(n, amount);
    }
  }

  /** Keeping 32 bits of a factor keeps 32 bits of the sum. */
  lemma CountedIs(copy: TextureCopy)
    requires copy.texture.depth == 1
    ensures TextureCopyBufferSize(copy.texture, copy.rowPitch) == CountedBytes(copy)
  {
    var p: int, h: int, w: int := copy.rowPitch, copy.texture.height, copy.texture.width;
    if h == 0 {
      assert Wrap(h - 1) == WORD - 1;
      assert p * (WORD - 1) == WORD * p - p;
      assert p * (h - 1) == -p;
      SameRest(p * (WORD - 1), p * (h - 1), p);
    } else {
      assert Wrap(h - 1) == h - 1;
    }
    SumRest(p * (h - 1), w);
  }

  lemma SameRest(a: int, b: int, k: int)
    requires a == b + WORD * k
    ensures a % WORD == b % WORD
  {
  }

  lemma SumRest(a: int, b: int)
    ensures (a % WORD + b) % WORD == (a + b) % WORD
  {
  }

  lemma CopyLegalExactly(c: Command, r: Resources)
    ensures ValidCopy(c, r) <==> CopyLegal(c, r)
  {
    hide ShiftRight, TextureCopyBufferSize, CountedBytes, Pow2;
    if c.CopyBufferToTexture? || c.CopyTextureToBuffer? {
      var t, info := c.textureCopy.texture, r.texture(c.textureCopy.texture.texture);
      ShiftIsDivision(info.width, t.level);
      ShiftIsDivision(info.height, t.level);
      if t.depth == 1 { CountedIs(c.textureCopy); }
    }
  }

  /** A copy by itself is accepted exactly when it is legal. */
  lemma CopyAcceptedExactly(c: Command, r: Resources)
    requires c.CopyBufferToBuffer? || c.CopyBufferToTexture? || c.CopyTextureToBuffer?
    ensures ValidateCommands([c], r) == if CopyLegal(c, r) then Success([]) else Failure
  {
    hide ValidCopy, CopyLegal;
    CopyLegalExactly(c, r);
    assert [c][1..] == [];
  }

  // ----- What an accepted copy touches -----

  /** The bytes between the first texel of a copy and the end of its last one. */
  function TouchedBytes(copy: TextureCopy, texelSize: TexelSize): int {
    copy.rowPitch * (copy.texture.height - 1) + copy.texture.width * texelSize
  }

  /** The offset and the counted bytes are accepted for a buffer of a size, which the copy reaches past. */
  predicate Overruns(copy: TextureCopy, texelSize: TexelSize, size: uint32) {
    && copy.buffer.offset % texelSize == 0 && copy.buffer.offset + CountedBytes(copy) <= size
    && copy.buffer.offset + TouchedBytes(copy, texelSize) > size
  }

  /** A copy of a rectangle can reach past an accepted buffer if and only if texels have more than one byte
      or the counted bytes wrap around. */
  lemma OverrunsExactly(buffer: nat, texture: TextureLocation, rowPitch: uint32, texelSize: TexelSize)
    requires texture.width > 0 && texture.height > 0
    ensures (exists offset: uint32, size: uint32 :: Overruns(TextureCopy(BufferLocation(buffer, offset), texture, rowPitch), texelSize, size))
            <==> texelSize > 1 || rowPitch * (texture.height - 1) + texture.width >= 0x1_0000_0000
  {
    var copy := TextureCopy(BufferLocation(buffer, 0), texture, rowPitch);
    MoreThanCounted(copy, texelSize);
    if texelSize > 1 || rowPitch * (texture.height - 1) + texture.width >= 0x1_0000_0000 {
      assert Overruns(copy, texelSize, CountedBytes(copy));
    } else {
      forall offset: uint32, size: uint32
        ensures !Overruns(TextureCopy(BufferLocation(buffer, offset), texture, rowPitch), texelSize, size)
      {
        MoreThanCounted(TextureCopy(BufferLocation(buffer, offset), texture, rowPitch), texelSize);
      }
    }
  }

  lemma MoreThanCounted(copy: TextureCopy, texelSize: TexelSize)
    requires copy.texture.width > 0 && copy.texture.height > 0
    ensures var sum := copy.rowPitch * (copy.texture.height - 1) + copy.texture.width;
            && sum >= 0 && CountedBytes(copy) <= TouchedBytes(copy, texelSize)
            && (CountedBytes(copy) == TouchedBytes(copy, texelSize) <==> texelSize == 1 && sum < 0x1_0000_0000)
  {
    var rows := copy.rowPitch * (copy.texture.height - 1);
    assert rows >= 0;
    RestIsLess(rows, copy.texture.width, texelSize);
  }

  lemma RestIsLess(rows: nat, width: nat, texelSize: TexelSize)
    requires width > 0
    ensures (rows + width) % 0x1_0000_0000 <= rows + width * texelSize
    ensures (rows + width) % 0x1_0000_0000 == rows + width * texelSize <==> texelSize == 1 && rows + width < 0x1_0000_0000
  {
    assert width * texelSize == if texelSize == 1 then width else if texelSize == 2 then 2 * width
                                else if texelSize == 4 then 4 * width else 8 * width;
  }

  /** Two texels of four bytes are copied to a buffer of two bytes. */
  lemma AcceptedCopyOverruns(r: Resources)
    requires r.texture(0) == TextureInfo(2, 1, 1, 1, 4) && r.bufferSize(0) == 2
    requires BufferTransferDst in r.created.bufferUsage(0) && TextureTransferSrc in r.created.textureUsage(0)
    ensures var copy := TextureCopy(BufferLocation(0, 0), TextureLocation(0, 0, 0, 0, 2, 1, 1, 0, 0), 256);
            ValidateCommands([CopyTextureToBuffer(copy)], r) == Success([]) && Overruns(copy, 4, 2)
  {
    hide ValidateCommands;
    var copy := TextureCopy(BufferLocation(0, 0), TextureLocation(0, 0, 0, 0, 2, 1, 1, 0, 0), 256);
    assert Pow2(0) == 1;
    CopyAcceptedExactly(CopyTextureToBuffer(copy), r);
  }

  // ----- What a pass may hold -----

  predicate Draws(c: Command) { c.DrawArrays? || c.DrawElements? }

  predicate IsCopyCommand(c: Command) { c.CopyBufferToBuffer? || c.CopyBufferToTexture? || c.CopyTextureToBuffer? }

  predicate BoundsPass(c: Command) { c.BeginComputePass? || c.BeginRenderPass? || c.EndComputePass? || c.EndRenderPass? }

  predicate RenderOnly(c: Command) {
    || Draws(c) || c.SetRenderPipeline? || c.SetStencilReference? || c.SetScissorRect? || c.SetBlendColor?
    || c.SetIndexBuffer? || c.SetVertexBuffers?
  }

  /** Passes do not nest and hold no copies. Compute passes hold nothing of render passes and the other
      way around, constants are for the stages there are, and render pipelines are for the attachments. */
  predicate Belongs(kind: Kind, c: Command) {
    && !BoundsPass(c) && !IsCopyCommand(c)
    && match kind
       case ComputeKind =>
         !RenderOnly(c) && (c.SetPushConstants? ==> VertexStage !in c.stages && FragmentStage !in c.stages)
       case RenderKind(info) =>
         && !c.Dispatch? && !c.SetComputePipeline?
         && (c.SetRenderPipeline? ==> c.pipeline.attachmentState == info.attachmentState)
         && (c.SetPushConstants? ==> ComputeStage !in c.stages)
  }

  lemma BelongsExactly(kind: Kind, c: Command)
    ensures Belongs(kind, c) <==> kind.Holds(c)
  {
    if c.SetPushConstants? {
      assert forall x | x in c.stages :: x == VertexStage || x == FragmentStage || x == ComputeStage;
    }
  }

  // ----- What a draw or dispatch needs -----

  predicate Works(c: Command) { c.Dispatch? || Draws(c) }

  predicate Pipes(c: Command) { c.SetComputePipeline? || c.SetRenderPipeline? }

  /** The pipeline set last. */
  function PipelineSet(before: seq<Command>): Option<S.Pipeline> {
    if before == [] then None
    else
      var last := before[|before| - 1];
      if Pipes(last) then Some(last.pipeline) else PipelineSet(before[..|before| - 1])
  }

  /** The layout of the group set last at an index. */
  function LayoutSet(before: seq<Command>, i: nat): Option<nat> {
    if before == [] then None
    else
      var last := before[|before| - 1];
      if last.SetBindGroup? && last.index == i then Some(last.group.layout) else LayoutSet(before[..|before| - 1], i)
  }

  /** Something was drawn or dispatched with the pipeline set last. */
  predicate Worked(before: seq<Command>) {
    before != [] && (var last := before[|before| - 1]; Works(last) || (!Pipes(last) && Worked(before[..|before| - 1])))
  }

  /** A pipeline; for draws, vertex buffers in a range with each of its inputs; for indexed draws, an index
      buffer; and the groups of its layout, unless something was drawn or dispatched with it before. */
  predicate HasWhatItNeeds(before: seq<Command>, c: Command) {
    && PipelineSet(before).Some?
    && (Draws(c) ==> forall input | input in PipelineSet(before).value.inputs :: BuffersAt(before, input))
    && (c.DrawElements? ==> exists x | x in before :: x.SetIndexBuffer?)
    && (Worked(before)
        || forall i | 0 <= i < S.MAX_BIND_GROUPS ::
             PipelineSet(before).value.layout[i].Some? ==> LayoutSet(before, i) == PipelineSet(before).value.layout[i])
  }

  predicate BuffersAt(before: seq<Command>, input: nat) {
    exists x | x in before :: x.SetVertexBuffers? && x.startSlot <= input < x.startSlot + |x.buffers|
  }

  /** What the history of the state tracker says, from the commands. */
  ghost predicate Tells(f: S.Facts, kind: Kind, before: seq<Command>) {
    && f.layout == (match PipelineSet(before) case None => None case Some(p) => Some(p.layout))
    && (kind.RenderKind? ==> f.renderInputs == (match PipelineSet(before) case None => None case Some(p) => Some(p.inputs)))
    && (forall i | 0 <= i < S.MAX_BIND_GROUPS :: f.groups[i] == LayoutSet(before, i))
    && (forall input: nat :: S.InputSet(f, input) <==> BuffersAt(before, input))
    && (f.indexSet <==> exists x | x in before :: x.SetIndexBuffer?)
    && (f.matched.Some? <==> Worked(before))
  }

  lemma NeedsExactly(f: S.Facts, kind: Kind, before: seq<Command>, c: Command)
    requires Tells(f, kind, before) && Works(c) && kind.Holds(c)
    ensures S.InPlace(f, Event(c)[0].op) <==> HasWhatItNeeds(before, c)
  {
    hide S.InputSet, BuffersAt, Worked;
    if PipelineSet(before).Some? {
      var layout := PipelineSet(before).value.layout;
      if S.GroupsMatch(layout, f.groups) {
        forall i | 0 <= i < S.MAX_BIND_GROUPS && layout[i].Some? ensures LayoutSet(before, i) == layout[i] {
          assert f.groups[i] == layout[i];
        }
      }
      if forall i | 0 <= i < S.MAX_BIND_GROUPS :: layout[i].Some? ==> LayoutSet(before, i) == layout[i] {
        forall i | 0 <= i < S.MAX_BIND_GROUPS && layout[i].Some? ensures f.groups[i] == layout[i] {
          assert LayoutSet(before, i) == layout[i];
        }
      }
    }
  }

  lemma OneMoreSet(before: seq<Command>, c: Command)
    ensures PipelineSet(before + [c]) == if Pipes(c) then Some(c.pipeline) else PipelineSet(before)
    ensures forall i: nat :: LayoutSet(before + [c], i)
                             == if c.SetBindGroup? && c.index == i then Some(c.group.layout) else LayoutSet(before, i)
    ensures Worked(before + [c]) <==> Works(c) || (!Pipes(c) && Worked(before))
    ensures forall input: nat :: BuffersAt(before + [c], input) <==>
              BuffersAt(before, input) || (c.SetVertexBuffers? && c.startSlot <= input < c.startSlot + |c.buffers|)
    ensures (exists x | x in before + [c] :: x.SetIndexBuffer?) <==> c.SetIndexBuffer? || exists x | x in before :: x.SetIndexBuffer?
  {
    assert (before + [c])[..|before|] == before;
    assert forall x :: x in before + [c] <==> x in before || x == c;
  }

  function Remember(f: S.Facts, c: Command): S.Facts {
    if Event(c) == [] then f else S.Record(f, Event(c)[0])
  }

  /** A command that is ready is remembered as what it is. */
  lemma TellsOneMore(f: S.Facts, kind: Kind, before: seq<Command>, c: Command)
    requires Tells(f, kind, before) && kind.Holds(c) && (Works(c) ==> S.InPlace(f, Event(c)[0].op))
    ensures Tells(Remember(f, c), kind, before + [c])
  {
    hide PipelineSet, LayoutSet, Worked, BuffersAt;
    var f' := Remember(f, c);
    OneMoreSet(before, c);
    forall input: nat ensures S.InputSet(f', input) <==> BuffersAt(before + [c], input) {
      RangesAfter(f, c, input);
    }
  }

  lemma RangesAfter(f: S.Facts, c: Command, input: nat)
    ensures S.InputSet(Remember(f, c), input) <==>
            S.InputSet(f, input) || (c.SetVertexBuffers? && c.startSlot <= input < c.startSlot + |c.buffers|)
  {
    if c.SetVertexBuffers? {
      var f' := Remember(f, c);
      assert (c.startSlot, |c.buffers|) in f'.vertexBuffers;
      assert forall x :: x in f'.vertexBuffers <==> x in f.vertexBuffers || x == (c.startSlot, |c.buffers|);
    }
  }

  lemma HistoryOneMore(before: seq<Command>, c: Command)
    ensures S.History(S.NOTHING_SET, AllEvents(before + [c])) == Remember(S.History(S.NOTHING_SET, AllEvents(before)), c)
  {
    AllEventsAppend(before, c);
    HistoryJoin(S.NOTHING_SET, AllEvents(before), Event(c));
    var f := S.History(S.NOTHING_SET, AllEvents(before));
    if Event(c) != [] {
      assert Event(c)[1..] == [];
      assert S.History(f, Event(c)) == S.History(S.Record(f, Event(c)[0]), []);
    }
  }

  lemma {:induction false} HistoryJoin(f: S.Facts, a: seq<S.Event>, b: seq<S.Event>)
    requires (forall e | e in a :: S.InRange(e)) && (forall e | e in b :: S.InRange(e))
    ensures S.History(f, a + b) == S.History(S.History(f, a), b)
    decreases |a|
  {
    if a == [] {
      assert a + b == b;
    } else {
      assert (a + b)[1..] == a[1..] + b;
      HistoryJoin(S.Record(f, a[0]), a[1..], b);
    }
  }

  /** A command is in its pass, has what it needs, and sets no vertex slot that does not exist. */
  predicate CommandLegal(kind: Kind, before: seq<Command>, c: Command) {
    && Belongs(kind, c) && (Works(c) ==> HasWhatItNeeds(before, c))
    && (c.SetVertexBuffers? && c.buffers != [] ==> c.startSlot + |c.buffers| <= 16)
  }

  predicate HeldAndReady(kind: Kind, body: seq<Command>, n: nat)
    requires n <= |body|
  {
    forall i :: 0 <= i < n ==> kind.Holds(body[i]) && Ready(body[..i], body[i])
  }

  predicate AllLegal(kind: Kind, body: seq<Command>, n: nat)
    requires n <= |body|
  {
    forall i :: 0 <= i < n ==> CommandLegal(kind, body[..i], body[i])
  }

  lemma ReadyExactly(kind: Kind, before: seq<Command>, c: Command)
    requires Tells(S.History(S.NOTHING_SET, AllEvents(before)), kind, before)
    ensures kind.Holds(c) && Ready(before, c) <==> CommandLegal(kind, before, c)
  {
    hide Tells, S.InPlace, S.History, HasWhatItNeeds, Kind.Holds, Belongs;
    BelongsExactly(kind, c);
    if kind.Holds(c) && Works(c) {
      NeedsExactly(S.History(S.NOTHING_SET, AllEvents(before)), kind, before, c);
    }
  }

  lemma {:induction false} BodyLegalUpTo(kind: Kind, body: seq<Command>, n: nat)
    requires n <= |body|
    ensures HeldAndReady(kind, body, n) <==> AllLegal(kind, body, n)
    ensures HeldAndReady(kind, body, n) ==> Tells(S.History(S.NOTHING_SET, AllEvents(body[..n])), kind, body[..n])
  {
    hide Tells, S.History, CommandLegal, Ready, Kind.Holds;
    if n == 0 {
      TellsNothing(kind);
      assert body[..0] == [];
    } else {
      BodyLegalUpTo(kind, body, n - 1);
      if HeldAndReady(kind, body, n - 1) {
        var before, c := body[..n - 1], body[n - 1];
        ReadyExactly(kind, before, c);
        assert body[..n] == before + [c];
        if kind.Holds(c) && Ready(before, c) {
          HistoryOneMore(before, c);
          ReadyInPlace(before, c);
          TellsOneMore(S.History(S.NOTHING_SET, AllEvents(before)), kind, before, c);
        }
      }
    }
  }

  lemma ReadyInPlace(before: seq<Command>, c: Command)
    requires Ready(before, c)
    ensures Works(c) ==> S.InPlace(S.History(S.NOTHING_SET, AllEvents(before)), Event(c)[0].op)
  {
  }

  lemma TellsNothing(kind: Kind)
    ensures Tells(S.History(S.NOTHING_SET, AllEvents([])), kind, [])
  {
  }

  // ----- How a pass uses resources -----

  predicate Binds(body: seq<Command>, b: Binding) {
    exists c | c in body :: c.SetBindGroup? && b in c.group.bindings
  }

  predicate SetsIndexBuffer(body: seq<Command>, buffer: nat) { Command.SetIndexBuffer(buffer) in body }

  predicate SetsVertexBuffer(body: seq<Command>, buffer: nat) {
    exists c | c in body :: c.SetVertexBuffers? && buffer in c.buffers
  }

  predicate Attaches(kind: Kind, texture: nat) { kind.RenderKind? && texture in kind.info.attachments }

  /** How often a group, and the groups set in a pass, have a storage buffer. */
  function Occurrences(bindings: seq<Binding>, buffer: nat): nat {
    if bindings == [] then 0
    else Occurrences(bindings[1..], buffer) + (if bindings[0] == StorageBuffer(buffer) then 1 else 0)
  }

  function StorageBindings(body: seq<Command>, buffer: nat): nat {
    if body == [] then 0
    else StorageBindings(body[1..], buffer) + (if body[0].SetBindGroup? then Occurrences(body[0].group.bindings, buffer) else 0)
  }

  /** Some buffer is bound as storage twice. */
  ghost predicate BindsTwice(body: seq<Command>) {
    exists b: nat :: StorageBindings(body, b) >= 2
  }

  /** A buffer was created with the usages a pass makes of it; bound as storage, it is used in no other
      way. */
  predicate BufferLegal(body: seq<Command>, created: Created, b: nat) {
    && (Binds(body, UniformBuffer(b)) ==> Uniform in created.bufferUsage(b))
    && (Binds(body, StorageBuffer(b)) ==> BufferStorage in created.bufferUsage(b))
    && (SetsIndexBuffer(body, b) ==> Index in created.bufferUsage(b))
    && (SetsVertexBuffer(body, b) ==> Vertex in created.bufferUsage(b))
    && (Binds(body, StorageBuffer(b)) ==>
          !Binds(body, UniformBuffer(b)) && !SetsIndexBuffer(body, b) && !SetsVertexBuffer(body, b))
  }

  /** So was a texture, which is sampled or an attachment and not both. */
  predicate TextureLegal(kind: Kind, body: seq<Command>, created: Created, x: nat) {
    && (Binds(body, SampledTexture(x)) ==> Sampled in created.textureUsage(x))
    && (Attaches(kind, x) ==> OutputAttachment in created.textureUsage(x))
    && !(Binds(body, SampledTexture(x)) && Attaches(kind, x))
  }

  /** In a compute pass no storage buffer is bound twice. */
  ghost predicate ResourcesLegal(kind: Kind, body: seq<Command>, created: Created) {
    && (forall b: nat :: BufferLegal(body, created, b))
    && (forall x: nat :: TextureLegal(kind, body, created, x))
    && (kind.ComputeKind? ==> !BindsTwice(body))
  }

  /** The pass uses the resource in this way. */
  predicate UsesBuffer(body: seq<Command>, b: nat, bit: BufferBit) {
    match bit
    case Uniform => Binds(body, UniformBuffer(b))
    case BufferStorage => Binds(body, StorageBuffer(b))
    case Index => SetsIndexBuffer(body, b)
    case Vertex => SetsVertexBuffer(body, b)
    case _ => false
  }

  predicate UsesTexture(kind: Kind, body: seq<Command>, x: nat, bit: TextureBit) {
    match bit
    case Sampled => Binds(body, SampledTexture(x))
    case OutputAttachment => Attaches(kind, x)
    case _ => false
  }

  ghost predicate ListsUses(uses: seq<Use>, kind: Kind, body: seq<Command>) {
    && (forall b: nat, bit :: BufferUsedAs(b, bit) in uses <==> UsesBuffer(body, b, bit))
    && (forall x: nat, bit :: TextureUsedAs(x, bit) in uses <==> UsesTexture(kind, body, x, bit))
    && (forall b: nat :: multiset(uses)[BufferUsedAs(b, BufferStorage)] == StorageBindings(body, b))
  }

  lemma {:induction false} BindingUsesAre(bindings: seq<Binding>)
    ensures forall b: nat :: BufferUsedAs(b, Uniform) in BindingUses(bindings) <==> UniformBuffer(b) in bindings
    ensures forall b: nat :: BufferUsedAs(b, BufferStorage) in BindingUses(bindings) <==> StorageBuffer(b) in bindings
    ensures forall b: nat, bit :: BufferUsedAs(b, bit) in BindingUses(bindings) ==> bit == Uniform || bit == BufferStorage
    ensures forall x: nat, bit :: TextureUsedAs(x, bit) in BindingUses(bindings) <==> bit == Sampled && SampledTexture(x) in bindings
    ensures forall b: nat :: multiset(BindingUses(bindings))[BufferUsedAs(b, BufferStorage)] == Occurrences(bindings, b)
  {
    if bindings != [] {
      var one, others := BindingUse(bindings[0]), BindingUses(bindings[1..]);
      BindingUsesAre(bindings[1..]);
      assert bindings == [bindings[0]] + bindings[1..];
      assert forall u :: u in one + others <==> u in one || u in others;
      assert multiset(one + others) == multiset(one) + multiset(others);
    }
  }

  lemma {:induction false} VertexUsesAre(buffers: seq<nat>)
    ensures forall u :: u in VertexUses(buffers) <==> u.BufferUsedAs? && u.bufferBit == Vertex && u.buffer in buffers
  {
    if buffers != [] {
      VertexUsesAre(buffers[1..]);
      assert buffers == [buffers[0]] + buffers[1..];
    }
  }

  lemma {:induction false} AttachmentUsesAre(textures: seq<nat>)
    ensures forall u :: u in AttachmentUses(textures) <==> u.TextureUsedAs? && u.textureBit == OutputAttachment && u.texture in textures
  {
    if textures != [] {
      AttachmentUsesAre(textures[1..]);
      assert textures == [textures[0]] + textures[1..];
    }
  }

  lemma {:induction false} AllUsesAre(kind: Kind, body: seq<Command>)
    ensures forall b: nat :: BufferUsedAs(b, Uniform) in AllUses(body) <==> Binds(body, UniformBuffer(b))
    ensures forall b: nat :: BufferUsedAs(b, BufferStorage) in AllUses(body) <==> Binds(body, StorageBuffer(b))
    ensures forall b: nat :: BufferUsedAs(b, Index) in AllUses(body) <==> SetsIndexBuffer(body, b)
    ensures forall b: nat :: BufferUsedAs(b, Vertex) in AllUses(body) <==> SetsVertexBuffer(body, b)
    ensures forall b: nat, bit :: BufferUsedAs(b, bit) in AllUses(body) ==> bit in {Uniform, BufferStorage, Index, Vertex}
    ensures forall x: nat, bit :: TextureUsedAs(x, bit) in AllUses(body) <==> bit == Sampled && Binds(body, SampledTexture(x))
    ensures forall b: nat :: multiset(AllUses(body))[BufferUsedAs(b, BufferStorage)] == StorageBindings(body, b)
  {
    hide BindingUses, VertexUses, Occurrences;
    if body != [] {
      var c, rest := body[0], body[1..];
      AllUsesAre(kind, rest);
      UsesAre(c);
      assert body == [c] + rest;
      assert forall u :: u in Uses(c) + AllUses(rest) <==> u in Uses(c) || u in AllUses(rest);
      assert multiset(Uses(c) + AllUses(rest)) == multiset(Uses(c)) + multiset(AllUses(rest));
      assert forall x: Binding :: Binds(body, x) <==> (c.SetBindGroup? && x in c.group.bindings) || Binds(rest, x);
    }
  }

  lemma UsesAre(c: Command)
    ensures forall b: nat :: BufferUsedAs(b, Uniform) in Uses(c) <==> c.SetBindGroup? && UniformBuffer(b) in c.group.bindings
    ensures forall b: nat :: BufferUsedAs(b, BufferStorage) in Uses(c) <==> c.SetBindGroup? && StorageBuffer(b) in c.group.bindings
    ensures forall b: nat :: BufferUsedAs(b, Index) in Uses(c) <==> c == Command.SetIndexBuffer(b)
    ensures forall b: nat :: BufferUsedAs(b, Vertex) in Uses(c) <==> c.SetVertexBuffers? && b in c.buffers
    ensures forall b: nat, bit :: BufferUsedAs(b, bit) in Uses(c) ==> bit in {Uniform, BufferStorage, Index, Vertex}
    ensures forall x: nat, bit :: TextureUsedAs(x, bit) in Uses(c) <==>
              bit == Sampled && c.SetBindGroup? && SampledTexture(x) in c.group.bindings
    ensures forall b: nat :: multiset(Uses(c))[BufferUsedAs(b, BufferStorage)]
                             == if c.SetBindGroup? then Occurrences(c.group.bindings, b) else 0
  {
    match c {
      case SetBindGroup(_, group) => BindingUsesAre(group.bindings);
      case SetVertexBuffers(_, buffers) =>
        VertexUsesAre(buffers);
        forall b: nat ensures multiset(Uses(c))[BufferUsedAs(b, BufferStorage)] == 0 {
          assert BufferUsedAs(b, BufferStorage) !in VertexUses(buffers);
        }
      case _ =>
    }
  }

  lemma PassUsesAre(kind: Kind, body: seq<Command>)
    ensures ListsUses(PassUses(kind, body), kind, body)
  {
    hide AttachmentUses, AllUses, Binds, SetsVertexBuffer, SetsIndexBuffer, StorageBindings;
    var attachments, others := kind.Attachments(), AllUses(body);
    AllUsesAre(kind, body);
    if kind.RenderKind? { AttachmentUsesAre(kind.info.attachments); }
    assert forall u :: u in attachments + others <==> u in attachments || u in others;
    assert multiset(attachments + others) == multiset(attachments) + multiset(others);
    forall b: nat ensures multiset(attachments)[BufferUsedAs(b, BufferStorage)] == 0 {
      assert BufferUsedAs(b, BufferStorage) !in attachments;
    }
  }

  /** The uses of a pass are legal exactly when its resources are. */
  lemma ResourcesLegalExactly(kind: Kind, body: seq<Command>, created: Created)
    ensures Legal(PassUses(kind, body), kind.Type(), created) <==> ResourcesLegal(kind, body, created)
  {
    hide Binds, SetsVertexBuffer, SetsIndexBuffer, BindsTwice, PassUses, BufferBits, TextureBits, Repeats, Attaches;
    var uses := PassUses(kind, body);
    PassUsesAre(kind, body);
    forall b: nat ensures BufferFine(created, b, BufferBits(uses, b)) <==> BufferLegal(body, created, b) {
      BufferLegalExactly(uses, kind, body, created, b);
    }
    forall x: nat ensures TextureFine(created, x, TextureBits(uses, x)) <==> TextureLegal(kind, body, created, x) {
      TextureLegalExactly(uses, kind, body, created, x);
    }
    RepeatsExactly(uses, kind, body);
    assert kind.Type() == Compute <==> kind.ComputeKind?;
  }

  lemma BufferLegalExactly(uses: seq<Use>, kind: Kind, body: seq<Command>, created: Created, b: nat)
    requires ListsUses(uses, kind, body)
    ensures BufferFine(created, b, BufferBits(uses, b)) <==> BufferLegal(body, created, b)
  {
    hide Binds, SetsVertexBuffer, SetsIndexBuffer, StorageBindings;
    var mask := BufferBits(uses, b);
    forall bit ensures bit in mask <==> UsesBuffer(body, b, bit) {
      assert bit in mask <==> BufferUsedAs(b, bit) in uses;
    }
    assert Uniform in mask <==> UsesBuffer(body, b, Uniform);
    assert BufferStorage in mask <==> UsesBuffer(body, b, BufferStorage);
    assert Index in mask <==> UsesBuffer(body, b, Index);
    assert Vertex in mask <==> UsesBuffer(body, b, Vertex);
    Single(mask, BufferStorage);
  }

  lemma TextureLegalExactly(uses: seq<Use>, kind: Kind, body: seq<Command>, created: Created, x: nat)
    requires ListsUses(uses, kind, body)
    ensures TextureFine(created, x, TextureBits(uses, x)) <==> TextureLegal(kind, body, created, x)
  {
    hide Binds, StorageBindings, Attaches;
    var mask := TextureBits(uses, x);
    forall bit ensures bit in mask <==> UsesTexture(kind, body, x, bit) {
      assert bit in mask <==> TextureUsedAs(x, bit) in uses;
    }
    assert Sampled in mask <==> UsesTexture(kind, body, x, Sampled);
    assert OutputAttachment in mask <==> UsesTexture(kind, body, x, OutputAttachment);
    Single(mask, Sampled);
    Single(mask, OutputAttachment);
  }

  /** At most one, with one that is there or may be. */
  lemma Single<T>(mask: set<T>, x: T)
    ensures x in mask ==> (|mask| <= 1 <==> mask == {x})
    ensures mask <= {x} ==> |mask| <= 1
  {
    if x in mask {
      assert mask == (mask - {x}) + {x};
    }
    if mask <= {x} {
      assert mask == {} || mask == {x};
    }
  }

  lemma RepeatsExactly(uses: seq<Use>, kind: Kind, body: seq<Command>)
    requires ListsUses(uses, kind, body)
    ensures Repeats(uses) <==> BindsTwice(body)
  {
    hide Binds, SetsVertexBuffer, SetsIndexBuffer, StorageBindings, Attaches;
    if Repeats(uses) {
      var use :| use in uses && IsStorage(use) && multiset(uses)[use] >= 2;
      assert use.BufferUsedAs?;
      assert StorageBindings(body, use.buffer) >= 2;
    }
    if BindsTwice(body) {
      var b: nat :| StorageBindings(body, b) >= 2;
      assert multiset(uses)[BufferUsedAs(b, BufferStorage)] >= 2;
      assert BufferUsedAs(b, BufferStorage) in uses && IsStorage(BufferUsedAs(b, BufferStorage));
    }
  }

  // ----- The records of passes -----

  /** For each resource the record has the usages the pass makes of it, and no others. */
  ghost predicate Records(t: Tracker, kind: Kind, body: seq<Command>) {
    && (forall b: nat :: b in t.buffers ==> t.buffers[b] != {})
    && (forall b: nat, bit :: bit in BufferMask(t, b) <==> UsesBuffer(body, b, bit))
    && (forall x: nat :: x in t.textures ==> t.textures[x] != {})
    && (forall x: nat, bit :: bit in TextureMask(t, x) <==> UsesTexture(kind, body, x, bit))
    && (t.storageTwice <==> BindsTwice(body))
  }

  lemma RecordIs(kind: Kind, body: seq<Command>)
    ensures Records(TrackAll(EMPTY, PassUses(kind, body)), kind, body)
  {
    hide Binds, SetsVertexBuffer, SetsIndexBuffer, BindsTwice, Attaches, PassUses, TrackAll, Repeats;
    var uses, t := PassUses(kind, body), TrackAll(EMPTY, PassUses(kind, body));
    PassUsesAre(kind, body);
    TrackedIsSummary(uses);
    RepeatsExactly(uses, kind, body);
    forall b: nat, bit ensures bit in BufferMask(t, b) <==> UsesBuffer(body, b, bit) {
      assert BufferMask(t, b) == BufferBits(uses, b);
      assert bit in BufferBits(uses, b) <==> BufferUsedAs(b, bit) in uses;
    }
    forall x: nat, bit ensures bit in TextureMask(t, x) <==> UsesTexture(kind, body, x, bit) {
      assert TextureMask(t, x) == TextureBits(uses, x);
      assert bit in TextureBits(uses, x) <==> TextureUsedAs(x, bit) in uses;
    }
    forall b: nat | b in t.buffers ensures t.buffers[b] != {} { assert BufferMask(t, b) == BufferBits(uses, b); }
    forall x: nat | x in t.textures ensures t.textures[x] != {} { assert TextureMask(t, x) == TextureBits(uses, x); }
  }

  lemma RecordsDetermine(t: Tracker, t': Tracker, kind: Kind, body: seq<Command>)
    requires Records(t, kind, body) && Records(t', kind, body)
    ensures t == t'
  {
    hide Binds, SetsVertexBuffer, SetsIndexBuffer, StorageBindings, Attaches;
    forall b: nat ensures BufferMask(t, b) == BufferMask(t', b) {
      assert forall bit :: bit in BufferMask(t, b) <==> bit in BufferMask(t', b);
    }
    forall x: nat ensures TextureMask(t, x) == TextureMask(t', x) {
      assert forall bit :: bit in TextureMask(t, x) <==> bit in TextureMask(t', x);
    }
    SameMaps(t, t');
  }

  lemma SameMaps(t: Tracker, t': Tracker)
    requires (forall b: nat :: b in t.buffers ==> t.buffers[b] != {}) && (forall b: nat :: b in t'.buffers ==> t'.buffers[b] != {})
    requires (forall x: nat :: x in t.textures ==> t.textures[x] != {}) && (forall x: nat :: x in t'.textures ==> t'.textures[x] != {})
    requires (forall b: nat :: BufferMask(t, b) == BufferMask(t', b)) && (forall x: nat :: TextureMask(t, x) == TextureMask(t', x))
    ensures t.buffers == t'.buffers && t.textures == t'.textures
  {
    forall b: nat ensures (b in t.buffers <==> b in t'.buffers) && (b in t.buffers ==> t.buffers[b] == t'.buffers[b]) {
      assert BufferMask(t, b) == BufferMask(t', b);
    }
    forall x: nat ensures (x in t.textures <==> x in t'.textures) && (x in t.textures ==> t.textures[x] == t'.textures[x]) {
      assert TextureMask(t, x) == TextureMask(t', x);
    }
  }

  // ----- Streams -----

  /** A copy, or a pass from its first to its last command. */
  function PartCommands(s: Segment): seq<Command> {
    match s
    case CopySegment(c) => [c]
    case PassSegment(kind, body) =>
      match kind
      case ComputeKind => [BeginComputePass] + (body + [EndComputePass])
      case RenderKind(info) => [BeginRenderPass(info)] + (body + [EndRenderPass])
  }

  function StreamOf(segments: seq<Segment>): seq<Command> {
    if segments == [] then [] else PartCommands(segments[0]) + StreamOf(segments[1..])
  }

  ghost predicate PartLegal(s: Segment, r: Resources) {
    match s
    case CopySegment(c) => CopyLegal(c, r)
    case PassSegment(kind, body) =>
      (forall i :: 0 <= i < |body| ==> CommandLegal(kind, body[..i], body[i])) && ResourcesLegal(kind, body, r.created)
  }

  /** One record for each pass, in order. */
  ghost predicate RecordsAre(segments: seq<Segment>, usages: seq<Tracker>) {
    if segments == [] then usages == []
    else
      match segments[0]
      case CopySegment(_) => RecordsAre(segments[1..], usages)
      case PassSegment(kind, body) => usages != [] && Records(usages[0], kind, body) && RecordsAre(segments[1..], usages[1..])
  }

  lemma {:induction false} StreamIs(segments: seq<Segment>)
    ensures StreamOf(segments) == Flatten(segments)
  {
    if segments != [] {
      StreamIs(segments[1..]);
    }
  }

  lemma PartLegalExactly(s: Segment, r: Resources)
    ensures LegalSegment(s, r) <==> PartLegal(s, r)
  {
    hide Legal, ResourcesLegal, CommandLegal, Ready, Kind.Holds, PassUses, ValidCopy, CopyLegal;
    match s {
      case CopySegment(c) => CopyLegalExactly(c, r);
      case PassSegment(kind, body) =>
        BodyLegalUpTo(kind, body, |body|);
        ResourcesLegalExactly(kind, body, r.created);
    }
  }

  lemma {:induction false} RecordsAreExactly(segments: seq<Segment>, usages: seq<Tracker>)
    ensures RecordsAre(segments, usages) <==> usages == PassUsages(segments)
    decreases |segments|
  {
    hide Records, TrackAll, PassUses;
    if segments != [] {
      match segments[0] {
        case CopySegment(_) =>
          RecordsAreExactly(segments[1..], usages);
          assert PassUsages(segments) == PassUsages(segments[1..]);
        case PassSegment(kind, body) =>
          var t := TrackAll(EMPTY, PassUses(kind, body));
          RecordIs(kind, body);
          assert PassUsages(segments) == [t] + PassUsages(segments[1..]);
          if usages != [] {
            assert usages == [usages[0]] + usages[1..];
            RecordsAreExactly(segments[1..], usages[1..]);
            if Records(usages[0], kind, body) { RecordsDetermine(usages[0], t, kind, body); }
          }
      }
    }
  }

  /** A stream is accepted with some records exactly when it is a sequence of legal copies and of legal
      passes from their first to their last command, and the records are those of its passes in order. */
  lemma StreamAcceptedExactly(cmds: seq<Command>, usages: seq<Tracker>, r: Resources)
    ensures ValidateCommands(cmds, r) == Success(usages) <==>
            exists segments: seq<Segment> ::
              StreamOf(segments) == cmds && (forall s | s in segments :: PartLegal(s, r)) && RecordsAre(segments, usages)
  {
    hide PartLegal, LegalSegment, RecordsAre, ValidateCommands;
    AcceptedExactly(cmds, usages, r);
    if ValidateCommands(cmds, r) == Success(usages) {
      var segments: seq<Segment> :| Flatten(segments) == cmds && LegalSegments(segments, r) && PassUsages(segments) == usages;
      StreamIs(segments);
      RecordsAreExactly(segments, usages);
      forall s | s in segments ensures PartLegal(s, r) { PartLegalExactly(s, r); }
    }
    forall segments: seq<Segment> |
      StreamOf(segments) == cmds && (forall s | s in segments :: PartLegal(s, r)) && RecordsAre(segments, usages)
      ensures Flatten(segments) == cmds && LegalSegments(segments, r) && PassUsages(segments) == usages
    {
      StreamIs(segments);
      RecordsAreExactly(segments, usages);
      forall s | s in segments ensures LegalSegment(s, r) { PartLegalExactly(s, r); }
    }
  }
}
