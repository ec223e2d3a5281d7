/** How the recording methods of src/dawn_native/CommandBuffer.cpp lay out a command stream: which ids
    and payloads they allocate for each command, and what they write there. */
module CommandEncoding {
  import opened Wrappers
  import opened Bytes
  import opened CopyValidation
  import opened CommandValidation
  import A = CommandAllocation
  import opened CommandRuns
  import opened CommandMemory

  // ----- Numbers of commands -----

  /** The enumeration in src/dawn_native/Commands.h. */
  const BEGIN_COMPUTE_PASS: nat := 0
  const BEGIN_RENDER_PASS: nat := 1
  const COPY_BUFFER_TO_BUFFER: nat := 2
  const COPY_BUFFER_TO_TEXTURE: nat := 3
  const COPY_TEXTURE_TO_BUFFER: nat := 4
  const DISPATCH: nat := 5
  const DRAW_ARRAYS: nat := 6
  const DRAW_ELEMENTS: nat := 7
  const END_COMPUTE_PASS: nat := 8
  const END_RENDER_PASS: nat := 9
  const SET_COMPUTE_PIPELINE: nat := 10
  const SET_RENDER_PIPELINE: nat := 11
  const SET_PUSH_CONSTANTS: nat := 12
  const SET_STENCIL_REFERENCE: nat := 13
  const SET_SCISSOR_RECT: nat := 14
  const SET_BLEND_COLOR: nat := 15
  const SET_BIND_GROUP: nat := 16
  const SET_INDEX_BUFFER: nat := 17
  const SET_VERTEX_BUFFERS: nat := 18

  /** The id a recording method passes to the allocator. */
  function Number(c: Command): nat {
    match c
    case BeginComputePass => BEGIN_COMPUTE_PASS
    case BeginRenderPass(_) => BEGIN_RENDER_PASS
    case CopyBufferToBuffer(_) => COPY_BUFFER_TO_BUFFER
    case CopyBufferToTexture(_) => COPY_BUFFER_TO_TEXTURE
    case CopyTextureToBuffer(_) => COPY_TEXTURE_TO_BUFFER
    case Dispatch => DISPATCH
    case DrawArrays => DRAW_ARRAYS
    case DrawElements => DRAW_ELEMENTS
    case EndComputePass => END_COMPUTE_PASS
    case EndRenderPass => END_RENDER_PASS
    case SetComputePipeline(_) => SET_COMPUTE_PIPELINE
    case SetRenderPipeline(_) => SET_RENDER_PIPELINE
    case SetPushConstants(_, _) => SET_PUSH_CONSTANTS
    case SetStencilReference => SET_STENCIL_REFERENCE
    case SetScissorRect => SET_SCISSOR_RECT
    case SetBlendColor => SET_BLEND_COLOR
    case SetBindGroup(_, _) => SET_BIND_GROUP
    case SetIndexBuffer(_) => SET_INDEX_BUFFER
    case SetVertexBuffers(_, _) => SET_VERTEX_BUFFERS
  }

  // ----- The platform -----

  /** Size and alignment of the structure of each command and of a reference, and where the count is in
      the structures that have one. */
  datatype Abi = Abi(structure: nat -> A.Shape, reference: A.Shape, countAt: nat -> nat) {
    ghost predicate Fits() {
      && (forall n: nat :: A.Aligns(structure(n))) && A.Aligns(reference)
      && countAt(SET_PUSH_CONSTANTS) + 4 <= structure(SET_PUSH_CONSTANTS).size
      && countAt(SET_VERTEX_BUFFERS) + 4 <= structure(SET_VERTEX_BUFFERS).size
    }
  }

  function References(abi: Abi, count: nat): A.Shape {
    A.Shape(abi.reference.size * count, abi.reference.alignment)
  }

  function Words(count: nat): A.Shape {
    A.Shape(4 * count, 4)
  }

  /** The bytes of the fields of a command, of the references and of the words behind it. */
  datatype Contents = Contents(fields: Command -> seq<byte>, references: Command -> seq<byte>, words: Command -> seq<byte>) {
    ghost predicate Fits(abi: Abi) {
      forall c ::
        && |fields(c)| == abi.structure(Number(c)).size
        && |references(c)| == References(abi, Count(c)).size && |words(c)| == Words(Count(c)).size
    }
  }

  // ----- What is recorded -----

  /** One allocation: its id and shape, and the bytes written there. */
  datatype Chunk = Chunk(id: nat, shape: A.Shape, bytes: seq<byte>) {
    predicate Fits() { id < A.END_OF_BLOCK && A.Aligns(shape) && |bytes| == shape.size }
  }

  /** The count of a command that has data behind it. */
  function Count(c: Command): uint32 {
    match c
    case SetPushConstants(_, count) => count
    case SetVertexBuffers(_, buffers) => |buffers|
    case _ => 0
  }

  predicate HasCount(c: Command) {
    c.SetPushConstants? || c.SetVertexBuffers?
  }

  /** The structure of a command, with its count in place. */
  function Structure(c: Command, abi: Abi, k: Contents): seq<byte> {
    var n, fields := Number(c), k.fields(c);
    if HasCount(c) && abi.countAt(n) + 4 <= |fields| then Put(fields, abi.countAt(n), ToBytes(4, Count(c))) else fields
  }

  /** The data behind a command: words for push constants, references and words for vertex buffers. */
  function Data(c: Command, abi: Abi, k: Contents): seq<Chunk> {
    match c
    case SetPushConstants(_, count) => [Chunk(A.ADDITIONAL_DATA, Words(count), k.words(c))]
    case SetVertexBuffers(_, buffers) =>
      [Chunk(A.ADDITIONAL_DATA, References(abi, |buffers|), k.references(c)), Chunk(A.ADDITIONAL_DATA, Words(|buffers|), k.words(c))]
    case _ => []
  }

  function Chunks(c: Command, abi: Abi, k: Contents): seq<Chunk> {
    [Chunk(Number(c), abi.structure(Number(c)), Structure(c, abi, k))] + Data(c, abi, k)
  }

  function AllChunks(cmds: seq<Command>, abi: Abi, k: Contents): seq<Chunk> {
    if cmds == [] then [] else Chunks(cmds[0], abi, k) + AllChunks(cmds[1..], abi, k)
  }

  lemma {:induction false} ChunksFit(cmds: seq<Command>, abi: Abi, k: Contents)
    requires abi.Fits() && k.Fits(abi)
    ensures forall x | x in AllChunks(cmds, abi, k) :: x.Fits()
  {
    if cmds != [] {
      ChunksFit(cmds[1..], abi, k);
      assert forall x | x in Chunks(cmds[0], abi, k) :: x.Fits();
    }
  }

  // ----- Recording as a run of the allocator -----

  /** Each chunk is allocated and then written, as the items of the log from `n` on. */
  function Operations(chunks: seq<Chunk>, n: nat): seq<Op> {
    if chunks == [] then []
    else [Op.Record(chunks[0].id, chunks[0].shape), Fill(n, 0, chunks[0].bytes)] + Operations(chunks[1..], n + 1)
  }

  /** The log ends with the chunks. */
  predicate EndsWith(log: Log, n: nat, chunks: seq<Chunk>) {
    && |log.items| == |log.contents| == n + |chunks|
    && forall j | 0 <= j < |chunks| ::
         && log.items[n + j].found.id == chunks[j].id && log.items[n + j].shape == chunks[j].shape
         && log.contents[n + j] == chunks[j].bytes
  }

  predicate Extends(log: Log, log': Log) {
    && |log.items| <= |log'.items| && |log.contents| <= |log'.contents|
    && log'.items[..|log.items|] == log.items && log'.contents[..|log.contents|] == log.contents
  }

  /** Recording one chunk, if the allocation succeeds. */
  lemma RecordsChunk(x: Chunk, s: A.State, log: Log, malloc: A.Malloc)
    requires Good(s, log) && x.Fits() && A.Allocate(s, x.id, x.shape, malloc).0.Some?
    ensures var (s1, log1) := Apply(Op.Record(x.id, x.shape), s, log, malloc);
            var fill := Fill(|log.items|, 0, x.bytes);
            && Good(s1, log1) && Allowed(fill, log1)
            && var (s2, log2) := Apply(fill, s1, log1, malloc);
               Good(s2, log2) && Extends(log, log2) && EndsWith(log2, |log.items|, [x])
  {
    hide Good, A.Records, A.Allocate, HasPayload;
    RecordKeepsGood(s, log, x.id, x.shape, malloc);
    var (s1, log1) := Apply(Op.Record(x.id, x.shape), s, log, malloc);
    RecordedOne(x, s, log, malloc);
    FillKeepsGood(s1, log1, |log.items|, 0, x.bytes, malloc);
    PutAll(log1.contents[|log.items|], x.bytes);
  }

  lemma RecordedOne(x: Chunk, s: A.State, log: Log, malloc: A.Malloc)
    requires Good(s, log) && x.Fits() && A.Allocate(s, x.id, x.shape, malloc).0.Some?
    ensures var (s1, log1) := Apply(Op.Record(x.id, x.shape), s, log, malloc);
            && Extends(log, log1) && |log1.items| == |log1.contents| == |log.items| + 1 && |log.contents| == |log.items|
            && log1.items[|log.items|].found.id == x.id && log1.items[|log.items|].shape == x.shape
            && |log1.contents[|log.items|]| == x.shape.size
  {
    hide A.Records, A.Allocate;
    GoodLengths(s, log);
    AllocateRecords(s, log.items, x.id, x.shape, malloc);
    var (address, s') := A.Allocate(s, x.id, x.shape, malloc);
    RecordedIsCovered(s', log.items, Recorded(s', x.id, address.value, x.shape));
  }

  lemma PutAll(before: seq<byte>, bytes: seq<byte>)
    requires |before| == |bytes|
    ensures Put(before, 0, bytes) == bytes
  {
  }

  /** A failed allocation leaves nothing to write to. */
  lemma FailedChunk(x: Chunk, s: A.State, log: Log, malloc: A.Malloc)
    requires Good(s, log) && x.Fits() && A.Allocate(s, x.id, x.shape, malloc).0.None?
    ensures !Allowed(Fill(|log.items|, 0, x.bytes), Apply(Op.Record(x.id, x.shape), s, log, malloc).1)
  {
  }

  /** A run that records chunks leaves them in the log, in order, with their bytes. */
  lemma {:induction false} RunRecords(chunks: seq<Chunk>, s: A.State, log: Log, malloc: A.Malloc)
    requires Good(s, log) && (forall x | x in chunks :: x.Fits())
    requires Run(Operations(chunks, |log.items|), s, log, malloc).Some?
    ensures var log' := Run(Operations(chunks, |log.items|), s, log, malloc).value.1;
            Extends(log, log') && EndsWith(log', |log.items|, chunks)
    decreases |chunks|
  {
    hide Good, A.Allocate, Apply;
    if chunks == [] {
      GoodLengths(s, log);
    } else {
      var x, n := chunks[0], |log.items|;
      var ops := Operations(chunks, n);
      assert ops[1..][0] == Fill(n, 0, x.bytes) && ops[1..][1..] == Operations(chunks[1..], n + 1);
      GoodLengths(s, log);
      ApplyKeepsGood(ops[0], s, log, malloc);
      if A.Allocate(s, x.id, x.shape, malloc).0.None? {
        FailedChunk(x, s, log, malloc);
        assert false;
      }
      RecordsChunk(x, s, log, malloc);
      var (s1, log1) := Apply(ops[0], s, log, malloc);
      var (s2, log2) := Apply(ops[1], s1, log1, malloc);
      assert Run(ops, s, log, malloc) == Run(ops[1..], s1, log1, malloc) == Run(ops[1..][1..], s2, log2, malloc);
      assert |log2.items| == n + 1;
      RunRecords(chunks[1..], s2, log2, malloc);
      var log' := Run(ops, s, log, malloc).value.1;
      Joined(log, log2, log', x, chunks);
    }
  }

  lemma GoodLengths(s: A.State, log: Log)
    requires Good(s, log)
    ensures |log.contents| == |log.items| && A.Valid(s)
  {
  }

  lemma Joined(log: Log, log2: Log, log': Log, x: Chunk, chunks: seq<Chunk>)
    requires chunks != [] && x == chunks[0] && |log.contents| == |log.items|
    requires Extends(log, log2) && EndsWith(log2, |log.items|, [x])
    requires Extends(log2, log') && EndsWith(log', |log2.items|, chunks[1..])
    ensures Extends(log, log') && EndsWith(log', |log.items|, chunks)
  {
    var n := |log.items|;
    assert log'.items[..n] == log'.items[..|log2.items|][..n] && log'.contents[..n] == log'.contents[..|log2.contents|][..n];
    assert log2.items[..n] == log.items && log2.contents[..n] == log.contents;
    assert log'.items[n] == log'.items[..|log2.items|][n] && log'.contents[n] == log'.contents[..|log2.contents|][n];
    assert [x][0] == x && log2.items[n].found.id == x.id && log2.contents[n] == x.bytes;
    forall j | 0 < j < |chunks|
      ensures && log'.items[n + j].found.id == chunks[j].id && log'.items[n + j].shape == chunks[j].shape
              && log'.contents[n + j] == chunks[j].bytes
    {
      assert chunks[j] == chunks[1..][j - 1] && n + j == |log2.items| + (j - 1);
    }
  }

  /** Recording commands in an empty allocator leaves exactly their chunks. */
  lemma CommandsAreRecorded(cmds: seq<Command>, abi: Abi, k: Contents, dummy: A.Block, malloc: A.Malloc)
    requires abi.Fits() && k.Fits(abi) && IsDummy(dummy)
    requires Run(Operations(AllChunks(cmds, abi, k), 0), A.Initial(dummy), Log([], []), malloc).Some?
    ensures EndsWith(Run(Operations(AllChunks(cmds, abi, k), 0), A.Initial(dummy), Log([], []), malloc).value.1, 0, AllChunks(cmds, abi, k))
  {
    ChunksFit(cmds, abi, k);
    RunRecords(AllChunks(cmds, abi, k), A.Initial(dummy), Log([], []), malloc);
  }

  // ----- Recording with an allocator -----

  /** Allocates a chunk and writes it. */
  method RecordChunk(allocator: CommandAllocator, x: Chunk, ghost log: Log) returns (ok: bool, ghost log': Log)
    requires allocator.Valid() && !allocator.blocksAcquired && Good(allocator.Value(), log) && x.Fits()
    modifies allocator
    ensures allocator.Valid() && !allocator.blocksAcquired && Good(allocator.Value(), log')
    ensures if ok then Extends(log, log') && EndsWith(log', |log.items|, [x]) else log' == log
  {
    hide Good, A.Allocate, A.Records, A.Valid, HasPayload;
    ghost var before := allocator.Value();
    GoodLengths(before, log);
    RecordKeepsGood(before, log, x.id, x.shape, allocator.malloc);
    var address := allocator.Allocate(x.id, x.shape.size, x.shape.alignment);
    if address.None? {
      return false, log;
    }
    RecordsChunk(x, before, log, allocator.malloc);
    ghost var (s1, log1) := Apply(Op.Record(x.id, x.shape), before, log, allocator.malloc);
    InTop(x, before, log, allocator.malloc);
    allocator.StoreBytes(address.value, x.bytes);
    ghost var (s2, log2) := Apply(Fill(|log.items|, 0, x.bytes), s1, log1, allocator.malloc);
    ok, log' := true, log2;
  }

  /** What was just allocated is in the last block. */
  lemma InTop(x: Chunk, s: A.State, log: Log, malloc: A.Malloc)
    requires Good(s, log) && x.Fits() && A.Allocate(s, x.id, x.shape, malloc).0.Some?
    ensures var (address, s1) := A.Allocate(s, x.id, x.shape, malloc);
            var log1 := Apply(Op.Record(x.id, x.shape), s, log, malloc).1;
            && s1 == Apply(Op.Record(x.id, x.shape), s, log, malloc).0 && s1.blocks != []
            && |log1.items| == |log.items| + 1
            && log1.items[|log.items|] == Recorded(s1, x.id, address.value, x.shape) && Covered(s1.blocks, log1.items[|log.items|])
  {
    hide A.Allocate, A.Records;
    GoodLengths(s, log);
    AllocateRecords(s, log.items, x.id, x.shape, malloc);
    var (address, s1) := A.Allocate(s, x.id, x.shape, malloc);
    RecordedIsCovered(s1, log.items, Recorded(s1, x.id, address.value, x.shape));
  }

  /** The recording methods, one command after the other. */
  method RecordCommands(allocator: CommandAllocator, cmds: seq<Command>, abi: Abi, k: Contents, ghost log: Log)
    returns (ok: bool, ghost log': Log)
    requires abi.Fits() && k.Fits(abi)
    requires allocator.Valid() && !allocator.blocksAcquired && Good(allocator.Value(), log)
    modifies allocator
    ensures allocator.Valid() && !allocator.blocksAcquired && Good(allocator.Value(), log')
    ensures Extends(log, log') && (ok ==> EndsWith(log', |log.items|, AllChunks(cmds, abi, k)))
  {
    hide Good, Chunks, A.Valid, Extends, EndsWith;
    GoodLengths(allocator.Value(), log);
    NothingMore(log);
    ghost var all := AllChunks(cmds, abi, k);
    ghost var done: seq<Chunk> := [];
    ChunksFit(cmds, abi, k);
    log' := log;
    var i := 0;
    assert cmds[0..] == cmds;
    while i < |cmds|
      invariant i <= |cmds| && allocator.Valid() && !allocator.blocksAcquired && Good(allocator.Value(), log')
      invariant Extends(log, log') && EndsWith(log', |log.items|, done)
      invariant done + AllChunks(cmds[i..], abi, k) == all
    {
      var chunks := Chunks(cmds[i], abi, k);
      assert cmds[i..][1..] == cmds[i + 1..];
      ghost var rest := AllChunks(cmds[i + 1..], abi, k);
      var j := 0;
      assert chunks[0..] == chunks;
      while j < |chunks|
        invariant j <= |chunks| && allocator.Valid() && !allocator.blocksAcquired && Good(allocator.Value(), log')
        invariant Extends(log, log') && EndsWith(log', |log.items|, done)
        invariant done + (chunks[j..] + rest) == all
      {
        ghost var before := log';
        var x := chunks[j];
        assert all[|done|] == x && x in all;
        ok, log' := RecordChunk(allocator, x, before);
        if !ok {
          return;
        }
        OneMoreChunk(log, before, log', done, x);
        assert chunks[j..] == [x] + chunks[j + 1..];
        assert done + ([x] + chunks[j + 1..] + rest) == done + [x] + (chunks[j + 1..] + rest);
        done := done + [x];
        j := j + 1;
      }
      assert chunks[j..] + rest == rest;
      i := i + 1;
    }
    assert cmds[i..] == [] && done == all;
    ok := true;
  }

  lemma NothingMore(log: Log)
    requires |log.contents| == |log.items|
    ensures Extends(log, log) && EndsWith(log, |log.items|, [])
  {
  }

  lemma OneMoreChunk(log: Log, before: Log, log': Log, done: seq<Chunk>, x: Chunk)
    requires |log.contents| == |log.items| && Extends(log, before) && EndsWith(before, |log.items|, done)
    requires Extends(before, log') && EndsWith(log', |before.items|, [x])
    ensures Extends(log, log') && EndsWith(log', |log.items|, done + [x])
  {
    var n, m := |log.items|, |before.items|;
    assert log'.items[..n] == log'.items[..m][..n] && log'.contents[..n] == log'.contents[..m][..n];
    assert before.items[..n] == log.items && before.contents[..n] == log.contents;
    forall j | 0 <= j < |done| + 1
      ensures var y := (done + [x])[j];
              log'.items[n + j].found.id == y.id && log'.items[n + j].shape == y.shape && log'.contents[n + j] == y.bytes
    {
      if j < |done| {
        assert (done + [x])[j] == done[j] && n + j < m;
        assert log'.items[n + j] == log'.items[..m][n + j] && log'.contents[n + j] == log'.contents[..m][n + j];
      } else {
        assert [x][0] == x && (done + [x])[j] == x && n + j == m;
        assert log'.items[m + 0].found.id == [x][0].id;
      }
    }
  }
}
