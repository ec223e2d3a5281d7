/** The readers of a recorded command stream: `SkipCommand` and `FreeCommands` of
    src/dawn_native/Commands.cpp, the validator of src/dawn_native/CommandBuffer.cpp and the D3D12 replay.
    Each reads ids and counts from memory and follows them. */
module CommandReaders {
  import opened Wrappers
  import opened BitMath
  import opened Bytes
  import opened CopyValidation
  import opened PassUsage
  import opened CommandValidation
  import opened CommandReplay
  import A = CommandAllocation
  import opened CommandRuns
  import opened CommandMemory
  import opened CommandEncoding

  // ----- The iterator in front of what was recorded -----

  /** From the cursor on, the blocks hold exactly the items. */
  predicate At(blocks: seq<A.Block>, c: A.Cursor, items: seq<A.Item>, end: nat) {
    && c.block < |blocks| && A.Trace(blocks, c.block, RoundUp(c.pointer, A.ID_SIZE), items, end)
    && A.Stored(blocks[|blocks| - 1], end, A.END_OF_BLOCK)
  }

  lemma {:induction false} AtItem(blocks: seq<A.Block>, c: A.Cursor, items: seq<A.Item>, end: nat)
    requires At(blocks, c, items, end) && items != []
    ensures A.NextCommandId(blocks, c).NextId?
    ensures var step := A.NextCommandId(blocks, c);
            && step.id == items[0].found.id && step.cursor.block == items[0].found.block < |blocks| && A.Aligns(items[0].shape)
            && var command := A.NextCommand(blocks, step.cursor, items[0].shape);
               command.Some? && command.value.0 == items[0].found.address && At(blocks, command.value.1, items[1..], end)
    decreases |blocks| - c.block
  {
    hide RoundUp, A.Stored, A.ReadId;
    var p := RoundUp(c.pointer, A.ID_SIZE);
    if items[0].found.block == c.block {
      A.ReadsItem(blocks, c, p, items[0]);
    } else {
      A.SkipsTag(blocks, c, p);
      A.StartIsAligned(blocks[c.block + 1]);
      AtItem(blocks, A.Cursor(c.block + 1, A.Start(blocks[c.block + 1])), items, end);
    }
  }

  lemma {:induction false} AtEnd(blocks: seq<A.Block>, c: A.Cursor, end: nat)
    requires At(blocks, c, [], end)
    ensures A.NextCommandId(blocks, c) == A.Finished(A.Reset(blocks))
    decreases |blocks| - c.block
  {
    hide RoundUp, A.Stored, A.ReadId;
    var p := RoundUp(c.pointer, A.ID_SIZE);
    if c.block + 1 < |blocks| {
      A.SkipsTag(blocks, c, p);
      A.StartIsAligned(blocks[c.block + 1]);
      AtEnd(blocks, A.Cursor(c.block + 1, A.Start(blocks[c.block + 1])), end);
    } else {
      A.ReadsStored(blocks[c.block], p, A.END_OF_BLOCK);
    }
  }

  ghost predicate HasPayloads(blocks: seq<A.Block>, log: Log) {
    |log.contents| == |log.items| && forall i :: 0 <= i < |log.items| ==> HasPayload(blocks, log.items[i], log.contents[i])
  }

  /** An iterator made from the blocks of an allocator stands in front of all it recorded. */
  lemma AtStart(s: A.State, log: Log, sentinel: nat) returns (end: nat)
    requires Good(s, log) && sentinel % A.ID_SIZE == 0
    ensures var blocks := A.IteratorBlocks(A.AcquireBlocks(s), sentinel);
            At(blocks, A.Reset(blocks), log.items, end) && HasPayloads(blocks, log)
  {
    var blocks := A.IteratorBlocks(A.AcquireBlocks(s), sentinel);
    TaggedKept(s, A.END_OF_BLOCK);
    A.StartIsAligned(blocks[0]);
    if s.blocks == [] {
      end := sentinel;
      SentinelIsEnd(sentinel);
    } else {
      end := s.current;
      AcquiredTrace(s, log);
    }
  }

  lemma SentinelIsEnd(sentinel: nat)
    requires sentinel % A.ID_SIZE == 0
    ensures var blocks := A.IteratorBlocks([], sentinel);
            RoundUp(A.Start(blocks[0]), A.ID_SIZE) == sentinel && At(blocks, A.Reset(blocks), [], sentinel)
  {
    hide ToBytes;
    var b := A.Block(sentinel, ToBytes(A.ID_SIZE, A.END_OF_BLOCK));
    assert b.data[0..A.ID_SIZE] == b.data;
  }

  // ----- What a reader should see -----

  /** The id of a command and its count, and the bytes of its structure and data. */
  datatype Read = Read(number: nat, count: nat, structure: seq<byte>, data: seq<seq<byte>>)

  function BytesOf(chunks: seq<Chunk>): seq<seq<byte>> {
    if chunks == [] then [] else [chunks[0].bytes] + BytesOf(chunks[1..])
  }

  function ReadOf(c: Command, abi: Abi, k: Contents): Read {
    Read(Number(c), Count(c), Structure(c, abi, k), BytesOf(Data(c, abi, k)))
  }

  function ReadsOf(cmds: seq<Command>, abi: Abi, k: Contents): seq<Read> {
    if cmds == [] then [] else [ReadOf(cmds[0], abi, k)] + ReadsOf(cmds[1..], abi, k)
  }

  lemma {:induction false} OneMoreRead(cmds: seq<Command>, c: Command, abi: Abi, k: Contents)
    ensures ReadsOf(cmds + [c], abi, k) == ReadsOf(cmds, abi, k) + [ReadOf(c, abi, k)]
  {
    if cmds == [] {
      assert cmds + [c] == [c] && [c][1..] == [];
      assert ReadsOf([c], abi, k) == [ReadOf(c, abi, k)] + ReadsOf([], abi, k);
    } else {
      assert (cmds + [c])[1..] == cmds[1..] + [c];
      OneMoreRead(cmds[1..], c, abi, k);
    }
  }

  // ----- Which ids a reader has a case for -----

  datatype Reader = Skipping | Freeing | Validating | Replaying

  /** The loop a reader is in: the outer one, or the one of a pass. */
  datatype Loop = Outer | InCompute | InRender

  /** The switch statements. */
  predicate HasCaseFor(reader: Reader, loop: Loop, id: nat) {
    match reader
    case Skipping => id <= SET_VERTEX_BUFFERS
    case Freeing => id <= SET_VERTEX_BUFFERS
    case Validating =>
      (match loop
       case Outer => IsBegin(id) || IsCopyId(id)
       case InCompute =>
         id in {END_COMPUTE_PASS, DISPATCH, SET_COMPUTE_PIPELINE, SET_PUSH_CONSTANTS, SET_BIND_GROUP}
       case InRender =>
         id in {END_RENDER_PASS, DRAW_ARRAYS, DRAW_ELEMENTS, SET_RENDER_PIPELINE, SET_PUSH_CONSTANTS, SET_STENCIL_REFERENCE,
                SET_BLEND_COLOR, SET_SCISSOR_RECT, SET_BIND_GROUP, SET_INDEX_BUFFER, SET_VERTEX_BUFFERS})
    case Replaying =>
      (match loop
       case Outer => IsBegin(id) || IsCopyId(id)
       case InCompute => id in {DISPATCH, END_COMPUTE_PASS, SET_COMPUTE_PIPELINE, SET_BIND_GROUP}
       case InRender =>
         id in {END_RENDER_PASS, DRAW_ARRAYS, DRAW_ELEMENTS, SET_RENDER_PIPELINE, SET_STENCIL_REFERENCE, SET_SCISSOR_RECT,
                SET_BLEND_COLOR, SET_BIND_GROUP, SET_INDEX_BUFFER, SET_VERTEX_BUFFERS})
  }

  predicate IsBegin(id: nat) { id == BEGIN_COMPUTE_PASS || id == BEGIN_RENDER_PASS }

  predicate IsCopyId(id: nat) {
    id == COPY_BUFFER_TO_BUFFER || id == COPY_BUFFER_TO_TEXTURE || id == COPY_TEXTURE_TO_BUFFER
  }

  /** The validator and the replay enter the loop of a pass and leave it again. */
  function LoopAfter(reader: Reader, loop: Loop, id: nat): Loop {
    if reader.Skipping? || reader.Freeing? then Outer
    else if loop.Outer? && id == BEGIN_COMPUTE_PASS then InCompute
    else if loop.Outer? && id == BEGIN_RENDER_PASS then InRender
    else if loop.InCompute? && id == END_COMPUTE_PASS then Outer
    else if loop.InRender? && id == END_RENDER_PASS then Outer
    else loop
  }

  /** The reader has a case for every id it gets. */
  predicate Covered(reader: Reader, loop: Loop, cmds: seq<Command>)
    decreases |cmds|
  {
    cmds != [] ==>
      HasCaseFor(reader, loop, Number(cmds[0])) && Covered(reader, LoopAfter(reader, loop, Number(cmds[0])), cmds[1..])
  }

  /** Skipping and freeing read every stream. */
  lemma {:induction false} AllCovered(reader: Reader, cmds: seq<Command>)
    requires reader.Skipping? || reader.Freeing?
    ensures Covered(reader, Outer, cmds)
  {
    if cmds != [] {
      AllCovered(reader, cmds[1..]);
    }
  }

  function LoopOf(kind: Kind): Loop {
    if kind.ComputeKind? then InCompute else InRender
  }

  lemma HeldIsCovered(reader: Reader, kind: Kind, c: Command)
    requires kind.Holds(c) && (reader.Validating? || (reader.Replaying? && !c.SetPushConstants?))
    ensures HasCaseFor(reader, LoopOf(kind), Number(c)) && LoopAfter(reader, LoopOf(kind), Number(c)) == LoopOf(kind)
  {
  }

  lemma {:induction false} PassIsCovered(reader: Reader, kind: Kind, body: seq<Command>, rest: seq<Command>)
    requires reader.Validating? || (reader.Replaying? && !HasPushConstants(body))
    requires forall i :: 0 <= i < |body| ==> kind.Holds(body[i])
    ensures Covered(reader, LoopOf(kind), body + [kind.End()] + rest) <==> Covered(reader, Outer, rest)
    decreases |body|
  {
    hide Kind.Holds, HasCaseFor, LoopAfter;
    var cmds := body + [kind.End()] + rest;
    if body == [] {
      assert cmds[0] == kind.End() && cmds[1..] == rest;
      EndIsCovered(reader, kind);
    } else {
      assert body == [body[0]] + body[1..] && cmds[0] == body[0] && cmds[1..] == body[1..] + [kind.End()] + rest;
      ConsHasPushConstants(body[0], body[1..]);
      HeldIsCovered(reader, kind, body[0]);
      PassIsCovered(reader, kind, body[1..], rest);
    }
  }

  lemma EndIsCovered(reader: Reader, kind: Kind)
    requires reader.Validating? || reader.Replaying?
    ensures HasCaseFor(reader, LoopOf(kind), Number(kind.End())) && LoopAfter(reader, LoopOf(kind), Number(kind.End())) == Outer
    ensures HasCaseFor(reader, Outer, Number(kind.Begin())) && LoopAfter(reader, Outer, Number(kind.Begin())) == LoopOf(kind)
  {
  }

  lemma ConsCovered(reader: Reader, loop: Loop, c: Command, rest: seq<Command>)
    ensures Covered(reader, loop, [c] + rest) <==>
            HasCaseFor(reader, loop, Number(c)) && Covered(reader, LoopAfter(reader, loop, Number(c)), rest)
  {
    assert ([c] + rest)[0] == c && ([c] + rest)[1..] == rest;
  }

  /** A legal segment in front of commands that are covered. */
  lemma SegmentCovered(reader: Reader, s: Segment, rest: seq<Command>, r: Resources)
    requires LegalSegment(s, r) && Covered(reader, Outer, rest)
    requires reader.Validating? || (reader.Replaying? && !HasPushConstants(Commands(s)))
    ensures Covered(reader, Outer, Commands(s) + rest)
  {
    hide Kind.Holds, HasCaseFor, LoopAfter, Ready, Legal, HasPushConstants, ValidCopy, Covered, PassUses, Number;
    match s {
      case CopySegment(c) =>
        CopyIsCovered(reader, c, r);
        ConsCovered(reader, Outer, c, rest);
      case PassSegment(kind, body) =>
        assert Commands(s) + rest == [kind.Begin()] + (body + [kind.End()] + rest);
        PartsHaveNone([kind.Begin()], body + [kind.End()]);
        PartsHaveNone(body, [kind.End()]);
        EndIsCovered(reader, kind);
        PassIsCovered(reader, kind, body, rest);
        ConsCovered(reader, Outer, kind.Begin(), body + [kind.End()] + rest);
    }
  }

  lemma {:induction false} SegmentsCovered(reader: Reader, segments: seq<Segment>, r: Resources)
    requires LegalSegments(segments, r) && (reader.Validating? || (reader.Replaying? && !HasPushConstants(Flatten(segments))))
    ensures Covered(reader, Outer, Flatten(segments))
    decreases |segments|
  {
    hide LegalSegment, Covered, HasPushConstants, Commands;
    if segments == [] {
      NothingCovered(reader);
    } else {
      var s, others := segments[0], segments[1..];
      assert segments == [s] + others && LegalSegment(s, r);
      ConsSegment(s, others, r);
      PartsHaveNone(Commands(s), Flatten(others));
      SegmentsCovered(reader, others, r);
      SegmentCovered(reader, s, Flatten(others), r);
    }
  }

  lemma NothingCovered(reader: Reader)
    ensures Covered(reader, Outer, [])
  {
  }

  lemma CopyIsCovered(reader: Reader, c: Command, r: Resources)
    requires ValidCopy(c, r) && (reader.Validating? || reader.Replaying?)
    ensures HasCaseFor(reader, Outer, Number(c)) && LoopAfter(reader, Outer, Number(c)) == Outer
  {
    hide ValidTextureCopy, ValidBufferCopy;
  }

  lemma PartsHaveNone(a: seq<Command>, b: seq<Command>)
    ensures HasPushConstants(a + b) <==> HasPushConstants(a) || HasPushConstants(b)
  {
    assert forall x :: x in a + b <==> x in a || x in b;
  }

  /** The validator has a case for every command of a stream it accepts, and so has the replay unless
      push constants are set. */
  lemma AcceptedIsCovered(reader: Reader, cmds: seq<Command>, usages: seq<Tracker>, r: Resources)
    requires ValidateCommands(cmds, r) == Success(usages)
    requires reader.Replaying? ==> !HasPushConstants(cmds)
    ensures Covered(reader, Outer, cmds)
  {
    hide Covered, ValidateCommands, LegalSegment;
    if reader.Skipping? || reader.Freeing? {
      AllCovered(reader, cmds);
    } else {
      var segments := AcceptedIsLegal(cmds, r);
      SegmentsCovered(reader, segments, r);
    }
  }

  // ----- Reading one command -----

  /** The chunks are recorded from the item `n` on. */
  predicate HoldsAt(log: Log, n: nat, chunks: seq<Chunk>) {
    && n + |chunks| <= |log.items| == |log.contents|
    && forall j | 0 <= j < |chunks| ::
         && log.items[n + j].found.id == chunks[j].id && log.items[n + j].shape == chunks[j].shape
         && log.contents[n + j] == chunks[j].bytes
  }

  lemma HoldsParts(log: Log, n: nat, a: seq<Chunk>, b: seq<Chunk>)
    requires HoldsAt(log, n, a + b)
    ensures HoldsAt(log, n, a) && HoldsAt(log, n + |a|, b)
  {
    forall j | 0 <= j < |a|
      ensures && log.items[n + j].found.id == a[j].id && log.items[n + j].shape == a[j].shape && log.contents[n + j] == a[j].bytes
    {
      assert a[j] == (a + b)[j];
    }
    forall j | 0 <= j < |b|
      ensures && log.items[n + |a| + j].found.id == b[j].id && log.items[n + |a| + j].shape == b[j].shape
              && log.contents[n + |a| + j] == b[j].bytes
    {
      assert b[j] == (a + b)[|a| + j] && n + |a| + j == n + (|a| + j);
    }
  }

  /** The bytes at an address of a block. */
  function BytesAt(b: A.Block, address: nat, size: nat): seq<byte>
    requires b.base <= address && address + size <= b.End()
  {
    b.data[address - b.base..address - b.base + size]
  }

  /** The id of a chunk, its payload behind it, and the next chunk behind that. */
  lemma AtChunk(blocks: seq<A.Block>, c: A.Cursor, log: Log, n: nat, x: Chunk, end: nat)
    requires n < |log.items| && At(blocks, c, log.items[n..], end) && HasPayloads(blocks, log) && HoldsAt(log, n, [x])
    ensures A.NextCommandId(blocks, c).NextId? && A.Aligns(x.shape)
    ensures var step := A.NextCommandId(blocks, c);
            && step.id == x.id && step.cursor.block < |blocks|
            && var command := A.NextCommand(blocks, step.cursor, x.shape);
               && command.Some? && command.value.1.block == step.cursor.block
               && At(blocks, command.value.1, log.items[n + 1..], end)
               && var b := blocks[step.cursor.block];
                  && b.base <= command.value.0 && command.value.0 + x.shape.size <= b.End()
                  && BytesAt(b, command.value.0, x.shape.size) == x.bytes
  {
    hide At, A.NextCommandId;
    AtItem(blocks, c, log.items[n..], end);
    assert log.items[n..][0] == log.items[n] && log.items[n..][1..] == log.items[n + 1..];
    assert [x][0] == x && log.items[n + 0].found.id == x.id;
    assert HasPayload(blocks, log.items[n], log.contents[n]);
  }

  lemma SliceOfSlice(data: seq<byte>, lo: nat, n: nat, at: nat)
    requires lo + n <= |data| && at + 4 <= n
    ensures data[lo..lo + n][at..at + 4] == data[lo + at..lo + at + 4]
  {
    var part := data[lo..lo + n];
    var a, b := part[at..at + 4], data[lo + at..lo + at + 4];
    forall i | 0 <= i < |a| ensures a[i] == b[i] {
      assert part[at + i] == data[lo + at + i];
    }
  }

  /** The count of a command can be read from its structure. */
  lemma CountInPlace(c: Command, abi: Abi, k: Contents, b: A.Block, address: nat)
    requires abi.Fits() && k.Fits(abi) && HasCount(c)
    requires var size := abi.structure(Number(c)).size;
             && b.base <= address && address + size <= b.End() && BytesAt(b, address, size) == Structure(c, abi, k)
    ensures b.HasId(address + abi.countAt(Number(c))) && A.ReadId(b, address + abi.countAt(Number(c))) == Count(c)
  {
    hide ToBytes, FromBytes;
    var n, at := Number(c), abi.countAt(Number(c));
    var structure, count := Structure(c, abi, k), ToBytes(4, Count(c));
    PutHolds(k.fields(c), at, count);
    assert structure[at..at + 4] == count;
    SliceOfSlice(b.data, address - b.base, |structure|, at);
    A.ReadsStored(b, address + at, Count(c));
  }

  lemma DataBytes(c: Command, abi: Abi, k: Contents)
    ensures c.SetPushConstants? ==> BytesOf(Data(c, abi, k)) == [k.words(c)] && Data(c, abi, k) == [Data(c, abi, k)[0]]
    ensures c.SetVertexBuffers? ==> BytesOf(Data(c, abi, k)) == [k.references(c), k.words(c)]
    ensures !HasCount(c) ==> BytesOf(Data(c, abi, k)) == [] && Count(c) == 0
  {
    var data := Data(c, abi, k);
    if c.SetPushConstants? {
      assert data[1..] == [];
      assert BytesOf(data) == [k.words(c)] + BytesOf([]);
    } else if c.SetVertexBuffers? {
      assert data[1..][1..] == [];
      assert BytesOf(data[1..]) == [k.words(c)] + BytesOf([]);
    }
  }

  /** What is left when a command has been read. */
  predicate Behind(it: CommandIterator, log: Log, n: nat, end: nat)
    reads it
  {
    it.Valid() && n <= |log.items| && At(it.blocks, it.Position(), log.items[n..], end)
  }

  /** `NextData`: the bytes behind an in-band id. */
  method TakeData(it: CommandIterator, shape: A.Shape, ghost log: Log, ghost n: nat, ghost x: Chunk, ghost end: nat)
    returns (bytes: seq<byte>)
    requires Behind(it, log, n, end) && HasPayloads(it.blocks, log) && HoldsAt(log, n, [x])
    requires x.id == A.ADDITIONAL_DATA && shape == x.shape && x.shape.alignment > 0
    modifies it`currentBlock, it`currentPtr
    ensures Behind(it, log, n + 1, end) && bytes == x.bytes
  {
    hide At, A.NextCommandId, A.NextCommand, HasPayloads;
    AtChunk(it.blocks, it.Position(), log, n, x, end);
    var address := it.NextData(shape.size, shape.alignment);
    bytes := BytesAt(it.blocks[it.currentBlock], address, shape.size);
  }

  /** What the case for an id takes: the structure of its command and, for push constants and vertex
      buffers, as much data as the count in it says. */
  method TakeCommand(it: CommandIterator, id: nat, abi: Abi, ghost c: Command, ghost k: Contents,
                     ghost before: A.Cursor, ghost log: Log, ghost n: nat, ghost end: nat)
    returns (read: Read)
    requires abi.Fits() && k.Fits(abi) && HasPayloads(it.blocks, log) && HoldsAt(log, n, Chunks(c, abi, k))
    requires it.Valid() && At(it.blocks, before, log.items[n..], end)
    requires A.NextCommandId(it.blocks, before) == A.NextId(id, it.Position())
    modifies it`currentBlock, it`currentPtr
    ensures Behind(it, log, n + |Chunks(c, abi, k)|, end) && read == ReadOf(c, abi, k)
  {
    hide At, A.NextCommandId, A.NextCommand, HasPayloads, A.ReadId, Structure;
    ghost var x := Chunk(Number(c), abi.structure(Number(c)), Structure(c, abi, k));
    assert Chunks(c, abi, k) == [x] + Data(c, abi, k);
    HoldsParts(log, n, [x], Data(c, abi, k));
    DataBytes(c, abi, k);
    AtChunk(it.blocks, before, log, n, x, end);
    var shape := abi.structure(id);
    var address := it.NextCommand(shape.size, shape.alignment);
    var structure := BytesAt(it.blocks[it.currentBlock], address, shape.size);
    if id == SET_PUSH_CONSTANTS {
      CountInPlace(c, abi, k, it.blocks[it.currentBlock], address);
      var count := A.ReadId(it.blocks[it.currentBlock], address + abi.countAt(id));
      var words := TakeData(it, Words(count), log, n + 1, Data(c, abi, k)[0], end);
      read := Read(id, count, structure, [words]);
    } else if id == SET_VERTEX_BUFFERS {
      CountInPlace(c, abi, k, it.blocks[it.currentBlock], address);
      var count := A.ReadId(it.blocks[it.currentBlock], address + abi.countAt(id));
      ghost var data := Data(c, abi, k);
      assert data == [data[0]] + [data[1]];
      HoldsParts(log, n + 1, [data[0]], [data[1]]);
      var references := TakeData(it, References(abi, count), log, n + 1, data[0], end);
      var words := TakeData(it, Words(count), log, n + 2, data[1], end);
      read := Read(id, count, structure, [references, words]);
    } else {
      read := Read(id, 0, structure, []);
    }
  }

  // ----- Reading a stream -----

  /** The loop of a reader over a recorded stream. It sees for each command just what was recorded, up to
      the end or to the first id it has no case for. */
  method ReadCommands(reader: Reader, it: CommandIterator, abi: Abi, ghost cmds: seq<Command>, ghost k: Contents,
                      ghost log: Log, ghost end: nat)
    returns (complete: bool, found: seq<Read>)
    requires abi.Fits() && k.Fits(abi) && HasPayloads(it.blocks, log)
    requires EndsWith(log, 0, AllChunks(cmds, abi, k)) && Behind(it, log, 0, end)
    modifies it`currentBlock, it`currentPtr
    ensures complete <==> Covered(reader, Outer, cmds)
    ensures |found| <= |cmds| && found == ReadsOf(cmds[..|found|], abi, k)
    ensures complete ==> found == ReadsOf(cmds, abi, k) && it.Valid() && it.Position() == A.Reset(it.blocks)
  {
    hide At, A.NextCommandId, A.NextCommand, HasPayloads, HasCaseFor, LoopAfter, ReadOf, Chunks, BytesAt;
    var loop := Outer;
    ghost var i: nat, n: nat := 0, 0;
    assert cmds[0..] == cmds && log.items[0..] == log.items;
    found := [];
    complete := true;
    while true
      invariant i <= |cmds| && Behind(it, log, n, end) && n + |AllChunks(cmds[i..], abi, k)| == |log.items|
      invariant HoldsAt(log, n, AllChunks(cmds[i..], abi, k))
      invariant Covered(reader, loop, cmds[i..]) <==> Covered(reader, Outer, cmds)
      invariant found == ReadsOf(cmds[..i], abi, k) && |found| == i
      decreases |cmds| - i
    {
      ghost var before := it.Position();
      if i == |cmds| {
        assert cmds[i..] == [] && log.items[n..] == [] && cmds[..i] == cmds;
        AtEnd(it.blocks, before, end);
      } else {
        ghost var c, rest := cmds[i], cmds[i + 1..];
        assert cmds[i..][1..] == rest && cmds[..i + 1] == cmds[..i] + [c];
        HoldsParts(log, n, Chunks(c, abi, k), AllChunks(rest, abi, k));
        FirstChunk(c, abi, k);
        HoldsParts(log, n, [Chunks(c, abi, k)[0]], Chunks(c, abi, k)[1..]);
        AtChunk(it.blocks, before, log, n, Chunks(c, abi, k)[0], end);
        OneMoreRead(cmds[..i], c, abi, k);
      }
      var hasId, id := it.NextCommandId();
      if !hasId {
        return;
      }
      if !HasCaseFor(reader, loop, id) {
        complete := false;
        return;
      }
      var read := TakeCommand(it, id, abi, cmds[i], k, before, log, n, end);
      found := found + [read];
      n := n + |Chunks(cmds[i], abi, k)|;
      loop := LoopAfter(reader, loop, id);
      i := i + 1;
    }
  }

  lemma FirstChunk(c: Command, abi: Abi, k: Contents)
    ensures Chunks(c, abi, k) != [] && Chunks(c, abi, k)[0].id == Number(c)
    ensures Chunks(c, abi, k) == [Chunks(c, abi, k)[0]] + Chunks(c, abi, k)[1..]
  {
  }

  /** Commands recorded in an empty allocator, handed to an iterator and read: every reader sees the ids,
      counts and bytes that were recorded, in order. */
  method RecordAndRead(reader: Reader, allocator: CommandAllocator, cmds: seq<Command>, abi: Abi, k: Contents, sentinel: nat)
    returns (ok: bool, complete: bool, found: seq<Read>)
    requires abi.Fits() && k.Fits(abi) && sentinel % A.ID_SIZE == 0
    requires allocator.Valid() && !allocator.blocksAcquired && IsDummy(allocator.dummyEnum)
    requires allocator.Value() == A.Initial(allocator.dummyEnum)
    modifies allocator
    ensures ok ==> (complete <==> Covered(reader, Outer, cmds))
    ensures ok ==> |found| <= |cmds| && found == ReadsOf(cmds[..|found|], abi, k) && (complete ==> found == ReadsOf(cmds, abi, k))
  {
    hide Good, Covered, AllChunks, ReadsOf, At, HasPayloads;
    ghost var log;
    EmptyIsGood(allocator.Value());
    ok, log := RecordCommands(allocator, cmds, abi, k, Log([], []));
    if !ok {
      return false, false, [];
    }
    ghost var end := AtStart(allocator.Value(), log, sentinel);
    var acquired := allocator.AcquireBlocks();
    var it := new CommandIterator(acquired, sentinel);
    assert log.items[0..] == log.items;
    complete, found := ReadCommands(reader, it, abi, cmds, k, log, end);
  }

  lemma EmptyIsGood(s: A.State)
    requires IsDummy(s.dummy) && s == A.Initial(s.dummy)
    ensures Good(s, Log([], []))
  {
  }
}
