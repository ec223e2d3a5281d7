/** Runs of the command allocator: whatever is allocated and written into the payloads, the iterator
    finds the same ids, addresses and bytes, in order, and finds them again. */
module CommandRuns {
  import opened BitMath
  import opened Bytes
  import opened Wrappers
  import opened CommandAllocation

  // ----- One allocation -----

  /** The item a successful allocation records. */
  function Recorded(s': State, id: nat, address: nat, shape: Shape): Item
    requires s'.blocks != []
  {
    Item(Found(id, |s'.blocks| - 1, address), shape)
  }

  lemma TaggedKept(s: State, id: nat)
    requires Valid(s)
    ensures Tagged(s, id).dummy.base == s.dummy.base && |Tagged(s, id).dummy.data| == |s.dummy.data|
    ensures |Tagged(s, id).blocks| == |s.blocks| && Valid(Tagged(s, id))
    ensures s.blocks != [] ==>
              && KeptBelow(s.blocks, Tagged(s, id).blocks, s.current)
              && Stored(Tagged(s, id).blocks[|s.blocks| - 1], s.current, id)
  {
    WritesStored(Top(s), s.current, id);
  }

  /** What fits is recorded. */
  lemma FitRecords(s: State, items: seq<Item>, id: nat, shape: Shape, malloc: Malloc)
    requires Records(s, items) && id < END_OF_BLOCK && Aligns(shape) && Fits(s, shape)
    ensures s.blocks != [] && Allocate(s, id, shape, malloc).0.Some?
    ensures var r := Allocate(s, id, shape, malloc);
            && |r.1.blocks| == |s.blocks| && KeptBelow(s.blocks, r.1.blocks, s.current)
            && Records(r.1, items + [Recorded(r.1, id, r.0.value, shape)])
  {
    var s' := Allocate(s, id, shape, malloc).1;
    TaggedKept(s, id);
    AppendsItem(s.blocks, s'.blocks, 0, Start(s.blocks[0]), items, s.current,
                Recorded(s', id, PayloadAt(s.current, shape), shape));
  }

  /** A tag and a new block, or just the tag, leave the record as it is. */
  lemma NextBlockRecords(s: State, items: seq<Item>, shape: Shape, malloc: Malloc)
    requires Records(s, items) && Aligns(shape)
    ensures var r := NextBlock(s, shape, malloc);
            && Records(r.1, items) && |r.1.blocks| == |s.blocks| + (if r.0 then 1 else 0)
            && (s.blocks != [] ==> KeptBelow(s.blocks, r.1.blocks, s.current))
  {
    var t, s2 := Tagged(s, END_OF_BLOCK), NextBlock(s, shape, malloc).1;
    TaggedKept(s, END_OF_BLOCK);
    if NextBlock(s, shape, malloc).0 {
      AsksForMore(s, shape, malloc);
      if s.blocks != [] {
        AppendsBlock(s.blocks, s2.blocks, 0, Start(s.blocks[0]), items, s.current);
      }
    } else if s.blocks != [] {
      KeepsTrace(s.blocks, s2.blocks, 0, Start(s.blocks[0]), items, s.current);
    }
  }

  lemma KeptBelowTransitive(a: seq<Block>, b: seq<Block>, c: seq<Block>, end: nat, end': nat)
    requires KeptBelow(a, b, end) && KeptBelow(b, c, end') && (|a| == |b| ==> end' >= end)
    ensures KeptBelow(a, c, end)
  {
  }

  /** An allocation records its item behind the others, or fails and records nothing. */
  lemma {:induction false} AllocateRecords(s: State, items: seq<Item>, id: nat, shape: Shape, malloc: Malloc)
    requires Records(s, items) && id < END_OF_BLOCK && Aligns(shape)
    ensures var (address, s') := Allocate(s, id, shape, malloc);
            && (s.blocks != [] ==> KeptBelow(s.blocks, s'.blocks, s.current))
            && match address {
                 case None => Records(s', items)
                 case Some(a) => s'.blocks != [] && Records(s', items + [Recorded(s', id, a, shape)])
               }
    decreases Measure(s, shape)
  {
    if Fits(s, shape) {
      FitRecords(s, items, id, shape, malloc);
    } else {
      var (ok, s2) := NextBlock(s, shape, malloc);
      NextBlockRecords(s, items, shape, malloc);
      if ok {
        AsksForMore(s, shape, malloc);
        AllocateRecords(s2, items, id, shape, malloc);
        if s.blocks != [] {
          KeptBelowTransitive(s.blocks, s2.blocks, Allocate(s2, id, shape, malloc).1.blocks, s.current, s2.current);
        }
      }
    }
  }

  // ----- Payloads -----

  predicate Covered(blocks: seq<Block>, item: Item) {
    var f := item.found;
    f.block < |blocks| && blocks[f.block].base <= f.address && f.address + item.shape.size <= blocks[f.block].End()
  }

  /** The bytes of an item's payload. */
  function Payload(blocks: seq<Block>, item: Item): seq<byte>
    requires Covered(blocks, item)
  {
    var b := blocks[item.found.block];
    b.data[item.found.address - b.base..item.found.address - b.base + item.shape.size]
  }

  /** Bytes written into an item's payload. */
  function FillBlocks(blocks: seq<Block>, item: Item, offset: nat, bytes: seq<byte>): seq<Block>
    requires Covered(blocks, item) && offset + |bytes| <= item.shape.size
  {
    var k := item.found.block;
    blocks[k := blocks[k].(data := Put(blocks[k].data, item.found.address - blocks[k].base + offset, bytes))]
  }

  lemma FillChanges(blocks: seq<Block>, item: Item, offset: nat, bytes: seq<byte>)
    requires Covered(blocks, item) && offset + |bytes| <= item.shape.size
    ensures var blocks' := FillBlocks(blocks, item, offset, bytes);
            && Changed(blocks, blocks', item.found.block, item.found.address, item.found.address + item.shape.size)
            && Covered(blocks', item) && Payload(blocks', item) == Put(Payload(blocks, item), offset, bytes)
  {
  }

  /** Growing the record does not touch payloads. */
  lemma KeepsPayload(blocks: seq<Block>, blocks': seq<Block>, end: nat, item: Item)
    requires KeptBelow(blocks, blocks', end) && Inside(blocks, item, end)
    ensures Covered(blocks', item) && Payload(blocks', item) == Payload(blocks, item)
  {
    var k := item.found.block;
    var i := item.found.address - blocks[k].base;
    assert forall j :: i <= j < i + item.shape.size ==> blocks'[k].data[j] == blocks[k].data[j];
  }

  /** Nor does filling another payload. */
  lemma OtherPayload(blocks: seq<Block>, blocks': seq<Block>, filled: Item, item: Item)
    requires Changed(blocks, blocks', filled.found.block, filled.found.address, filled.found.address + filled.shape.size)
    requires Covered(blocks, item) && (Apart(filled, item) || Apart(item, filled))
    ensures Covered(blocks', item) && Payload(blocks', item) == Payload(blocks, item)
  {
    var k := item.found.block;
    var i := item.found.address - blocks[k].base;
    assert forall j :: i <= j < i + item.shape.size ==> blocks'[k].data[j] == blocks[k].data[j];
  }

  // ----- Runs -----

  datatype Op = Record(id: nat, shape: Shape) | Fill(index: nat, offset: nat, bytes: seq<byte>)

  /** The allocations that succeeded, and what is in their payloads. */
  datatype Log = Log(items: seq<Item>, contents: seq<seq<byte>>)

  predicate Good(s: State, log: Log) {
    && Records(s, log.items) && |log.contents| == |log.items|
    && forall i :: 0 <= i < |log.items| ==> HasPayload(s.blocks, log.items[i], log.contents[i])
  }

  predicate HasPayload(blocks: seq<Block>, item: Item, bytes: seq<byte>) {
    Covered(blocks, item) && Payload(blocks, item) == bytes
  }

  /** Callers use other ids than the tag, and write into payloads they got. */
  predicate Allowed(op: Op, log: Log) {
    match op
    case Record(id, shape) => id < END_OF_BLOCK && Aligns(shape)
    case Fill(i, offset, bytes) => i < |log.items| && offset + |bytes| <= log.items[i].shape.size
  }

  function Apply(op: Op, s: State, log: Log, malloc: Malloc): (r: (State, Log))
    requires Good(s, log) && Allowed(op, log)
  {
    match op
    case Record(id, shape) =>
      AllocateRecords(s, log.items, id, shape, malloc);
      var (address, s') := Allocate(s, id, shape, malloc);
      (match address
       case None => (s', log)
       case Some(a) =>
         var item := Recorded(s', id, a, shape);
         RecordedIsCovered(s', log.items, item);
         (s', Log(log.items + [item], log.contents + [Payload(s'.blocks, item)])))
    case Fill(i, offset, bytes) =>
      var item := log.items[i];
      assert HasPayload(s.blocks, item, log.contents[i]);
      (s.(blocks := FillBlocks(s.blocks, item, offset, bytes)),
       log.(contents := log.contents[i := Put(log.contents[i], offset, bytes)]))
  }

  lemma RecordsInside(s: State, items: seq<Item>)
    requires Records(s, items)
    ensures forall i :: 0 <= i < |items| ==> Inside(s.blocks, items[i], s.current)
    ensures forall i, j :: 0 <= i < j < |items| ==> Apart(items[i], items[j])
  {
    if s.blocks != [] {
      forall i | 0 <= i < |items| ensures Inside(s.blocks, items[i], s.current) {
        TraceInside(s.blocks, 0, Start(s.blocks[0]), items, s.current, i);
      }
      forall i, j | 0 <= i < j < |items| ensures Apart(items[i], items[j]) {
        TraceApart(s.blocks, 0, Start(s.blocks[0]), items, s.current, i, j);
      }
    }
  }

  lemma RecordedIsCovered(s: State, items: seq<Item>, item: Item)
    requires Records(s, items + [item])
    ensures Covered(s.blocks, item)
  {
    RecordsInside(s, items + [item]);
    assert (items + [item])[|items|] == item;
  }

  /** Payloads after an allocation are what they were. */
  lemma AllocateKeepsPayloads(s: State, log: Log, id: nat, shape: Shape, malloc: Malloc)
    requires Good(s, log) && id < END_OF_BLOCK && Aligns(shape)
    ensures var blocks' := Allocate(s, id, shape, malloc).1.blocks;
            forall i :: 0 <= i < |log.items| ==> HasPayload(blocks', log.items[i], log.contents[i])
  {
    hide Trace, Allocate, Payload;
    if s.blocks != [] {
      AllocateRecords(s, log.items, id, shape, malloc);
      RecordsInside(s, log.items);
      var blocks' := Allocate(s, id, shape, malloc).1.blocks;
      forall i | 0 <= i < |log.items| ensures HasPayload(blocks', log.items[i], log.contents[i]) {
        assert HasPayload(s.blocks, log.items[i], log.contents[i]);
        KeepsPayload(s.blocks, blocks', s.current, log.items[i]);
      }
    }
  }

  lemma RecordKeepsGood(s: State, log: Log, id: nat, shape: Shape, malloc: Malloc)
    requires Good(s, log) && id < END_OF_BLOCK && Aligns(shape)
    ensures var r := Apply(Record(id, shape), s, log, malloc); Good(r.0, r.1)
  {
    hide Trace, Allocate, Payload;
    AllocateRecords(s, log.items, id, shape, malloc);
    AllocateKeepsPayloads(s, log, id, shape, malloc);
    var (address, s') := Allocate(s, id, shape, malloc);
    if address.Some? {
      RecordedIsCovered(s', log.items, Recorded(s', id, address.value, shape));
    }
  }

  lemma FillKeepsRecords(s: State, items: seq<Item>, i: nat, offset: nat, bytes: seq<byte>)
    requires Records(s, items) && i < |items| && Covered(s.blocks, items[i]) && offset + |bytes| <= items[i].shape.size
    ensures Records(s.(blocks := FillBlocks(s.blocks, items[i], offset, bytes)), items)
  {
    FillChanges(s.blocks, items[i], offset, bytes);
    FillKeepsTrace(s.blocks, FillBlocks(s.blocks, items[i], offset, bytes), 0, Start(s.blocks[0]), items, s.current, i);
  }

  lemma FillKeepsGood(s: State, log: Log, i: nat, offset: nat, bytes: seq<byte>, malloc: Malloc)
    requires Good(s, log) && Allowed(Fill(i, offset, bytes), log)
    ensures var r := Apply(Fill(i, offset, bytes), s, log, malloc); Good(r.0, r.1)
  {
    var item := log.items[i];
    assert HasPayload(s.blocks, item, log.contents[i]);
    var (s', log') := Apply(Fill(i, offset, bytes), s, log, malloc);
    RecordsInside(s, log.items);
    FillChanges(s.blocks, item, offset, bytes);
    FillKeepsRecords(s, log.items, i, offset, bytes);
    forall j | 0 <= j < |log.items| ensures HasPayload(s'.blocks, log.items[j], log'.contents[j]) {
      assert HasPayload(s.blocks, log.items[j], log.contents[j]);
      if j != i {
        OtherPayload(s.blocks, s'.blocks, item, log.items[j]);
      }
    }
  }

  /** The state and the log after a run that stays allowed, or nothing. */
  function Run(ops: seq<Op>, s: State, log: Log, malloc: Malloc): (r: Option<(State, Log)>)
    requires Good(s, log)
    ensures r.Some? ==> Good(r.value.0, r.value.1)
    decreases |ops|
  {
    if ops == [] then Some((s, log))
    else if !Allowed(ops[0], log) then None
    else
      ApplyKeepsGood(ops[0], s, log, malloc);
      var (s', log') := Apply(ops[0], s, log, malloc);
      Run(ops[1..], s', log', malloc)
  }

  lemma ApplyKeepsGood(op: Op, s: State, log: Log, malloc: Malloc)
    requires Good(s, log) && Allowed(op, log)
    ensures var r := Apply(op, s, log, malloc); Good(r.0, r.1)
  {
    match op
    case Record(id, shape) => RecordKeepsGood(s, log, id, shape, malloc);
    case Fill(i, offset, bytes) => FillKeepsGood(s, log, i, offset, bytes, malloc);
  }

  predicate IsDummy(dummy: Block) {
    dummy.base % ID_SIZE == 0 && |dummy.data| == ID_SIZE
  }

  // ----- What the iterator finds -----

  /** Acquiring the blocks keeps the record and closes it. */
  lemma AcquiredTrace(s: State, log: Log)
    requires Good(s, log) && s.blocks != []
    ensures var blocks := AcquireBlocks(s);
            && blocks != [] && Trace(blocks, 0, Start(blocks[0]), log.items, s.current)
            && Stored(blocks[|blocks| - 1], s.current, END_OF_BLOCK)
            && forall i :: 0 <= i < |log.items| ==> HasPayload(blocks, log.items[i], log.contents[i])
  {
    var blocks := AcquireBlocks(s);
    TaggedKept(s, END_OF_BLOCK);
    KeepsTrace(s.blocks, blocks, 0, Start(s.blocks[0]), log.items, s.current);
    RecordsInside(s, log.items);
    forall i | 0 <= i < |log.items| ensures HasPayload(blocks, log.items[i], log.contents[i]) {
      assert HasPayload(s.blocks, log.items[i], log.contents[i]);
      KeepsPayload(s.blocks, blocks, s.current, log.items[i]);
    }
  }

  /** An iterator over the blocks of the allocator finds the recorded ids and payload addresses in
      order, then the end, and is back where it started. */
  lemma IteratorFinds(s: State, log: Log, sentinel: nat)
    requires Good(s, log) && sentinel % ID_SIZE == 0
    ensures var blocks := IteratorBlocks(AcquireBlocks(s), sentinel);
            && (forall shape | shape in Shapes(log.items) :: Aligns(shape))
            && Walk(blocks, Reset(blocks), Shapes(log.items)) == Walked(Founds(log.items), Finished(Reset(blocks)))
            && forall i :: 0 <= i < |log.items| ==> HasPayload(blocks, log.items[i], log.contents[i])
  {
    var blocks := IteratorBlocks(AcquireBlocks(s), sentinel);
    TaggedKept(s, END_OF_BLOCK);
    if s.blocks == [] {
      EmptyIterator(sentinel);
    } else {
      AcquiredTrace(s, log);
      StartIsAligned(blocks[0]);
      WalksTrace(blocks, Reset(blocks), Start(blocks[0]), log.items, s.current);
    }
  }

  lemma EmptyIterator(sentinel: nat)
    requires sentinel % ID_SIZE == 0
    ensures var blocks := IteratorBlocks([], sentinel);
            NextCommandId(blocks, Reset(blocks)) == Finished(Reset(blocks))
  {
    hide ToBytes, FromBytes, Pow256;
    var b := Block(sentinel, ToBytes(ID_SIZE, END_OF_BLOCK));
    assert b.data[0..ID_SIZE] == b.data;
    ReadsStored(b, sentinel, END_OF_BLOCK);
  }

  /** For every run from an empty allocator: the iterator finds what was recorded, twice over;
      payloads are aligned, lie inside their blocks, do not overlap and hold what was last written
      to them. */
  lemma RunIsFound(ops: seq<Op>, dummy: Block, sentinel: nat, malloc: Malloc)
    requires IsDummy(dummy) && sentinel % ID_SIZE == 0
    requires Run(ops, Initial(dummy), Log([], []), malloc).Some?
    ensures var (s, log) := Run(ops, Initial(dummy), Log([], []), malloc).value;
            var blocks := IteratorBlocks(AcquireBlocks(s), sentinel);
            && (forall shape | shape in Shapes(log.items) :: Aligns(shape))
            && Walk(blocks, Reset(blocks), Shapes(log.items)) == Walked(Founds(log.items), Finished(Reset(blocks)))
            && (forall i :: 0 <= i < |log.items| ==>
                  Inside(s.blocks, log.items[i], s.current) && HasPayload(blocks, log.items[i], log.contents[i]))
            && (forall i, j :: 0 <= i < j < |log.items| ==> Apart(log.items[i], log.items[j]))
  {
    var (s, log) := Run(ops, Initial(dummy), Log([], []), malloc).value;
    IteratorFinds(s, log, sentinel);
    RecordsInside(s, log.items);
  }
}
