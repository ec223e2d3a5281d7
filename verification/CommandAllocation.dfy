/** The linear command allocator and its iterator, src/dawn_native/CommandAllocator.cpp, on memory
    blocks of bytes. Addresses and sizes do not wrap around; `malloc` is an oracle. */
module CommandAllocation {
  import opened BitMath
  import opened Bytes
  import opened Wrappers

  const ID_SIZE: nat := 4
  const END_OF_BLOCK: nat := 0xFFFF_FFFF
  const ADDITIONAL_DATA: nat := 0xFFFF_FFFE
  const SMALLEST_BLOCK: nat := 4096
  const LARGEST_DOUBLING: nat := 16384

  function Max(a: nat, b: nat): nat { if a < b then b else a }

  function Min(a: nat, b: nat): nat { if a < b then a else b }

  // ----- Blocks -----

  datatype Block = Block(base: nat, data: seq<byte>) {
    function End(): nat { base + |data| }

    predicate HasId(p: nat) { base <= p && p + ID_SIZE <= End() }
  }

  function ReadId(b: Block, p: nat): nat
    requires b.HasId(p)
  {
    FromBytes(b.data[p - b.base..p - b.base + ID_SIZE])
  }

  function WriteId(b: Block, p: nat, id: nat): Block
    requires b.HasId(p)
  {
    b.(data := Put(b.data, p - b.base, ToBytes(ID_SIZE, id)))
  }

  predicate Stored(b: Block, p: nat, id: nat) {
    b.HasId(p) && Holds(b.data, p - b.base, ToBytes(ID_SIZE, id))
  }

  lemma ReadsStored(b: Block, p: nat, id: nat)
    requires Stored(b, p, id) && id <= END_OF_BLOCK
    ensures ReadId(b, p) == id
  {
    assert END_OF_BLOCK < Pow256(ID_SIZE);
    BytesOfNumber(ID_SIZE, id);
  }

  lemma WritesStored(b: Block, p: nat, id: nat)
    requires b.HasId(p)
    ensures Stored(WriteId(b, p, id), p, id)
  {
    PutHolds(b.data, p - b.base, ToBytes(ID_SIZE, id));
  }

  // ----- Addresses -----

  /** What a caller asks for: the size and the alignment of a command or of data. */
  datatype Shape = Shape(size: nat, alignment: nat)

  predicate Aligns(shape: Shape) {
    shape.alignment > 0
  }

  ghost predicate IsAlignment(a: nat) {
    exists k: nat :: a == Pow2(k)
  }

  /** Where the payload goes when the id is at `p`, and where the next id goes. */
  function PayloadAt(p: nat, shape: Shape): nat
    requires Aligns(shape)
  {
    RoundUp(p + ID_SIZE, shape.alignment)
  }

  function NextAt(p: nat, shape: Shape): nat
    requires Aligns(shape)
  {
    RoundUp(PayloadAt(p, shape) + shape.size, ID_SIZE)
  }

  function Start(b: Block): nat { RoundUp(b.base, ID_SIZE) }

  // ----- The allocator -----

  /** What `malloc` hands out: an address, and whatever the memory there holds. */
  datatype Grant = Grant(base: nat, contents: nat -> byte)

  /** The outcome of each call of `malloc`, by its number. */
  type Malloc = nat -> Option<Grant>

  /** Before the first block the allocator points to a dummy with room for one id. */
  datatype State = State(dummy: Block, blocks: seq<Block>, current: nat, lastSize: nat, calls: nat)

  function Top(s: State): Block {
    if s.blocks == [] then s.dummy else s.blocks[|s.blocks| - 1]
  }

  function WithTop(s: State, b: Block): State {
    if s.blocks == [] then s.(dummy := b) else s.(blocks := s.blocks[|s.blocks| - 1 := b])
  }

  /** There is always room for one id. */
  predicate Valid(s: State) {
    s.current % ID_SIZE == 0 && Top(s).HasId(s.current) && 2 * s.lastSize >= SMALLEST_BLOCK
  }

  function Initial(dummy: Block): State {
    State(dummy, [], dummy.base, 2048, 0)
  }

  predicate Fits(s: State, shape: Shape)
    requires Aligns(shape)
  {
    NextAt(s.current, shape) + ID_SIZE <= Top(s).End()
  }

  function Tagged(s: State, id: nat): State
    requires Valid(s)
  {
    WithTop(s, WriteId(Top(s), s.current, id))
  }

  function BlockSize(s: State, minimum: nat): nat {
    Max(minimum, Min(2 * s.lastSize, LARGEST_DOUBLING))
  }

  function Fresh(grant: Grant, size: nat): Block {
    Block(grant.base, seq(size, i requires 0 <= i < size => grant.contents(i)))
  }

  /** Whether there is a new block, and the state after. */
  function GetNewBlock(s: State, minimum: nat, malloc: Malloc): (bool, State) {
    var size := BlockSize(s, minimum);
    var s' := s.(lastSize := size, calls := s.calls + 1);
    match malloc(s.calls)
    case None => (false, s')
    case Some(grant) =>
      var block := Fresh(grant, size);
      (true, s'.(blocks := s.blocks + [block], current := Start(block)))
  }

  /** Bytes an allocation takes with its id and padding. */
  function Taken(p: nat, shape: Shape): (n: nat)
    requires Aligns(shape)
    ensures ID_SIZE + shape.size <= n <= shape.alignment + shape.size + 6
  {
    NextAt(p, shape) - p
  }

  /** The state after asking for a block for an allocation that does not fit. */
  function NextBlock(s: State, shape: Shape, malloc: Malloc): (bool, State)
    requires Valid(s) && Aligns(shape)
  {
    GetNewBlock(Tagged(s, END_OF_BLOCK), Taken(s.current, shape) + ID_SIZE + ID_SIZE, malloc)
  }

  /** A block that turns out too small because of its alignment makes the next request larger. */
  lemma AsksForMore(s: State, shape: Shape, malloc: Malloc)
    requires Valid(s) && Aligns(shape) && NextBlock(s, shape, malloc).0
    ensures Valid(NextBlock(s, shape, malloc).1)
    ensures var s2 := NextBlock(s, shape, malloc).1;
            Fits(s2, shape) || Taken(s2.current, shape) > Taken(s.current, shape) + 1
  {
  }

  function Measure(s: State, shape: Shape): nat
    requires Aligns(shape)
  {
    if Fits(s, shape) then 0 else 1 + shape.alignment + shape.size + 6 - Taken(s.current, shape)
  }

  /** `Allocate`: the address of the payload, unless a block could not be had. */
  function Allocate(s: State, id: nat, shape: Shape, malloc: Malloc): (r: (Option<nat>, State))
    requires Valid(s) && Aligns(shape)
    ensures Valid(r.1)
    decreases Measure(s, shape)
  {
    if Fits(s, shape) then
      (Some(PayloadAt(s.current, shape)), Tagged(s, id).(current := NextAt(s.current, shape)))
    else
      var (ok, s2) := NextBlock(s, shape, malloc);
      if ok then
        AsksForMore(s, shape, malloc);
        Allocate(s2, id, shape, malloc)
      else (None, s2)
  }

  /** `AcquireBlocks`: tags the end and hands the blocks out. */
  function AcquireBlocks(s: State): seq<Block>
    requires Valid(s)
  {
    Tagged(s, END_OF_BLOCK).blocks
  }

  // ----- The iterator -----

  datatype Cursor = Cursor(block: nat, pointer: nat)

  /** An empty list of blocks is replaced by one block that holds a tag. */
  function IteratorBlocks(acquired: seq<Block>, sentinel: nat): seq<Block> {
    if acquired == [] then [Block(sentinel, ToBytes(ID_SIZE, END_OF_BLOCK))] else acquired
  }

  function Reset(blocks: seq<Block>): Cursor
    requires blocks != []
  {
    Cursor(0, Start(blocks[0]))
  }

  /** Reading leaves the blocks where the source only asserts that it does not. */
  datatype Step = NextId(id: nat, cursor: Cursor) | Finished(cursor: Cursor) | OutOfBlock

  function NextCommandId(blocks: seq<Block>, c: Cursor): Step
    requires c.block < |blocks|
    decreases |blocks| - c.block
  {
    var p := RoundUp(c.pointer, ID_SIZE);
    var b := blocks[c.block];
    if !b.HasId(p) then OutOfBlock
    else if ReadId(b, p) == END_OF_BLOCK then
      if c.block + 1 >= |blocks| then Finished(Reset(blocks))
      else NextCommandId(blocks, Cursor(c.block + 1, Start(blocks[c.block + 1])))
    else NextId(ReadId(b, p), Cursor(c.block, p + ID_SIZE))
  }

  /** `NextCommand`: the payload's address, and the cursor behind it. */
  function NextCommand(blocks: seq<Block>, c: Cursor, shape: Shape): Option<(nat, Cursor)>
    requires c.block < |blocks| && Aligns(shape)
  {
    var p := RoundUp(c.pointer, shape.alignment);
    if p + shape.size > blocks[c.block].End() then None
    else Some((p, Cursor(c.block, p + shape.size)))
  }

  /** What a walk finds for each command or data: its id and where its payload is. */
  datatype Found = Found(id: nat, block: nat, address: nat)

  datatype Walked = Walked(found: seq<Found>, end: Step) | Stuck

  /** The iterator driven by a caller who asks for the payload of every id it gets, with the given
      shapes, and then for one more id. */
  function Walk(blocks: seq<Block>, c: Cursor, shapes: seq<Shape>): Walked
    requires c.block < |blocks| && (forall shape | shape in shapes :: Aligns(shape))
    decreases |shapes|
  {
    var step := NextCommandId(blocks, c);
    if shapes == [] then Walked([], step)
    else if !step.NextId? || step.cursor.block >= |blocks| then Stuck
    else
      var command := NextCommand(blocks, step.cursor, shapes[0]);
      if command.None? then Stuck
      else
        var others := Walk(blocks, command.value.1, shapes[1..]);
        if others.Stuck? then Stuck
        else Walked([Found(step.id, step.cursor.block, command.value.0)] + others.found, others.end)
  }

  // ----- What has been recorded -----

  /** An allocation that succeeded. */
  datatype Item = Item(found: Found, shape: Shape)

  function Shapes(items: seq<Item>): (shapes: seq<Shape>)
    ensures |shapes| == |items| && forall i :: 0 <= i < |items| ==> shapes[i] == items[i].shape
  {
    if items == [] then [] else [items[0].shape] + Shapes(items[1..])
  }

  function Founds(items: seq<Item>): seq<Found> {
    if items == [] then [] else [items[0].found] + Founds(items[1..])
  }

  /** The item's id is stored at `p` in block `k`, its payload and the next id fit behind. */
  predicate RecordedAt(blocks: seq<Block>, k: nat, p: nat, item: Item) {
    && k < |blocks| && item.found.block == k && Stored(blocks[k], p, item.found.id) && item.found.id < END_OF_BLOCK
    && Aligns(item.shape) && item.found.address == PayloadAt(p, item.shape)
    && NextAt(p, item.shape) + ID_SIZE <= blocks[k].End()
  }

  /** From position `p` of block `k` on, the blocks hold exactly the items, then `end` in the last
      block; the blocks before it end with a tag. */
  predicate Trace(blocks: seq<Block>, k: nat, p: nat, items: seq<Item>, end: nat)
    decreases |blocks| - k, |items|
  {
    && k < |blocks| && p % ID_SIZE == 0 && blocks[k].HasId(p)
    && if items != [] && items[0].found.block == k then
         RecordedAt(blocks, k, p, items[0]) && Trace(blocks, k, NextAt(p, items[0].shape), items[1..], end)
       else if k + 1 < |blocks| then
         Stored(blocks[k], p, END_OF_BLOCK) && Trace(blocks, k + 1, Start(blocks[k + 1]), items, end)
       else items == [] && p == end
  }

  /** The allocator holds exactly the items. */
  predicate Records(s: State, items: seq<Item>) {
    && Valid(s)
    && if s.blocks == [] then items == [] && s.current == s.dummy.base && |s.dummy.data| == ID_SIZE
       else Trace(s.blocks, 0, Start(s.blocks[0]), items, s.current)
  }

  // ----- The iterator finds what was recorded -----

  /** The iterator asks for the next id anywhere before it, behind the previous payload. */
  predicate Before(c: Cursor, k: nat, p: nat) {
    c.block == k && RoundUp(c.pointer, ID_SIZE) == p
  }

  lemma SkipsTag(blocks: seq<Block>, c: Cursor, p: nat)
    requires c.block + 1 < |blocks| && Before(c, c.block, p) && Stored(blocks[c.block], p, END_OF_BLOCK)
    ensures NextCommandId(blocks, c) == NextCommandId(blocks, Cursor(c.block + 1, Start(blocks[c.block + 1])))
  {
    ReadsStored(blocks[c.block], p, END_OF_BLOCK);
  }

  lemma StartIsAligned(b: Block)
    ensures RoundUp(Start(b), ID_SIZE) == Start(b)
  {
  }

  /** An id, then the payload of the shape it was allocated with. */
  lemma ReadsItem(blocks: seq<Block>, c: Cursor, p: nat, item: Item)
    requires c.block < |blocks| && Before(c, c.block, p) && RecordedAt(blocks, c.block, p, item)
    ensures NextCommandId(blocks, c) == NextId(item.found.id, Cursor(c.block, p + ID_SIZE))
    ensures NextCommand(blocks, Cursor(c.block, p + ID_SIZE), item.shape)
            == Some((item.found.address, Cursor(c.block, item.found.address + item.shape.size)))
    ensures Before(Cursor(c.block, item.found.address + item.shape.size), c.block, NextAt(p, item.shape))
  {
    hide RoundUp, Holds, ToBytes, FromBytes, ReadId;
    ReadsStored(blocks[c.block], p, item.found.id);
  }

  lemma {:induction false} WalksTrace(blocks: seq<Block>, c: Cursor, p: nat, items: seq<Item>, end: nat)
    requires c.block < |blocks| && Before(c, c.block, p) && Trace(blocks, c.block, p, items, end)
    requires Stored(blocks[|blocks| - 1], end, END_OF_BLOCK)
    ensures forall shape | shape in Shapes(items) :: Aligns(shape)
    ensures Walk(blocks, c, Shapes(items)) == Walked(Founds(items), Finished(Reset(blocks)))
    decreases |blocks| - c.block, |items|
  {
    if items != [] && items[0].found.block == c.block {
      var item := items[0];
      ReadsItem(blocks, c, p, item);
      var after := Cursor(c.block, item.found.address + item.shape.size);
      WalksTrace(blocks, after, NextAt(p, item.shape), items[1..], end);
      assert Shapes(items)[1..] == Shapes(items[1..]);
    } else if c.block + 1 < |blocks| {
      var start := Start(blocks[c.block + 1]);
      SkipsTag(blocks, c, p);
      StartIsAligned(blocks[c.block + 1]);
      WalksTrace(blocks, Cursor(c.block + 1, start), start, items, end);
    } else {
      ReadsStored(blocks[c.block], p, END_OF_BLOCK);
    }
  }

  // ----- Where payloads are -----

  /** Payloads lie in their blocks, below the end of what has been recorded. */
  predicate Inside(blocks: seq<Block>, item: Item, end: nat) {
    var f := item.found;
    && f.block < |blocks| && blocks[f.block].base <= f.address && f.address + item.shape.size <= blocks[f.block].End()
    && (f.block == |blocks| - 1 ==> f.address + item.shape.size <= end)
    && Aligns(item.shape) && f.address % item.shape.alignment == 0
  }

  predicate Follows(item: Item, k: nat, p: nat) {
    item.found.block > k || (item.found.block == k && item.found.address >= p + ID_SIZE)
  }

  predicate Apart(a: Item, b: Item) {
    a.found.block < b.found.block || (a.found.block == b.found.block && a.found.address + a.shape.size <= b.found.address)
  }

  lemma {:induction false} TraceEnds(blocks: seq<Block>, k: nat, p: nat, items: seq<Item>, end: nat)
    requires Trace(blocks, k, p, items, end)
    ensures blocks[|blocks| - 1].HasId(end) && end % ID_SIZE == 0
    ensures k == |blocks| - 1 ==> p <= end
    decreases |blocks| - k, |items|
  {
    if items != [] && items[0].found.block == k {
      TraceEnds(blocks, k, NextAt(p, items[0].shape), items[1..], end);
    } else if k + 1 < |blocks| {
      TraceEnds(blocks, k + 1, Start(blocks[k + 1]), items, end);
    }
  }

  /** Every payload is in its block, aligned, and behind the position. */
  lemma {:induction false} TraceInside(blocks: seq<Block>, k: nat, p: nat, items: seq<Item>, end: nat, i: nat)
    requires Trace(blocks, k, p, items, end) && i < |items|
    ensures Inside(blocks, items[i], end) && Follows(items[i], k, p)
    decreases |blocks| - k, |items|
  {
    if items[0].found.block == k {
      var next := NextAt(p, items[0].shape);
      TraceEnds(blocks, k, next, items[1..], end);
      if i > 0 {
        TraceInside(blocks, k, next, items[1..], end, i - 1);
        assert items[i] == items[1..][i - 1];
      }
    } else {
      TraceInside(blocks, k + 1, Start(blocks[k + 1]), items, end, i);
    }
  }

  /** Payloads come in order and do not overlap. */
  lemma {:induction false} TraceApart(blocks: seq<Block>, k: nat, p: nat, items: seq<Item>, end: nat, i: nat, j: nat)
    requires Trace(blocks, k, p, items, end) && i < j < |items|
    ensures Apart(items[i], items[j])
    decreases |blocks| - k, |items|
  {
    if items[0].found.block == k {
      var next := NextAt(p, items[0].shape);
      if i == 0 {
        TraceInside(blocks, k, next, items[1..], end, j - 1);
      } else {
        TraceApart(blocks, k, next, items[1..], end, i - 1, j - 1);
      }
      assert items[j] == items[1..][j - 1];
    } else {
      TraceApart(blocks, k + 1, Start(blocks[k + 1]), items, end, i, j);
    }
  }

  // ----- Recording keeps what was recorded -----

  /** Every block but the last is as it was, and so is the last below `end`. */
  predicate KeptBelow(blocks: seq<Block>, blocks': seq<Block>, end: nat) {
    && 0 < |blocks| <= |blocks'|
    && (forall j :: 0 <= j < |blocks| - 1 ==> blocks'[j] == blocks[j])
    && Kept(blocks[|blocks| - 1], blocks'[|blocks| - 1], end, blocks[|blocks| - 1].End())
  }

  /** A block changed at most between two addresses. */
  predicate Kept(b: Block, b': Block, lo: nat, hi: nat) {
    b'.base == b.base && |b'.data| == |b.data| &&
    forall i :: 0 <= i < |b.data| && !(lo <= b.base + i < hi) ==> b'.data[i] == b.data[i]
  }

  lemma KeptStored(b: Block, b': Block, lo: nat, hi: nat, p: nat, id: nat)
    requires Kept(b, b', lo, hi) && Stored(b, p, id) && (p + ID_SIZE <= lo || hi <= p)
    ensures Stored(b', p, id)
  {
    hide ToBytes;
    var i := p - b.base;
    assert forall j :: i <= j < i + ID_SIZE ==> b'.data[j] == b.data[j];
  }

  /** An item recorded at the end. */
  lemma {:induction false} AppendsItem(blocks: seq<Block>, blocks': seq<Block>, k: nat, p: nat, items: seq<Item>, end: nat, item: Item)
    requires Trace(blocks, k, p, items, end) && KeptBelow(blocks, blocks', end) && |blocks'| == |blocks|
    requires RecordedAt(blocks', |blocks| - 1, end, item)
    ensures Trace(blocks', k, p, items + [item], NextAt(end, item.shape))
    decreases |blocks| - k, |items|
  {
    hide Stored, RoundUp;
    if items != [] && items[0].found.block == k {
      var next := NextAt(p, items[0].shape);
      TraceEnds(blocks, k, next, items[1..], end);
      if k == |blocks| - 1 {
        KeptStored(blocks[k], blocks'[k], end, blocks[k].End(), p, items[0].found.id);
      }
      AppendsItem(blocks, blocks', k, next, items[1..], end, item);
      assert (items + [item])[1..] == items[1..] + [item];
    } else if k + 1 < |blocks| {
      AppendsItem(blocks, blocks', k + 1, Start(blocks[k + 1]), items, end, item);
    } else {
      assert items + [item] == [item] && [item][1..] == [];
    }
  }

  /** A tag at the end, and a new block. */
  lemma {:induction false} AppendsBlock(blocks: seq<Block>, blocks': seq<Block>, k: nat, p: nat, items: seq<Item>, end: nat)
    requires Trace(blocks, k, p, items, end) && KeptBelow(blocks, blocks', end) && |blocks'| == |blocks| + 1
    requires Stored(blocks'[|blocks| - 1], end, END_OF_BLOCK) && blocks'[|blocks|].HasId(Start(blocks'[|blocks|]))
    ensures Trace(blocks', k, p, items, Start(blocks'[|blocks|]))
    decreases |blocks| - k, |items|
  {
    hide Stored, RoundUp;
    if items != [] && items[0].found.block == k {
      var next := NextAt(p, items[0].shape);
      TraceEnds(blocks, k, next, items[1..], end);
      if k == |blocks| - 1 {
        KeptStored(blocks[k], blocks'[k], end, blocks[k].End(), p, items[0].found.id);
      }
      AppendsBlock(blocks, blocks', k, next, items[1..], end);
    } else if k + 1 < |blocks| {
      AppendsBlock(blocks, blocks', k + 1, Start(blocks[k + 1]), items, end);
    }
  }

  /** A tag written at the end changes nothing before it. */
  lemma {:induction false} KeepsTrace(blocks: seq<Block>, blocks': seq<Block>, k: nat, p: nat, items: seq<Item>, end: nat)
    requires Trace(blocks, k, p, items, end) && KeptBelow(blocks, blocks', end) && |blocks'| == |blocks|
    ensures Trace(blocks', k, p, items, end)
    decreases |blocks| - k, |items|
  {
    hide Stored, RoundUp;
    if items != [] && items[0].found.block == k {
      var next := NextAt(p, items[0].shape);
      TraceEnds(blocks, k, next, items[1..], end);
      if k == |blocks| - 1 {
        KeptStored(blocks[k], blocks'[k], end, blocks[k].End(), p, items[0].found.id);
      }
      KeepsTrace(blocks, blocks', k, next, items[1..], end);
    } else if k + 1 < |blocks| {
      KeepsTrace(blocks, blocks', k + 1, Start(blocks[k + 1]), items, end);
    }
  }

  // ----- Filling payloads keeps what was recorded -----

  /** Only block `b` changed, and only between two addresses. */
  predicate Changed(blocks: seq<Block>, blocks': seq<Block>, b: nat, lo: nat, hi: nat) {
    && |blocks'| == |blocks|
    && forall j :: 0 <= j < |blocks| ==> if j == b then Kept(blocks[j], blocks'[j], lo, hi) else blocks'[j] == blocks[j]
  }

  lemma {:induction false} KeepsTraceBehind(blocks: seq<Block>, blocks': seq<Block>, k: nat, p: nat, items: seq<Item>, end: nat,
                                            b: nat, lo: nat, hi: nat)
    requires Trace(blocks, k, p, items, end) && Changed(blocks, blocks', b, lo, hi) && (k > b || (k == b && hi <= p))
    ensures Trace(blocks', k, p, items, end)
    decreases |blocks| - k, |items|
  {
    if items != [] && items[0].found.block == k {
      if k == b {
        KeptStored(blocks[k], blocks'[k], lo, hi, p, items[0].found.id);
      }
      KeepsTraceBehind(blocks, blocks', k, NextAt(p, items[0].shape), items[1..], end, b, lo, hi);
    } else if k + 1 < |blocks| {
      if k == b {
        KeptStored(blocks[k], blocks'[k], lo, hi, p, END_OF_BLOCK);
      }
      KeepsTraceBehind(blocks, blocks', k + 1, Start(blocks[k + 1]), items, end, b, lo, hi);
    }
  }

  /** Bytes written into the payload of an item. */
  lemma {:induction false} FillKeepsTrace(blocks: seq<Block>, blocks': seq<Block>, k: nat, p: nat, items: seq<Item>, end: nat, i: nat)
    requires Trace(blocks, k, p, items, end) && i < |items|
    requires var f := items[i].found; Changed(blocks, blocks', f.block, f.address, f.address + items[i].shape.size)
    ensures Trace(blocks', k, p, items, end)
    decreases |blocks| - k, |items|
  {
    var b, lo, hi := items[i].found.block, items[i].found.address, items[i].found.address + items[i].shape.size;
    TraceInside(blocks, k, p, items, end, i);
    if items[0].found.block == k {
      var next := NextAt(p, items[0].shape);
      if k == b {
        KeptStored(blocks[k], blocks'[k], lo, hi, p, items[0].found.id);
      }
      if i == 0 {
        KeepsTraceBehind(blocks, blocks', k, next, items[1..], end, b, lo, hi);
      } else {
        assert items[i] == items[1..][i - 1];
        FillKeepsTrace(blocks, blocks', k, next, items[1..], end, i - 1);
      }
    } else {
      if k == b {
        KeptStored(blocks[k], blocks'[k], lo, hi, p, END_OF_BLOCK);
      }
      FillKeepsTrace(blocks, blocks', k + 1, Start(blocks[k + 1]), items, end, i);
    }
  }
}
