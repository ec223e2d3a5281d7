/** The classes of src/dawn_native/CommandAllocator.h, whose fields the methods update in place, each
    method against the function on values that says what it does. */
module CommandMemory {
  import opened BitMath
  import opened Bytes
  import opened Wrappers
  import A = CommandAllocation
  import opened CommandRuns

  class CommandAllocator {
    const malloc: A.Malloc
    var dummyEnum: A.Block
    var blocks: seq<A.Block>
    var lastAllocationSize: nat
    var currentPtr: nat
    var endPtr: nat

    /** Both pointers are null. */
    var blocksAcquired: bool

    /** Calls of `malloc` so far. */
    var mallocCalls: nat

    function Value(): A.State
      reads this
    {
      A.State(dummyEnum, blocks, currentPtr, lastAllocationSize, mallocCalls)
    }

    /** The pointers delimit what is left of the last block. */
    predicate Valid()
      reads this
    {
      !blocksAcquired ==> A.Valid(Value()) && endPtr == A.Top(Value()).End()
    }

    constructor (malloc: A.Malloc, dummyEnum: A.Block)
      requires IsDummy(dummyEnum)
      ensures Valid() && !blocksAcquired && Value() == A.Initial(dummyEnum) && this.malloc == malloc
    {
      this.malloc := malloc;
      this.dummyEnum := dummyEnum;
      blocks := [];
      lastAllocationSize := 2048;
      currentPtr := dummyEnum.base;
      endPtr := dummyEnum.End();
      blocksAcquired := false;
      mallocCalls := 0;
    }

    method StoreId(id: nat)
      requires Valid() && !blocksAcquired
      modifies this`dummyEnum, this`blocks
      ensures Valid() && Value() == A.Tagged(old(Value()), id)
    {
      if blocks == [] {
        dummyEnum := A.WriteId(dummyEnum, currentPtr, id);
      } else {
        var top := |blocks| - 1;
        blocks := blocks[top := A.WriteId(blocks[top], currentPtr, id)];
      }
    }

    method GetNewBlock(minimumSize: nat) returns (ok: bool)
      requires Valid() && !blocksAcquired
      modifies this
      ensures Valid() && !blocksAcquired && (ok, Value()) == A.GetNewBlock(old(Value()), minimumSize, malloc)
    {
      lastAllocationSize := A.Max(minimumSize, A.Min(lastAllocationSize * 2, A.LARGEST_DOUBLING));
      var grant := malloc(mallocCalls);
      mallocCalls := mallocCalls + 1;
      if grant.None? {
        return false;
      }
      var block := A.Fresh(grant.value, lastAllocationSize);
      blocks := blocks + [block];
      currentPtr := RoundUp(block.base, A.ID_SIZE);
      endPtr := block.base + lastAllocationSize;
      ok := true;
    }

    method Allocate(commandId: nat, commandSize: nat, commandAlignment: nat) returns (address: Option<nat>)
      requires Valid() && !blocksAcquired && commandId < A.END_OF_BLOCK && commandAlignment > 0
      modifies this
      ensures Valid() && !blocksAcquired
      ensures (address, Value()) == A.Allocate(old(Value()), commandId, A.Shape(commandSize, commandAlignment), malloc)
      decreases A.Measure(Value(), A.Shape(commandSize, commandAlignment))
    {
      hide RoundUp, A.WriteId, A.Fresh, A.BlockSize, A.WithTop;
      ghost var before, shape := Value(), A.Shape(commandSize, commandAlignment);
      var commandAlloc := RoundUp(currentPtr + A.ID_SIZE, commandAlignment);
      var nextPtr := RoundUp(commandAlloc + commandSize, A.ID_SIZE);
      if nextPtr + A.ID_SIZE > endPtr {
        StoreId(A.END_OF_BLOCK);
        var ok := GetNewBlock(nextPtr - currentPtr + A.ID_SIZE + A.ID_SIZE);
        if !ok {
          return None;
        }
        A.AsksForMore(before, shape, malloc);
        address := Allocate(commandId, commandSize, commandAlignment);
      } else {
        StoreId(commandId);
        currentPtr := nextPtr;
        address := Some(commandAlloc);
      }
    }

    method AllocateData(commandSize: nat, commandAlignment: nat) returns (address: Option<nat>)
      requires Valid() && !blocksAcquired && commandAlignment > 0
      modifies this
      ensures Valid() && !blocksAcquired
      ensures (address, Value()) == A.Allocate(old(Value()), A.ADDITIONAL_DATA, A.Shape(commandSize, commandAlignment), malloc)
    {
      address := Allocate(A.ADDITIONAL_DATA, commandSize, commandAlignment);
    }

    /** A write through the address of a payload in the last block. */
    method StoreBytes(address: nat, bytes: seq<byte>)
      requires Valid() && !blocksAcquired && blocks != []
      requires blocks[|blocks| - 1].base <= address && address + |bytes| <= blocks[|blocks| - 1].End()
      modifies this`blocks
      ensures Valid()
      ensures var top := |old(blocks)| - 1;
              var b := old(blocks)[top];
              blocks == old(blocks)[top := b.(data := Put(b.data, address - b.base, bytes))]
    {
      var top := |blocks| - 1;
      blocks := blocks[top := blocks[top].(data := Put(blocks[top].data, address - blocks[top].base, bytes))];
    }

    method AcquireBlocks() returns (acquired: seq<A.Block>)
      requires Valid() && !blocksAcquired
      modifies this
      ensures Valid() && blocksAcquired && blocks == [] && acquired == A.AcquireBlocks(old(Value()))
    {
      StoreId(A.END_OF_BLOCK);
      blocksAcquired := true;
      acquired := blocks;
      blocks := [];
    }
  }

  class CommandIterator {
    var blocks: seq<A.Block>
    var currentBlock: nat
    var currentPtr: nat

    predicate Valid()
      reads this
    {
      currentBlock < |blocks|
    }

    function Position(): A.Cursor
      reads this
    {
      A.Cursor(currentBlock, currentPtr)
    }

    constructor (acquired: seq<A.Block>, sentinel: nat)
      ensures Valid() && blocks == A.IteratorBlocks(acquired, sentinel) && Position() == A.Reset(blocks)
    {
      blocks := A.IteratorBlocks(acquired, sentinel);
      currentBlock := 0;
      currentPtr := RoundUp(A.IteratorBlocks(acquired, sentinel)[0].base, A.ID_SIZE);
    }

    method Reset()
      requires Valid()
      modifies this`currentBlock, this`currentPtr
      ensures Valid() && Position() == A.Reset(blocks)
    {
      currentBlock := 0;
      currentPtr := RoundUp(blocks[0].base, A.ID_SIZE);
    }

    /** The source asserts that the id lies in the block. */
    method NextCommandId() returns (hasId: bool, commandId: nat)
      requires Valid() && A.NextCommandId(blocks, Position()) != A.OutOfBlock
      modifies this`currentBlock, this`currentPtr
      ensures Valid()
      ensures match A.NextCommandId(blocks, old(Position()))
              case NextId(id, cursor) => hasId && commandId == id && Position() == cursor
              case Finished(cursor) => !hasId && commandId == A.END_OF_BLOCK && Position() == cursor
              case OutOfBlock => false
      decreases |blocks| - currentBlock
    {
      var idPtr := RoundUp(currentPtr, A.ID_SIZE);
      var id := A.ReadId(blocks[currentBlock], idPtr);
      if id == A.END_OF_BLOCK {
        if currentBlock + 1 >= |blocks| {
          Reset();
          return false, A.END_OF_BLOCK;
        }
        currentBlock := currentBlock + 1;
        currentPtr := RoundUp(blocks[currentBlock].base, A.ID_SIZE);
        hasId, commandId := NextCommandId();
      } else {
        currentPtr := idPtr + A.ID_SIZE;
        hasId, commandId := true, id;
      }
    }

    /** The source asserts that the payload lies in the block. */
    method NextCommand(commandSize: nat, commandAlignment: nat) returns (address: nat)
      requires Valid() && commandAlignment > 0
      requires A.NextCommand(blocks, Position(), A.Shape(commandSize, commandAlignment)).Some?
      modifies this`currentPtr
      ensures Valid()
      ensures A.NextCommand(blocks, old(Position()), A.Shape(commandSize, commandAlignment)) == Some((address, Position()))
    {
      address := RoundUp(currentPtr, commandAlignment);
      currentPtr := address + commandSize;
    }

    method NextData(dataSize: nat, dataAlignment: nat) returns (address: nat)
      requires Valid() && dataAlignment > 0
      requires var step := A.NextCommandId(blocks, Position());
               && step.NextId? && step.id == A.ADDITIONAL_DATA && step.cursor.block < |blocks|
               && A.NextCommand(blocks, step.cursor, A.Shape(dataSize, dataAlignment)).Some?
      modifies this`currentBlock, this`currentPtr
      ensures Valid()
      ensures A.NextCommand(blocks, A.NextCommandId(blocks, old(Position())).cursor, A.Shape(dataSize, dataAlignment))
              == Some((address, Position()))
    {
      var hasId, id := NextCommandId();
      address := NextCommand(dataSize, dataAlignment);
    }
  }

  /** Records commands, hands the blocks to an iterator and reads the commands back: the ids and the
      payload addresses come out in the order they went in. */
  method RecordAndReplay(allocator: CommandAllocator, ghost log: Log, shapes: seq<A.Shape>, sentinel: nat)
    returns (found: seq<A.Found>)
    requires allocator.Valid() && !allocator.blocksAcquired && Good(allocator.Value(), log)
    requires sentinel % A.ID_SIZE == 0 && shapes == A.Shapes(log.items)
    modifies allocator
    ensures found == A.Founds(log.items)
  {
    hide A.NextCommandId, A.NextCommand, RoundUp, Good, A.AcquireBlocks, HasPayload, A.Founds, A.Shapes, A.Valid;
    IteratorFinds(allocator.Value(), log, sentinel);
    var acquired := allocator.AcquireBlocks();
    var commands := new CommandIterator(acquired, sentinel);
    ghost var all := A.Walk(commands.blocks, commands.Position(), shapes);
    found := [];
    var i := 0;
    while i < |shapes|
      invariant commands.Valid() && i <= |shapes|
      invariant fresh(commands) && commands.blocks == A.IteratorBlocks(acquired, sentinel)
      invariant forall shape | shape in shapes[i..] :: A.Aligns(shape)
      invariant var left := A.Walk(commands.blocks, commands.Position(), shapes[i..]);
                left.Walked? && all == A.Walked(found + left.found, left.end)
    {
      ghost var left := A.Walk(commands.blocks, commands.Position(), shapes[i..]);
      assert shapes[i] in shapes[i..];
      var hasId, id := commands.NextCommandId();
      var block := commands.currentBlock;
      var address := commands.NextCommand(shapes[i].size, shapes[i].alignment);
      assert shapes[i..][1..] == shapes[i + 1..];
      assert found + left.found == (found + [A.Found(id, block, address)]) + left.found[1..];
      found := found + [A.Found(id, block, address)];
      i := i + 1;
    }
    assert shapes[i..] == [];
  }
}
