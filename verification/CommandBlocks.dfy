/** How many blocks one allocation takes, and how large blocks are. */
module CommandBlocks {
  import opened BitMath
  import opened Wrappers
  import opened CommandAllocation
  import opened CommandRuns
  import Bytes

  ghost predicate MallocAligns(malloc: Malloc, alignment: nat)
    requires alignment > 0
  {
    forall k: nat :: malloc(k).Some? ==> malloc(k).value.base % alignment == 0
  }

  // ----- Padding -----

  lemma PowerOfTwoCases(a: nat)
    requires IsAlignment(a)
    ensures a == 1 || a == 2 || (a >= 4 && a % 4 == 0)
  {
    var k: nat :| a == Pow2(k);
    if k >= 2 {
      FourTimes(k);
      Remainder(Pow2(k - 2));
    }
  }

  lemma FourTimes(k: nat)
    requires k >= 2
    ensures Pow2(k) == 4 * Pow2(k - 2)
  {
    assert Pow2(k) == 2 * Pow2(k - 1);
  }

  lemma Remainder(m: nat)
    ensures 4 * m % 4 == 0
  {
  }

  lemma MultipleOfMultiple(x: nat, a: nat)
    requires a > 0 && a % 4 == 0 && x % a == 0
    ensures x % 4 == 0
  {
    var q, m := x / a, a / 4;
    assert x == a * q && a == 4 * m;
    assert x == 4 * (m * q);
    DivisionUnique(4, m * q, 0);
  }

  lemma ShiftRoundUp(x: nat, y: nat)
    requires x % 4 == 0
    ensures RoundUp(x + y, 4) == x + RoundUp(y, 4)
  {
    RoundUpUnique(x + y, 4, x + RoundUp(y, 4));
  }

  lemma NoPadding(p: nat, a: nat)
    requires p % 4 == 0 && a in {1, 2, 4}
    ensures RoundUp(p + 4, a) == p + 4
  {
    if a == 1 {
      RoundUpUnique(p + 4, 1, p + 4);
    } else if a == 2 {
      RoundUpUnique(p + 4, 2, p + 4);
    } else {
      RoundUpUnique(p + 4, 4, p + 4);
    }
  }

  /** Bytes taken by an allocation with an alignment that divides four: no padding before the
      payload. */
  lemma TakenSmall(p: nat, shape: Shape)
    requires p % 4 == 0 && shape.alignment in {1, 2, 4}
    ensures Taken(p, shape) == ID_SIZE + RoundUp(shape.size, 4)
  {
    hide RoundUp;
    NoPadding(p, shape.alignment);
    ShiftRoundUp(p + 4, shape.size);
  }

  lemma TakenBehind(p: nat, payload: nat, shape: Shape)
    requires Aligns(shape) && payload == PayloadAt(p, shape) && payload % 4 == 0
    ensures Taken(p, shape) == payload - p + RoundUp(shape.size, 4)
  {
    hide RoundUp;
    ShiftRoundUp(payload, shape.size);
  }

  lemma Padding(p: nat, a: nat) returns (padded: nat)
    requires p % 4 == 0 && a > 0 && a % 4 == 0
    ensures RoundUp(p + 4, a) == p + padded && padded % 4 == 0 && 4 <= padded <= a && (p + padded) % 4 == 0
  {
    hide RoundUp;
    MultipleOfMultiple(RoundUp(p + 4, a), a);
    padded := RoundUp(p + 4, a) - p;
  }

  /** With a larger alignment, the padding is a multiple of four and below the alignment. */
  lemma TakenLarge(p: nat, shape: Shape)
    requires p % 4 == 0 && shape.alignment > 0 && shape.alignment % 4 == 0
    ensures var padded := Taken(p, shape) - RoundUp(shape.size, 4);
            padded % 4 == 0 && 4 <= padded <= shape.alignment
  {
    hide RoundUp;
    var padded := Padding(p, shape.alignment);
    TakenBehind(p, p + padded, shape);
  }

  /** At an address with that alignment, the padding is largest. */
  lemma TakenAligned(p: nat, shape: Shape)
    requires p % 4 == 0 && shape.alignment > 0 && shape.alignment % 4 == 0 && p % shape.alignment == 0
    ensures Taken(p, shape) == shape.alignment + RoundUp(shape.size, 4)
  {
    hide RoundUp;
    var padded := Padding(p, shape.alignment);
    FullPadding(p, shape.alignment);
    TakenBehind(p, p + padded, shape);
  }

  lemma FullPadding(p: nat, a: nat)
    requires a >= 4 && p % a == 0
    ensures RoundUp(p + 4, a) == p + a
  {
    hide RoundUp;
    NextMultiple(p, a);
    RoundUpUnique(p + 4, a, p + a);
  }

  lemma NextMultiple(p: nat, a: nat)
    requires a > 0 && p % a == 0
    ensures (p + a) % a == 0
  {
    DivisionUnique(a, p / a + 1, 0);
    assert p + a == a * (p / a + 1);
  }

  // ----- One step of the recursion -----

  /** What a new block is like. */
  lemma NextBlockIs(s: State, shape: Shape, malloc: Malloc)
    requires Valid(s) && Aligns(shape) && NextBlock(s, shape, malloc).0
    ensures var s2 := NextBlock(s, shape, malloc).1;
            && Valid(s2) && malloc(s.calls).Some?
            && Top(s2).base == malloc(s.calls).value.base && s2.current == Start(Top(s2))
            && Top(s2).End() >= Top(s2).base + Taken(s.current, shape) + 8
  {
    AsksForMore(s, shape, malloc);
  }

  /** Blocks after an allocation, by the branch it takes. */
  lemma BlocksOf(s: State, id: nat, shape: Shape, malloc: Malloc)
    requires Valid(s) && Aligns(shape)
    ensures var blocks' := Allocate(s, id, shape, malloc).1.blocks;
            var (ok, s2) := NextBlock(s, shape, malloc);
            && (Fits(s, shape) || !ok ==> |blocks'| == |s.blocks|)
            && (!Fits(s, shape) && ok ==>
                  Valid(s2) && |s2.blocks| == |s.blocks| + 1 && blocks' == Allocate(s2, id, shape, malloc).1.blocks)
  {
    if NextBlock(s, shape, malloc).0 {
      AsksForMore(s, shape, malloc);
    }
  }

  /** Alignments up to four take at most one new block. */
  lemma SmallAlignmentTakesOne(s: State, id: nat, shape: Shape, malloc: Malloc)
    requires Valid(s) && shape.alignment in {1, 2, 4}
    ensures |Allocate(s, id, shape, malloc).1.blocks| <= |s.blocks| + 1
  {
    hide RoundUp, NextBlock, Allocate;
    BlocksOf(s, id, shape, malloc);
    if !Fits(s, shape) && NextBlock(s, shape, malloc).0 {
      var s2 := NextBlock(s, shape, malloc).1;
      NextBlockIs(s, shape, malloc);
      TakenSmall(s.current, shape);
      TakenSmall(s2.current, shape);
      BlocksOf(s2, id, shape, malloc);
    }
  }

  /** So does alignment eight when `malloc` returns addresses aligned to four. */
  lemma EightTakesOne(s: State, id: nat, shape: Shape, malloc: Malloc)
    requires Valid(s) && shape.alignment == 8 && MallocAligns(malloc, 4)
    ensures |Allocate(s, id, shape, malloc).1.blocks| <= |s.blocks| + 1
  {
    hide RoundUp, NextBlock, Allocate;
    BlocksOf(s, id, shape, malloc);
    if !Fits(s, shape) && NextBlock(s, shape, malloc).0 {
      var s2 := NextBlock(s, shape, malloc).1;
      NextBlockIs(s, shape, malloc);
      TakenLarge(s.current, shape);
      TakenLarge(s2.current, shape);
      BlocksOf(s2, id, shape, malloc);
    }
  }

  /** A block aligned as asked needs the largest padding, so the block after it fits. */
  lemma AlignedBlock(s: State, shape: Shape, malloc: Malloc)
    requires Valid(s) && shape.alignment > 0 && shape.alignment % 4 == 0 && MallocAligns(malloc, shape.alignment)
    requires NextBlock(s, shape, malloc).0
    ensures var s2 := NextBlock(s, shape, malloc).1;
            Valid(s2) && Taken(s2.current, shape) == shape.alignment + RoundUp(shape.size, 4)
    ensures Taken(s.current, shape) == shape.alignment + RoundUp(shape.size, 4) ==> Fits(NextBlock(s, shape, malloc).1, shape)
  {
    hide RoundUp, NextBlock;
    var s2 := NextBlock(s, shape, malloc).1;
    NextBlockIs(s, shape, malloc);
    MultipleOfMultiple(Top(s2).base, shape.alignment);
    RoundUpUnique(Top(s2).base, 4, Top(s2).base);
    TakenAligned(s2.current, shape);
  }

  /** An alignment that `malloc` honours takes at most two new blocks. */
  lemma HonouredAlignmentTakesTwo(s: State, id: nat, shape: Shape, malloc: Malloc)
    requires Valid(s) && IsAlignment(shape.alignment) && MallocAligns(malloc, shape.alignment)
    ensures |Allocate(s, id, shape, malloc).1.blocks| <= |s.blocks| + 2
  {
    hide RoundUp, PayloadAt, NextAt, NextBlock, IsAlignment, Allocate, Taken, Fits, Valid;
    PowerOfTwoCases(shape.alignment);
    if shape.alignment < 4 {
      SmallAlignmentTakesOne(s, id, shape, malloc);
    } else {
      BlocksOf(s, id, shape, malloc);
      if !Fits(s, shape) && NextBlock(s, shape, malloc).0 {
        var s2 := NextBlock(s, shape, malloc).1;
        AlignedBlock(s, shape, malloc);
        BlocksOf(s2, id, shape, malloc);
        if NextBlock(s2, shape, malloc).0 {
          AlignedBlock(s2, shape, malloc);
          BlocksOf(NextBlock(s2, shape, malloc).1, id, shape, malloc);
        }
      }
    }
  }

  lemma {:induction false} FailuresGrow(s: State, id: nat, shape: Shape, malloc: Malloc)
    requires Valid(s) && shape.alignment > 0 && shape.alignment % 4 == 0 && !Fits(s, shape)
    ensures 4 * |Allocate(s, id, shape, malloc).1.blocks|
            <= 4 * |s.blocks| + shape.alignment + RoundUp(shape.size, 4) - Taken(s.current, shape) + 4
    decreases Measure(s, shape)
  {
    hide RoundUp, PayloadAt, NextAt, NextBlock, Allocate, Taken;
    TakenLarge(s.current, shape);
    BlocksOf(s, id, shape, malloc);
    if NextBlock(s, shape, malloc).0 {
      var s2 := NextBlock(s, shape, malloc).1;
      TakenLarge(s2.current, shape);
      AsksForMore(s, shape, malloc);
      BlocksOf(s2, id, shape, malloc);
      if !Fits(s2, shape) {
        FailuresGrow(s2, id, shape, malloc);
      }
    }
  }

  /** Whatever addresses `malloc` returns, the recursion takes at most a quarter of the alignment in
      new blocks, or one. */
  lemma AnyAlignmentIsBounded(s: State, id: nat, shape: Shape, malloc: Malloc)
    requires Valid(s) && IsAlignment(shape.alignment)
    ensures |Allocate(s, id, shape, malloc).1.blocks| <= |s.blocks| + Max(1, shape.alignment / 4)
  {
    hide RoundUp, PayloadAt, NextAt, NextBlock, IsAlignment, Allocate, Taken;
    PowerOfTwoCases(shape.alignment);
    if shape.alignment < 4 {
      SmallAlignmentTakesOne(s, id, shape, malloc);
    } else {
      BlocksOf(s, id, shape, malloc);
      if !Fits(s, shape) {
        FailuresGrow(s, id, shape, malloc);
        TakenLarge(s.current, shape);
      }
    }
  }

  // ----- Block sizes -----

  predicate SizesIn(blocks: seq<Block>, most: nat) {
    forall b | b in blocks :: SMALLEST_BLOCK <= |b.data| <= Max(LARGEST_DOUBLING, most)
  }

  lemma TaggedSizes(s: State, id: nat, most: nat)
    requires Valid(s) && SizesIn(s.blocks, most)
    ensures SizesIn(Tagged(s, id).blocks, most)
  {
    var blocks' := Tagged(s, id).blocks;
    forall b | b in blocks' ensures SMALLEST_BLOCK <= |b.data| <= Max(LARGEST_DOUBLING, most) {
      var i :| 0 <= i < |blocks'| && blocks'[i] == b;
      assert s.blocks[i] in s.blocks;
    }
  }

  lemma {:induction false} AllocateSizes(s: State, id: nat, shape: Shape, malloc: Malloc, most: nat)
    requires Valid(s) && Aligns(shape) && SizesIn(s.blocks, most) && shape.alignment + shape.size + 14 <= most
    ensures SizesIn(Allocate(s, id, shape, malloc).1.blocks, most)
    decreases Measure(s, shape)
  {
    if Fits(s, shape) {
      TaggedSizes(s, id, most);
    } else {
      TaggedSizes(s, END_OF_BLOCK, most);
      if NextBlock(s, shape, malloc).0 {
        AsksForMore(s, shape, malloc);
        AllocateSizes(NextBlock(s, shape, malloc).1, id, shape, malloc, most);
      }
    }
  }

  /** No request of the run asks for more than `most` bytes with its id, padding and tag. */
  predicate AsksAtMost(ops: seq<Op>, most: nat) {
    forall op | op in ops && op.Record? :: op.shape.alignment + op.shape.size + 14 <= most
  }

  lemma {:induction false} SizesStay(ops: seq<Op>, s: State, log: Log, malloc: Malloc, most: nat)
    requires Good(s, log) && SizesIn(s.blocks, most) && AsksAtMost(ops, most) && Run(ops, s, log, malloc).Some?
    ensures SizesIn(Run(ops, s, log, malloc).value.0.blocks, most)
    decreases |ops|
  {
    if ops != [] {
      var (s', log') := Apply(ops[0], s, log, malloc);
      ApplyKeepsGood(ops[0], s, log, malloc);
      match ops[0] {
        case Record(id, shape) => AllocateSizes(s, id, shape, malloc, most);
        case Fill(i, offset, bytes) =>
          assert HasPayload(s.blocks, log.items[i], log.contents[i]);
          FillSizes(s.blocks, log.items[i], offset, bytes, most);
      }
      SizesStay(ops[1..], s', log', malloc, most);
    }
  }

  lemma FillSizes(blocks: seq<Block>, item: Item, offset: nat, bytes: seq<Bytes.byte>, most: nat)
    requires SizesIn(blocks, most) && Covered(blocks, item) && offset + |bytes| <= item.shape.size
    ensures SizesIn(FillBlocks(blocks, item, offset, bytes), most)
  {
    var blocks' := FillBlocks(blocks, item, offset, bytes);
    forall b | b in blocks' ensures SMALLEST_BLOCK <= |b.data| <= Max(LARGEST_DOUBLING, most) {
      var i :| 0 <= i < |blocks'| && blocks'[i] == b;
      assert blocks[i] in blocks;
    }
  }

  /** In every run, blocks have at least 4096 bytes, and at most 16384 or what the largest request
      needs. */
  lemma RunBlockSizes(ops: seq<Op>, dummy: Block, malloc: Malloc, most: nat)
    requires IsDummy(dummy) && AsksAtMost(ops, most) && Run(ops, Initial(dummy), Log([], []), malloc).Some?
    ensures SizesIn(Run(ops, Initial(dummy), Log([], []), malloc).value.0.blocks, most)
  {
    SizesStay(ops, Initial(dummy), Log([], []), malloc, most);
  }

  // ----- Doubling -----

  ghost predicate MallocSucceeds(malloc: Malloc) {
    forall k: nat :: malloc(k).Some?
  }

  /** Each block is twice as large as the one before, from 4096 bytes up to 16384. */
  predicate SizesDouble(blocks: seq<Block>) {
    forall k | 0 <= k < |blocks| :: |blocks[k].data| == Min(SMALLEST_BLOCK * Pow2(k), LARGEST_DOUBLING)
  }

  /** So is the next one. */
  predicate Doubles(s: State) {
    SizesDouble(s.blocks) && Min(2 * s.lastSize, LARGEST_DOUBLING) == Min(SMALLEST_BLOCK * Pow2(|s.blocks|), LARGEST_DOUBLING)
  }

  lemma NextBlockDoubles(s: State, shape: Shape, malloc: Malloc)
    requires Valid(s) && Aligns(shape) && Doubles(s) && MallocSucceeds(malloc)
    requires shape.alignment + shape.size + 14 <= SMALLEST_BLOCK
    ensures NextBlock(s, shape, malloc).0 && Doubles(NextBlock(s, shape, malloc).1)
  {
    hide Taken, RoundUp;
    assert malloc(s.calls).Some?;
    var power := Pow2(|s.blocks|);
    var s2 := NextBlock(s, shape, malloc).1;
    assert Pow2(|s2.blocks|) == 2 * power;
    assert s2.lastSize == Min(SMALLEST_BLOCK * power, LARGEST_DOUBLING);
    assert forall k | 0 <= k < |s.blocks| :: |s2.blocks[k].data| == |s.blocks[k].data|;
  }

  lemma {:induction false} AllocateDoubles(s: State, id: nat, shape: Shape, malloc: Malloc)
    requires Valid(s) && Aligns(shape) && Doubles(s) && MallocSucceeds(malloc)
    requires shape.alignment + shape.size + 14 <= SMALLEST_BLOCK
    ensures Doubles(Allocate(s, id, shape, malloc).1)
    decreases Measure(s, shape)
  {
    hide Taken, RoundUp, Fits, NextAt, PayloadAt, Pow2;
    if !Fits(s, shape) {
      hide NextBlock, Doubles, Measure;
      NextBlockDoubles(s, shape, malloc);
      AsksForMore(s, shape, malloc);
      ShrinksMeasure(s, shape, malloc);
      AllocateDoubles(NextBlock(s, shape, malloc).1, id, shape, malloc);
    }
  }

  lemma ShrinksMeasure(s: State, shape: Shape, malloc: Malloc)
    requires Valid(s) && Aligns(shape) && !Fits(s, shape) && NextBlock(s, shape, malloc).0
    ensures Measure(NextBlock(s, shape, malloc).1, shape) < Measure(s, shape)
  {
    hide NextBlock;
    AsksForMore(s, shape, malloc);
  }

  lemma {:induction false} DoublingStays(ops: seq<Op>, s: State, log: Log, malloc: Malloc)
    requires Good(s, log) && Doubles(s) && MallocSucceeds(malloc) && AsksAtMost(ops, SMALLEST_BLOCK) && Run(ops, s, log, malloc).Some?
    ensures SizesDouble(Run(ops, s, log, malloc).value.0.blocks)
    decreases |ops|
  {
    if ops != [] {
      var (s', log') := Apply(ops[0], s, log, malloc);
      ApplyKeepsGood(ops[0], s, log, malloc);
      match ops[0] {
        case Record(id, shape) => AllocateDoubles(s, id, shape, malloc);
        case Fill(i, offset, bytes) =>
          assert HasPayload(s.blocks, log.items[i], log.contents[i]);
      }
      DoublingStays(ops[1..], s', log', malloc);
    }
  }

  /** In every run of small requests, as long as `malloc` succeeds, block `k` has 4096 * 2^k bytes, but
      never more than 16384. */
  lemma RunDoublesBlocks(ops: seq<Op>, dummy: Block, malloc: Malloc)
    requires IsDummy(dummy) && MallocSucceeds(malloc) && AsksAtMost(ops, SMALLEST_BLOCK)
    requires Run(ops, Initial(dummy), Log([], []), malloc).Some?
    ensures SizesDouble(Run(ops, Initial(dummy), Log([], []), malloc).value.0.blocks)
  {
    DoublingStays(ops, Initial(dummy), Log([], []), malloc);
  }
}
