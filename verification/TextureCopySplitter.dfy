/** Splitting of buffer-texture copies whose buffer offset is not aligned to 512 bytes,
    src/dawn_native/d3d12/TextureCopySplitter.cpp. */
module TextureCopySplitter {
  import opened BitMath
  import opened PassUsage
  import opened CopyValidation

  const PLACEMENT_ALIGNMENT: nat := 512

  datatype Extent = Extent(width: uint32, height: uint32, depth: uint32)

  datatype Origin = Origin(x: uint32, y: uint32, z: uint32)

  datatype CopyInfo = CopyInfo(textureOffset: Origin, bufferOffset: Origin, bufferSize: Extent, copySize: Extent)

  datatype TextureCopySplit = TextureCopySplit(offset: nat, copies: seq<CopyInfo>)

  /** The copied box of the texture. */
  datatype Box = Box(origin: Origin, size: Extent)

  /** `Unsupported`: the source asserts that the box is in the first slice. */
  datatype SplitResult = Split(split: TextureCopySplit) | DividesByZero | Unsupported

  function ComputeTexelOffsets(offset: uint32, rowPitch: nat, slicePitch: nat, texelSize: TexelSize): Origin
    requires rowPitch > 0 && slicePitch > 0
  {
    RemainderAtMost(offset, rowPitch);
    RemainderAtMost(offset - offset % rowPitch, slicePitch);
    var byteOffsetX := offset % rowPitch;
    var byteOffsetY := (offset - byteOffsetX) % slicePitch;
    var byteOffsetZ := offset - byteOffsetX - byteOffsetY;
    QuotientAtMost(byteOffsetX, texelSize);
    QuotientAtMost(byteOffsetY, rowPitch);
    QuotientAtMost(byteOffsetZ, slicePitch);
    Origin(byteOffsetX / texelSize, byteOffsetY / rowPitch, byteOffsetZ / slicePitch)
  }

  lemma QuotientAtMost(n: nat, d: nat)
    requires d > 0
    ensures n / d <= n
  {
    MulStep(n / d, 0, d);
    assert n == d * (n / d) + n % d;
    assert d * (n / d) == (n / d) * d;
  }

  lemma RemainderAtMost(n: nat, d: nat)
    requires d > 0
    ensures n % d <= n
  {
    assert n == d * (n / d) + n % d;
  }

  /** Masking with the complement of the placement alignment less one. */
  function AlignDown(offset: nat): nat {
    offset - offset % PLACEMENT_ALIGNMENT
  }

  /** The arithmetic is done in 32 bits. */
  function ComputeTextureCopySplit(box: Box, texelSize: TexelSize, offset: uint32, rowPitch: uint32): SplitResult
    requires rowPitch % texelSize == 0
  {
    var size := box.size;
    var alignedOffset := AlignDown(offset);
    if box.origin.z != 0 || size.depth > 1 then Unsupported
    else if offset == alignedOffset then
      Split(TextureCopySplit(alignedOffset, [CopyInfo(box.origin, Origin(0, 0, 0), size, size)]))
    else if rowPitch == 0 || Wrap(rowPitch * size.height) == 0 then DividesByZero
    else
      var texel := ComputeTexelOffsets(offset - alignedOffset, rowPitch, Wrap(rowPitch * size.height), texelSize);
      var rowPitchInTexels := rowPitch / texelSize;
      if Wrap(size.width + texel.x) <= rowPitchInTexels then
        Split(TextureCopySplit(alignedOffset,
                               [CopyInfo(box.origin, texel,
                                         Extent(Wrap(size.width + texel.x), Wrap(size.height + texel.y),
                                                Wrap(size.depth + texel.z)), size)]))
      else
        OffsetIsInRow(offset - alignedOffset, rowPitch, texelSize);
        QuotientAtMost(rowPitch, texelSize);
        var width0 := rowPitchInTexels - texel.x;
        Split(TextureCopySplit(alignedOffset,
                               [CopyInfo(box.origin, texel,
                                         Extent(rowPitchInTexels, Wrap(size.height + texel.y), Wrap(size.depth + texel.z)),
                                         size.(width := width0)),
                                CopyInfo(box.origin.(x := Wrap(box.origin.x + width0)), Origin(0, Wrap(texel.y + 1), texel.z),
                                         Extent(size.width - width0, Wrap(size.height + texel.y + 1),
                                                Wrap(size.depth + texel.z)),
                                         size.(width := size.width - width0))]))
  }

  /** The source asserts this of the column offset. */
  lemma OffsetIsInRow(d: nat, rowPitch: nat, texelSize: nat)
    requires texelSize > 0 && rowPitch > 0 && rowPitch % texelSize == 0
    ensures d % rowPitch / texelSize < rowPitch / texelSize
  {
    var rest := d % rowPitch;
    MulStep(texelSize, rest / texelSize, rowPitch / texelSize);
    MulStep(texelSize, rowPitch / texelSize, rest / texelSize);
    assert rest == texelSize * (rest / texelSize) + rest % texelSize && rowPitch == texelSize * (rowPitch / texelSize);
  }

  lemma AlignDownIsMask(offset: nat)
    requires offset < Pow2(32)
    ensures Pow2(9) == PLACEMENT_ALIGNMENT && Pow2(9) - 1 < Pow2(32)
    ensures AlignDown(offset) == And(32, offset, Not(32, Pow2(9) - 1))
  {
    AndHighMask(32, 9, offset);
  }

  // ----- What a split should do -----

  /** The copy covers column `c` of the box. */
  predicate Covers(info: CopyInfo, box: Box, c: nat) {
    box.origin.x + c >= info.textureOffset.x && box.origin.x + c < info.textureOffset.x + info.copySize.width
  }

  /** The address in the buffer of the texel in column `c` and row `r` of the box, for a copy that
      covers it: slices of the footprint are as high as the footprint. */
  function Address(split: TextureCopySplit, info: CopyInfo, box: Box, c: nat, r: nat, texelSize: nat, rowPitch: nat): nat
    requires Covers(info, box, c)
  {
    var local := box.origin.x + c - info.textureOffset.x;
    split.offset + info.bufferOffset.z * (rowPitch * info.bufferSize.height)
    + (info.bufferOffset.y + r) * rowPitch + (info.bufferOffset.x + local) * texelSize
  }

  /** The copy takes all rows of its columns, and its region lies in a footprint no wider than a
      row. */
  predicate InFootprint(info: CopyInfo, box: Box, texelSize: nat, rowPitch: nat) {
    && info.textureOffset.y == box.origin.y && info.textureOffset.z == box.origin.z
    && info.copySize.height == box.size.height && info.copySize.depth == box.size.depth
    && info.bufferOffset.x + info.copySize.width <= info.bufferSize.width
    && info.bufferOffset.y + info.copySize.height <= info.bufferSize.height
    && info.bufferOffset.z + info.copySize.depth <= info.bufferSize.depth
    && info.bufferSize.width * texelSize <= rowPitch
  }

  predicate Covered(split: TextureCopySplit, box: Box, c: nat) {
    exists i :: 0 <= i < |split.copies| && Covers(split.copies[i], box, c)
  }

  /** Every column is in exactly one copy, and no copy leaves the box. */
  ghost predicate Partitions(split: TextureCopySplit, box: Box) {
    && (forall c: nat :: c < box.size.width ==> Covered(split, box, c))
    && (forall i, j, c: nat :: 0 <= i < j < |split.copies| && Covers(split.copies[i], box, c) ==> !Covers(split.copies[j], box, c))
    && (forall i, c: nat :: 0 <= i < |split.copies| && Covers(split.copies[i], box, c) ==> c < box.size.width)
  }

  ghost predicate HitsIntended(split: TextureCopySplit, info: CopyInfo, box: Box, texelSize: nat, offset: nat, rowPitch: nat) {
    forall c: nat, r: nat :: Covers(info, box, c) && r < box.size.height ==>
      Address(split, info, box, c, r, texelSize, rowPitch) == offset + r * rowPitch + c * texelSize
  }

  ghost predicate AllHitIntended(split: TextureCopySplit, box: Box, texelSize: nat, offset: nat, rowPitch: nat) {
    forall i :: 0 <= i < |split.copies| ==> HitsIntended(split, split.copies[i], box, texelSize, offset, rowPitch)
  }

  /** The regions partition the box, lie in their footprints at an aligned base, and every texel goes
      to its place in the buffer. */
  ghost predicate Exact(split: TextureCopySplit, box: Box, texelSize: nat, offset: nat, rowPitch: nat) {
    && split.offset % PLACEMENT_ALIGNMENT == 0
    && Partitions(split, box)
    && (forall i :: 0 <= i < |split.copies| ==> InFootprint(split.copies[i], box, texelSize, rowPitch))
    && AllHitIntended(split, box, texelSize, offset, rowPitch)
  }

  // ----- When it does -----

  /** What validation establishes. */
  predicate Acceptable(box: Box, texelSize: TexelSize, offset: uint32, rowPitch: uint32) {
    && box.origin.z == 0 && box.size.depth == 1 && box.origin.x + box.size.width < WORD
    && rowPitch % ROW_PITCH_ALIGNMENT == 0 && offset % texelSize == 0
  }

  /** The part of the offset that is not in the aligned base. */
  function Rest(offset: uint32): nat { offset % PLACEMENT_ALIGNMENT }

  predicate Dividable(box: Box, offset: uint32, rowPitch: uint32) {
    Rest(offset) > 0 ==> rowPitch > 0 && Wrap(rowPitch * box.size.height) > 0
  }

  /** Columns the unaligned start is into a row. */
  function Columns(texelSize: TexelSize, offset: uint32, rowPitch: uint32): nat {
    if rowPitch == 0 then 0 else Rest(offset) % rowPitch / texelSize
  }

  /** Rows go past the end of a row of the footprint. */
  predicate Straddles(box: Box, texelSize: TexelSize, offset: uint32, rowPitch: uint32) {
    Rest(offset) > 0 && box.size.width + Columns(texelSize, offset, rowPitch) > rowPitch / texelSize
  }

  /** The unaligned start is a whole slice further, as 32 bits hold the size of a slice. */
  predicate PastSlice(box: Box, offset: uint32, rowPitch: uint32) {
    Rest(offset) > 0 && rowPitch > 0 && Rest(offset) - Rest(offset) % rowPitch >= Wrap(rowPitch * box.size.height)
  }

  function Regions(box: Box, texelSize: TexelSize, offset: uint32, rowPitch: uint32): nat {
    if Straddles(box, texelSize, offset, rowPitch) then 2 else 1
  }

  /** Rows the unaligned start is into a slice. */
  function Rows(box: Box, offset: uint32, rowPitch: uint32): nat {
    if rowPitch == 0 || PastSlice(box, offset, rowPitch) then 0 else Rest(offset) / rowPitch
  }

  predicate FootprintsFit(box: Box, texelSize: TexelSize, offset: uint32, rowPitch: uint32) {
    var width, regions := box.size.width + Columns(texelSize, offset, rowPitch), Regions(box, texelSize, offset, rowPitch);
    && width < WORD && width <= regions * (rowPitch / texelSize)
    && box.size.height + Rows(box, offset, rowPitch) + regions - 1 < WORD
  }

  /** Footprints are large enough without wrapping around, and a start past the slice is only good for
      a single row that does not straddle. */
  predicate Works(box: Box, texelSize: TexelSize, offset: uint32, rowPitch: uint32) {
    && FootprintsFit(box, texelSize, offset, rowPitch)
    && (PastSlice(box, offset, rowPitch) ==>
          box.size.width == 0 || (box.size.height == 1 && !Straddles(box, texelSize, offset, rowPitch)))
  }

  /** Division by one of the texel sizes. */
  lemma TexelDivision(n: nat, texelSize: nat)
    requires texelSize in {1, 2, 4, 8} && n % texelSize == 0
    ensures n == n / texelSize * texelSize
  {
  }

  lemma Divides(n: nat, q: int, d: nat)
    requires d in {1, 2, 4, 8} && n == q * d
    ensures n % d == 0
  {
    DivisionUnique(d, q, 0);
  }

  /** The part of a row that an offset below 512 takes. */
  lemma RestOfRow(d: nat, rowPitch: nat)
    requires rowPitch >= 256 && rowPitch % 256 == 0 && d < PLACEMENT_ALIGNMENT
    ensures d % rowPitch == d || d % rowPitch + 256 == d
  {
    if d < rowPitch {
      DivisionUnique(rowPitch, 0, d);
    } else {
      DivisionUnique(256, 1, d - 256);
    }
  }

  lemma TexelMultiple(d: nat, rowPitch: nat, texelSize: nat)
    requires texelSize in {1, 2, 4, 8} && d % texelSize == 0 && rowPitch >= 256 && rowPitch % 256 == 0 && d < PLACEMENT_ALIGNMENT
    ensures rowPitch % texelSize == 0 && d % rowPitch % texelSize == 0
  {
    var k, q, parts := rowPitch / 256, d / texelSize, 256 / texelSize;
    TexelDivision(d, texelSize);
    RestOfRow(d, rowPitch);
    assert parts * texelSize == 256;
    assert rowPitch == 256 * k == parts * k * texelSize;
    Divides(rowPitch, parts * k, texelSize);
    Divides(d % rowPitch, if d % rowPitch == d then q else q - parts, texelSize);
  }

  /** The slice pitch stays a multiple of 256 when it wraps around. */
  lemma SlicePitchIsAligned(rowPitch: uint32, height: uint32)
    requires rowPitch % ROW_PITCH_ALIGNMENT == 0
    ensures Wrap(rowPitch * height) % ROW_PITCH_ALIGNMENT == 0
  {
    var k, n := rowPitch / 256, rowPitch * height;
    assert n == 256 * (k * height) by { assert rowPitch == 256 * k; }
    assert n == WORD * (n / WORD) + n % WORD;
    assert n % WORD == 256 * (k * height - 0x100_0000 * (n / WORD));
    DivisionUnique(256, k * height - 0x100_0000 * (n / WORD), 0);
  }

  lemma OffsetsInFirstRow(d: uint32, rowPitch: nat, slicePitch: nat, texelSize: TexelSize)
    requires d < rowPitch && slicePitch > 0
    ensures d % rowPitch == d && d / rowPitch == 0 && d / texelSize < WORD
    ensures ComputeTexelOffsets(d, rowPitch, slicePitch, texelSize) == Origin(d / texelSize, 0, 0)
  {
    QuotientAtMost(d, texelSize);
    DivisionUnique(rowPitch, 0, d);
    DivisionUnique(slicePitch, 0, 0);
    DivisionUnique(rowPitch, 0, 0);
  }

  lemma OffsetsInSecondRow(d: uint32, rowPitch: nat, slicePitch: nat, texelSize: TexelSize)
    requires rowPitch <= d < 2 * rowPitch && slicePitch > rowPitch
    ensures d % rowPitch == d - rowPitch && d / rowPitch == 1 && (d - rowPitch) / texelSize < WORD
    ensures ComputeTexelOffsets(d, rowPitch, slicePitch, texelSize) == Origin((d - rowPitch) / texelSize, 1, 0)
  {
    QuotientAtMost(d - rowPitch, texelSize);
    DivisionUnique(rowPitch, 1, d - rowPitch);
    DivisionUnique(slicePitch, 0, rowPitch);
    DivisionUnique(rowPitch, 1, 0);
    DivisionUnique(slicePitch, 0, 0);
  }

  lemma OffsetsPastSlice(d: uint32, rowPitch: nat, texelSize: TexelSize)
    requires rowPitch <= d < 2 * rowPitch
    ensures d % rowPitch == d - rowPitch && d / rowPitch == 1 && (d - rowPitch) / texelSize < WORD
    ensures ComputeTexelOffsets(d, rowPitch, rowPitch, texelSize) == Origin((d - rowPitch) / texelSize, 0, 1)
  {
    QuotientAtMost(d - rowPitch, texelSize);
    DivisionUnique(rowPitch, 1, d - rowPitch);
    DivisionUnique(rowPitch, 1, 0);
    DivisionUnique(rowPitch, 0, 0);
  }

  lemma OneRowOrTwo(d: nat, rowPitch: nat, slicePitch: nat)
    requires d < PLACEMENT_ALIGNMENT && rowPitch >= 256 && rowPitch % 256 == 0 && slicePitch > 0 && slicePitch % 256 == 0
    ensures d < 2 * rowPitch
    ensures d >= rowPitch ==> rowPitch == 256 && slicePitch >= rowPitch
  {
  }

  /** The offsets of an unaligned start: at most one row below the base, and one slice below if the
      slice has just the size of that row. */
  lemma TexelOffsets(d: nat, rowPitch: uint32, slicePitch: uint32, texelSize: TexelSize)
    requires 0 < d < PLACEMENT_ALIGNMENT && rowPitch >= 256 && rowPitch % 256 == 0 && slicePitch > 0 && slicePitch % 256 == 0
    ensures d / rowPitch <= 1
    ensures var past := d - d % rowPitch >= slicePitch;
            && (past ==> rowPitch == slicePitch == 256 && d / rowPitch == 1)
            && var texel := ComputeTexelOffsets(d, rowPitch, slicePitch, texelSize);
               && texel.x == d % rowPitch / texelSize
               && texel.y == (if past then 0 else d / rowPitch) && texel.z == (if past then 1 else 0)
  {
    hide ComputeTexelOffsets;
    OneRowOrTwo(d, rowPitch, slicePitch);
    if d < rowPitch {
      OffsetsInFirstRow(d, rowPitch, slicePitch, texelSize);
    } else if slicePitch == rowPitch {
      OffsetsPastSlice(d, rowPitch, texelSize);
    } else {
      OffsetsInSecondRow(d, rowPitch, slicePitch, texelSize);
    }
  }

  /** Addresses of one copy with a footprint at `z` slices, `y` rows and `x` columns from the base. */
  lemma AddressIs(base: nat, x: nat, y: nat, z: nat, footprintHeight: nat, column: nat, r: nat, texelSize: nat, rowPitch: nat)
    ensures base + z * (rowPitch * footprintHeight) + (y + r) * rowPitch + (x + column) * texelSize
            == base + z * (rowPitch * footprintHeight) + y * rowPitch + x * texelSize + r * rowPitch + column * texelSize
  {
  }

  lemma HitsFrom(split: TextureCopySplit, info: CopyInfo, box: Box, first: nat, texelSize: nat, offset: nat, rowPitch: nat)
    requires info.textureOffset.x == box.origin.x + first
    requires split.offset + info.bufferOffset.z * (rowPitch * info.bufferSize.height)
             + info.bufferOffset.y * rowPitch + info.bufferOffset.x * texelSize == offset + first * texelSize
    ensures HitsIntended(split, info, box, texelSize, offset, rowPitch)
  {
    forall c: nat, r: nat | Covers(info, box, c) && r < box.size.height
      ensures Address(split, info, box, c, r, texelSize, rowPitch) == offset + r * rowPitch + c * texelSize
    {
      var b := info.bufferOffset;
      AddressIs(split.offset, b.x, b.y, b.z, info.bufferSize.height, c - first, r, texelSize, rowPitch);
      assert c * texelSize == first * texelSize + (c - first) * texelSize;
    }
  }

  // ----- The three cases -----

  /** The whole box in one region is a partition. */
  lemma OneRegion(split: TextureCopySplit, box: Box)
    requires |split.copies| == 1 && split.copies[0].textureOffset == box.origin && split.copies[0].copySize == box.size
    ensures Partitions(split, box)
  {
    assert forall c: nat :: c < box.size.width ==> Covers(split.copies[0], box, c) && Covered(split, box, c);
  }

  lemma AlignedSplit(box: Box, texelSize: TexelSize, offset: uint32, rowPitch: uint32)
    requires Acceptable(box, texelSize, offset, rowPitch) && rowPitch % texelSize == 0 && Rest(offset) == 0
    ensures var result := ComputeTextureCopySplit(box, texelSize, offset, rowPitch);
            result.Split? && (Exact(result.split, box, texelSize, offset, rowPitch) <==> Works(box, texelSize, offset, rowPitch))
  {
    hide Partitions, HitsIntended;
    var split := ComputeTextureCopySplit(box, texelSize, offset, rowPitch).split;
    OneRegion(split, box);
    HitsFrom(split, split.copies[0], box, 0, texelSize, offset, rowPitch);
    TexelDivision(rowPitch, texelSize);
    FitsInRow(box.size.width, rowPitch, texelSize);
    if rowPitch > 0 { DivisionUnique(rowPitch, 0, 0); }
    assert InFootprint(split.copies[0], box, texelSize, rowPitch) <==> box.size.width * texelSize <= rowPitch;
  }

  lemma FitsInRow(width: nat, rowPitch: nat, texelSize: TexelSize)
    requires rowPitch % texelSize == 0
    ensures width * texelSize <= rowPitch <==> width <= rowPitch / texelSize
  {
    TexelDivision(rowPitch, texelSize);
  }

  /** The offset from the aligned base in rows and texels. */
  lemma OffsetParts(d: nat, rowPitch: nat, texelSize: nat)
    requires texelSize in {1, 2, 4, 8} && d % texelSize == 0 && rowPitch >= 256 && rowPitch % 256 == 0 && d < PLACEMENT_ALIGNMENT
    ensures d == d / rowPitch * rowPitch + d % rowPitch / texelSize * texelSize
    ensures rowPitch % texelSize == 0 && rowPitch == rowPitch / texelSize * texelSize
  {
    TexelMultiple(d, rowPitch, texelSize);
    TexelDivision(d % rowPitch, texelSize);
    TexelDivision(rowPitch, texelSize);
    assert d == rowPitch * (d / rowPitch) + d % rowPitch;
  }

  lemma DivisibleOffset(offset: nat, texelSize: nat)
    requires texelSize in {1, 2, 4, 8} && offset % texelSize == 0
    ensures offset % PLACEMENT_ALIGNMENT % texelSize == 0
  {
    var k, d, q := offset / 512, offset % 512, offset / texelSize;
    assert offset == 512 * k + d;
    TexelDivision(offset, texelSize);
    if texelSize == 1 {
    } else if texelSize == 2 {
      Divides(d, q - 256 * k, 2);
    } else if texelSize == 4 {
      Divides(d, q - 128 * k, 4);
    } else {
      Divides(d, q - 64 * k, 8);
    }
  }

  lemma MulMono(a: nat, b: nat, c: nat)
    requires a <= b
    ensures a * c <= b * c
  {
    MulStep(c, a, b);
    assert a * c == c * a && b * c == c * b;
  }

  /** One region `x` columns, `y` rows and `z` slices into its footprint. */
  function OneCopy(box: Box, x: uint32, y: uint32, z: uint32): CopyInfo {
    var size := box.size;
    CopyInfo(box.origin, Origin(x, y, z), Extent(Wrap(size.width + x), Wrap(size.height + y), Wrap(size.depth + z)), size)
  }

  function FirstCopy(box: Box, x: uint32, y: uint32, z: uint32, texels: uint32): CopyInfo
    requires x <= texels
  {
    var size := box.size;
    CopyInfo(box.origin, Origin(x, y, z), Extent(texels, Wrap(size.height + y), Wrap(size.depth + z)), size.(width := texels - x))
  }

  function SecondCopy(box: Box, x: uint32, y: uint32, z: uint32, texels: uint32): CopyInfo
    requires x <= texels <= box.size.width + x
  {
    var size, width0 := box.size, texels - x;
    CopyInfo(box.origin.(x := Wrap(box.origin.x + width0)), Origin(0, Wrap(y + 1), z),
             Extent(size.width - width0, Wrap(size.height + y + 1), Wrap(size.depth + z)),
             size.(width := size.width - width0))
  }

  function Slices(box: Box, offset: uint32, rowPitch: uint32): nat {
    if PastSlice(box, offset, rowPitch) then 1 else 0
  }

  /** The start of an unaligned copy in columns, rows and slices. */
  lemma UnalignedStart(box: Box, texelSize: TexelSize, offset: uint32, rowPitch: uint32)
    requires Acceptable(box, texelSize, offset, rowPitch) && rowPitch % texelSize == 0
    requires Rest(offset) > 0 && Dividable(box, offset, rowPitch)
    ensures rowPitch >= 256 && rowPitch / texelSize < WORD && rowPitch == rowPitch / texelSize * texelSize
    ensures var x, y, z := Columns(texelSize, offset, rowPitch), Rows(box, offset, rowPitch), Slices(box, offset, rowPitch);
            && x < rowPitch / texelSize && x < PLACEMENT_ALIGNMENT && y <= 1 && (z == 1 ==> y == 0)
            && Rest(offset) == (y + z) * rowPitch + x * texelSize
            && ComputeTexelOffsets(Rest(offset), rowPitch, Wrap(rowPitch * box.size.height), texelSize) == Origin(x, y, z)
  {
    hide ComputeTexelOffsets, Wrap;
    var d := Rest(offset);
    SlicePitchIsAligned(rowPitch, box.size.height);
    TexelOffsets(d, rowPitch, Wrap(rowPitch * box.size.height), texelSize);
    DivisibleOffset(offset, texelSize);
    OffsetParts(d, rowPitch, texelSize);
    OffsetIsInRow(d, rowPitch, texelSize);
    QuotientAtMost(rowPitch, texelSize);
    QuotientAtMost(d % rowPitch, texelSize);
    RemainderAtMost(d, rowPitch);
  }

  /** What the split of an unaligned copy is. */
  lemma UnalignedForm(box: Box, texelSize: TexelSize, offset: uint32, rowPitch: uint32)
    requires Acceptable(box, texelSize, offset, rowPitch) && rowPitch % texelSize == 0
    requires Rest(offset) > 0 && Dividable(box, offset, rowPitch)
    ensures rowPitch >= 256 && rowPitch / texelSize < WORD
    ensures var x, y, z := Columns(texelSize, offset, rowPitch), Rows(box, offset, rowPitch), Slices(box, offset, rowPitch);
            var texels := rowPitch / texelSize;
            && x < texels && x < PLACEMENT_ALIGNMENT && y <= 1 && (z == 1 ==> y == 0)
            && Rest(offset) == (y + z) * rowPitch + x * texelSize && rowPitch == texels * texelSize
            && ComputeTextureCopySplit(box, texelSize, offset, rowPitch)
               == Split(TextureCopySplit(AlignDown(offset),
                                         if Wrap(box.size.width + x) <= texels then [OneCopy(box, x, y, z)]
                                         else [FirstCopy(box, x, y, z, texels), SecondCopy(box, x, y, z, texels)]))
  {
    hide ComputeTexelOffsets, Columns, Rows, Slices, PastSlice;
    UnalignedStart(box, texelSize, offset, rowPitch);
    assert Rest(offset) == offset - AlignDown(offset);
  }

  /** A single region is right when its footprint does not wrap around, and its slice is where the
      offset says. */
  lemma OneCopySplit(box: Box, texelSize: TexelSize, offset: uint32, rowPitch: uint32)
    requires Acceptable(box, texelSize, offset, rowPitch) && rowPitch % texelSize == 0
    requires Rest(offset) > 0 && Dividable(box, offset, rowPitch)
    requires Wrap(box.size.width + Columns(texelSize, offset, rowPitch)) <= rowPitch / texelSize
    ensures var split := ComputeTextureCopySplit(box, texelSize, offset, rowPitch).split;
            Exact(split, box, texelSize, offset, rowPitch) <==> Works(box, texelSize, offset, rowPitch)
  {
    hide HitsIntended, Partitions, InFootprint, ComputeTextureCopySplit, Columns, Rows, PastSlice, OneCopy, FirstCopy, SecondCopy, Wrap;
    UnalignedForm(box, texelSize, offset, rowPitch);
    var split := ComputeTextureCopySplit(box, texelSize, offset, rowPitch).split;
    var x, y, z := Columns(texelSize, offset, rowPitch), Rows(box, offset, rowPitch), Slices(box, offset, rowPitch);
    OneCopyOf(box, x, y, z);
    OneRegion(split, box);
    WrapIsSmaller(box.size.width + x);
    OneFootprint(box, x, y, z, texelSize, rowPitch);
    if box.size.width + x < WORD && box.size.height + y < WORD {
      HeightIsPositive(rowPitch, box.size.height);
      OneCopyHits(split, box, x, y, z, texelSize, offset, rowPitch);
    }
  }

  lemma OneCopyOf(box: Box, x: uint32, y: uint32, z: uint32)
    ensures OneCopy(box, x, y, z).textureOffset == box.origin && OneCopy(box, x, y, z).copySize == box.size
  {
  }

  lemma HeightIsPositive(rowPitch: uint32, height: uint32)
    requires Wrap(rowPitch * height) > 0
    ensures height > 0
  {
  }

  lemma OneFootprint(box: Box, x: uint32, y: uint32, z: uint32, texelSize: TexelSize, rowPitch: uint32)
    requires y <= 1 && z <= 1 && box.size.depth == 1 && rowPitch % texelSize == 0
    requires Wrap(box.size.width + x) <= rowPitch / texelSize
    ensures InFootprint(OneCopy(box, x, y, z), box, texelSize, rowPitch) <==>
            box.size.width + x < WORD && box.size.height + y < WORD
  {
    FitsInRow(Wrap(box.size.width + x), rowPitch, texelSize);
    WrapIsSmaller(box.size.width + x);
    WrapIsSmaller(box.size.height + y);
  }

  lemma OneCopyHits(split: TextureCopySplit, box: Box, x: uint32, y: uint32, z: uint32, texelSize: nat, offset: nat, rowPitch: nat)
    requires box.size.height > 0 && rowPitch > 0 && y <= 1 && z <= 1 && (z == 1 ==> y == 0) && box.size.height + y < WORD
    requires offset == split.offset + (y + z) * rowPitch + x * texelSize
    ensures HitsIntended(split, OneCopy(box, x, y, z), box, texelSize, offset, rowPitch) <==>
            z == 0 || box.size.width == 0 || box.size.height == 1
  {
    hide HitsIntended;
    var info := OneCopy(box, x, y, z);
    Distribute(y, z, rowPitch);
    if z == 0 || box.size.height == 1 {
      HitsFrom(split, info, box, 0, texelSize, offset, rowPitch);
    } else if box.size.width == 0 {
      NothingToHit(split, info, box, texelSize, offset, rowPitch);
    } else {
      OneMisses(split, info, box, x, texelSize, offset, rowPitch);
    }
  }

  lemma WrapIsSmaller(n: nat)
    ensures Wrap(n) == n <==> n < WORD
    ensures Wrap(n) <= n
  {
  }

  lemma Distribute(y: nat, z: nat, rowPitch: nat)
    ensures (y + z) * rowPitch == y * rowPitch + z * rowPitch
  {
  }

  lemma NothingToHit(split: TextureCopySplit, info: CopyInfo, box: Box, texelSize: nat, offset: nat, rowPitch: nat)
    requires info.copySize.width == 0
    ensures HitsIntended(split, info, box, texelSize, offset, rowPitch)
  {
  }

  /** A slice of more than one row puts the first texel further up. */
  lemma OneMisses(split: TextureCopySplit, info: CopyInfo, box: Box, x: uint32, texelSize: nat, offset: nat, rowPitch: nat)
    requires info == OneCopy(box, x, 0, 1) && box.size.width > 0 && box.size.height > 1 && rowPitch > 0
    requires offset == split.offset + rowPitch + x * texelSize
    ensures !HitsIntended(split, info, box, texelSize, offset, rowPitch)
  {
    assert Covers(info, box, 0);
    assert Address(split, info, box, 0, 0, texelSize, rowPitch) == split.offset + rowPitch * box.size.height + x * texelSize;
    MulStep(rowPitch, 1, box.size.height);
  }

  /** Two regions are right when their footprints do not wrap around and are not a slice further up. */
  lemma TwoCopySplit(box: Box, texelSize: TexelSize, offset: uint32, rowPitch: uint32)
    requires Acceptable(box, texelSize, offset, rowPitch) && rowPitch % texelSize == 0
    requires Rest(offset) > 0 && Dividable(box, offset, rowPitch)
    requires Wrap(box.size.width + Columns(texelSize, offset, rowPitch)) > rowPitch / texelSize
    ensures var split := ComputeTextureCopySplit(box, texelSize, offset, rowPitch).split;
            Exact(split, box, texelSize, offset, rowPitch) <==> Works(box, texelSize, offset, rowPitch)
  {
    hide HitsIntended, Partitions, InFootprint, ComputeTextureCopySplit, Columns, Rows, PastSlice, OneCopy, FirstCopy, SecondCopy, Wrap;
    UnalignedForm(box, texelSize, offset, rowPitch);
    var split := ComputeTextureCopySplit(box, texelSize, offset, rowPitch).split;
    var x, y, z := Columns(texelSize, offset, rowPitch), Rows(box, offset, rowPitch), Slices(box, offset, rowPitch);
    var texels, width, height := rowPitch / texelSize, box.size.width, box.size.height;
    WrapIsSmaller(width + x);
    if width + x >= WORD { WrappedWidth(width, x, texels); }
    TwoRegions(split, box, x, y, z, texels);
    TwoFootprints(box, x, y, z, texels, texelSize, rowPitch);
    assert split.copies[0] == FirstCopy(box, x, y, z, texels) && split.copies[1] == SecondCopy(box, x, y, z, texels);
    assert Straddles(box, texelSize, offset, rowPitch) && width > 0;
    if width + x <= 2 * texels && height + y + 1 < WORD {
      HeightIsPositive(rowPitch, height);
      TwoCopiesHit(split, box, x, y, z, texels, texelSize, offset, rowPitch);
    }
  }

  /** A width that wraps around and is still too large for a row is too large for two. */
  lemma WrappedWidth(width: uint32, x: nat, texels: nat)
    requires Wrap(width + x) > texels && x < PLACEMENT_ALIGNMENT && width + x >= WORD
    ensures width + x > 2 * texels
  {
  }

  lemma TwoCopiesHit(split: TextureCopySplit, box: Box, x: uint32, y: uint32, z: uint32, texels: uint32,
                     texelSize: nat, offset: nat, rowPitch: nat)
    requires x < texels < box.size.width + x && box.origin.x + box.size.width < WORD
    requires y <= 1 && z <= 1 && (z == 1 ==> y == 0) && box.size.height > 0 && box.size.height + y + 1 < WORD
    requires rowPitch > 0 && rowPitch == texels * texelSize && offset == split.offset + (y + z) * rowPitch + x * texelSize
    ensures HitsIntended(split, FirstCopy(box, x, y, z, texels), box, texelSize, offset, rowPitch) || z == 1
    ensures HitsIntended(split, SecondCopy(box, x, y, z, texels), box, texelSize, offset, rowPitch) <==> z == 0
  {
    hide HitsIntended, FirstCopy, SecondCopy;
    var first, second := FirstCopy(box, x, y, z, texels), SecondCopy(box, x, y, z, texels);
    CopiesAre(box, x, y, z, texels);
    Distribute(y, z, rowPitch);
    Distribute(y, 1, rowPitch);
    SecondStarts(split.offset, y + z, x, texels, texelSize, rowPitch);
    if z == 0 {
      HitsFrom(split, first, box, 0, texelSize, offset, rowPitch);
      HitsFrom(split, second, box, texels - x, texelSize, offset, rowPitch);
    } else {
      SecondMisses(split, second, box, texels - x, texelSize, offset, rowPitch);
    }
  }

  lemma CopiesAre(box: Box, x: uint32, y: uint32, z: uint32, texels: uint32)
    requires x < texels < box.size.width + x && box.origin.x + box.size.width < WORD && box.size.height + y + 1 < WORD
    ensures FirstCopy(box, x, y, z, texels).textureOffset.x == box.origin.x
    ensures FirstCopy(box, x, y, z, texels).bufferOffset == Origin(x, y, z)
    ensures var second := SecondCopy(box, x, y, z, texels);
            && second.textureOffset.x == box.origin.x + (texels - x) && second.bufferOffset == Origin(0, y + 1, z)
            && second.bufferSize.height == box.size.height + y + 1 && second.copySize.width == box.size.width - (texels - x)
  {
  }

  /** Where the part of the first row behind the row pitch starts. */
  lemma SecondStarts(base: nat, q: nat, texelX: nat, texels: nat, texelSize: nat, rowPitch: nat)
    requires texelX <= texels && rowPitch == texels * texelSize
    ensures base + (q + 1) * rowPitch == base + (q * rowPitch + texelX * texelSize) + (texels - texelX) * texelSize
  {
    assert (texels - texelX) * texelSize == texels * texelSize - texelX * texelSize;
  }

  lemma TwoRegions(split: TextureCopySplit, box: Box, x: uint32, y: uint32, z: uint32, texels: uint32)
    requires x <= texels <= box.size.width + x && box.origin.x + box.size.width < WORD
    requires split.copies == [FirstCopy(box, x, y, z, texels), SecondCopy(box, x, y, z, texels)]
    ensures Partitions(split, box)
  {
    forall c: nat | c < box.size.width ensures Covered(split, box, c) {
      assert Covers(split.copies[0], box, c) || Covers(split.copies[1], box, c);
    }
  }

  lemma TwoFootprints(box: Box, x: uint32, y: uint32, z: uint32, texels: uint32, texelSize: TexelSize, rowPitch: uint32)
    requires x < texels < box.size.width + x && y <= 1 && z <= 1 && box.size.depth == 1
    requires rowPitch % texelSize == 0 && texels == rowPitch / texelSize
    ensures InFootprint(FirstCopy(box, x, y, z, texels), box, texelSize, rowPitch) <==> box.size.height + y < WORD
    ensures InFootprint(SecondCopy(box, x, y, z, texels), box, texelSize, rowPitch) <==>
            box.size.height + y + 1 < WORD && box.size.width + x <= 2 * texels
  {
    FitsInRow(texels, rowPitch, texelSize);
    FitsInRow(box.size.width - (texels - x), rowPitch, texelSize);
  }

  /** The first texel of the second region is a slice of more than one row too far. */
  lemma SecondMisses(split: TextureCopySplit, info: CopyInfo, box: Box, width0: nat, texelSize: nat, offset: nat, rowPitch: nat)
    requires 0 <= width0 < box.size.width && box.size.height > 0 && rowPitch > 0 && box.origin.x + box.size.width < WORD
    requires info.textureOffset.x == box.origin.x + width0 && info.copySize.width == box.size.width - width0
    requires info.bufferOffset == Origin(0, 1, 1) && info.bufferSize.height == box.size.height + 1
    requires split.offset + 2 * rowPitch == offset + width0 * texelSize
    ensures !HitsIntended(split, info, box, texelSize, offset, rowPitch)
  {
    assert Covers(info, box, width0);
    assert Address(split, info, box, width0, 0, texelSize, rowPitch) == split.offset + rowPitch * (box.size.height + 1) + rowPitch;
    MulStep(rowPitch, 1, box.size.height + 1);
  }

  lemma RowPitchDivides(rowPitch: uint32, texelSize: TexelSize)
    requires rowPitch % ROW_PITCH_ALIGNMENT == 0
    ensures rowPitch % texelSize == 0
  {
    if rowPitch > 0 { TexelMultiple(0, rowPitch, texelSize); }
  }

  /** For every acceptable copy: the split divides by zero exactly when the offset is not aligned and
      the row pitch or the slice pitch is zero, and is exact exactly when it works. */
  lemma SplitIsExact(box: Box, texelSize: TexelSize, offset: uint32, rowPitch: uint32)
    requires Acceptable(box, texelSize, offset, rowPitch)
    ensures rowPitch % texelSize == 0
    ensures var result := ComputeTextureCopySplit(box, texelSize, offset, rowPitch);
            && !result.Unsupported?
            && (result.DividesByZero? <==> !Dividable(box, offset, rowPitch))
            && (result.Split? ==>
                  (Exact(result.split, box, texelSize, offset, rowPitch) <==> Works(box, texelSize, offset, rowPitch)))
  {
    hide Exact, Works;
    RowPitchDivides(rowPitch, texelSize);
    if Rest(offset) == 0 {
      AlignedSplit(box, texelSize, offset, rowPitch);
    } else if Dividable(box, offset, rowPitch) {
      if Wrap(box.size.width + Columns(texelSize, offset, rowPitch)) <= rowPitch / texelSize {
        OneCopySplit(box, texelSize, offset, rowPitch);
      } else {
        TwoCopySplit(box, texelSize, offset, rowPitch);
      }
    }
  }

  // ----- Copies that validation accepts -----

  function BoxOf(t: TextureLocation): Box {
    Box(Origin(t.x, t.y, t.z), Extent(t.width, t.height, t.depth))
  }

  function SplitOf(copy: TextureCopy, info: TextureInfo): SplitResult
    requires copy.rowPitch % info.texelSize == 0
  {
    ComputeTextureCopySplit(BoxOf(copy.texture), info.texelSize, copy.buffer.offset, copy.rowPitch)
  }

  lemma AcceptedIsAcceptable(copy: TextureCopy, toTexture: bool, r: Resources)
    requires ValidTextureCopy(copy, toTexture, r)
    ensures Acceptable(BoxOf(copy.texture), r.texture(copy.texture.texture).texelSize, copy.buffer.offset, copy.rowPitch)
  {
    hide ShiftRight, FitsInBuffer, TextureCopyBufferSize;
    ShiftShrinks(r.texture(copy.texture.texture).width, copy.texture.level);
  }

  /** So for every copy that validation accepts. */
  lemma AcceptedCopyIsSplit(copy: TextureCopy, toTexture: bool, r: Resources)
    requires ValidTextureCopy(copy, toTexture, r)
    ensures var info := r.texture(copy.texture.texture);
            var box, size, offset, rowPitch := BoxOf(copy.texture), info.texelSize, copy.buffer.offset, copy.rowPitch;
            && rowPitch % size == 0
            && var result := SplitOf(copy, info);
               && (result.Split? <==> Dividable(box, offset, rowPitch)) && !result.Unsupported?
               && (result.Split? ==> (Exact(result.split, box, size, offset, rowPitch) <==> Works(box, size, offset, rowPitch)))
  {
    hide ComputeTextureCopySplit, Exact, Works, ValidTextureCopy, Acceptable;
    AcceptedIsAcceptable(copy, toTexture, r);
    SplitIsExact(BoxOf(copy.texture), r.texture(copy.texture.texture).texelSize, copy.buffer.offset, copy.rowPitch);
  }

  /** Of copies of at least one texel whose numbers stay small, only straddling ones that start past
      the slice go wrong. */
  lemma SmallCopyIsSplit(copy: TextureCopy, toTexture: bool, r: Resources)
    requires ValidTextureCopy(copy, toTexture, r) && copy.texture.width > 0 && copy.texture.height > 0
    requires r.texture(copy.texture.texture).width * r.texture(copy.texture.texture).texelSize < WORD
    requires 2 * copy.rowPitch <= WORD && copy.rowPitch * copy.texture.height < WORD
    ensures var info := r.texture(copy.texture.texture);
            var box, size, offset, rowPitch := BoxOf(copy.texture), info.texelSize, copy.buffer.offset, copy.rowPitch;
            && rowPitch % size == 0
            && var result := SplitOf(copy, info);
               && result.Split?
               && (Exact(result.split, box, size, offset, rowPitch) <==>
                     !(Straddles(box, size, offset, rowPitch) && Rest(offset) >= rowPitch * copy.texture.height))
  {
    hide ComputeTextureCopySplit, Exact, Works, Straddles, Dividable, ValidTextureCopy;
    AcceptedCopyIsSplit(copy, toTexture, r);
    AcceptedIsAcceptable(copy, toTexture, r);
    AcceptedRowsFit(copy, toTexture, r);
    SmallWorks(BoxOf(copy.texture), r.texture(copy.texture.texture).texelSize, copy.buffer.offset, copy.rowPitch);
  }

  lemma SmallWorks(box: Box, texelSize: TexelSize, offset: uint32, rowPitch: uint32)
    requires box.size.width > 0 && box.size.height > 0 && rowPitch % ROW_PITCH_ALIGNMENT == 0
    requires box.size.width * texelSize <= rowPitch && 2 * rowPitch <= WORD && rowPitch * box.size.height < WORD
    ensures Dividable(box, offset, rowPitch)
    ensures Works(box, texelSize, offset, rowPitch) <==>
            !(Straddles(box, texelSize, offset, rowPitch) && Rest(offset) >= rowPitch * box.size.height)
  {
    hide Rest, Columns, Rows, PastSlice, Wrap;
    SmallRows(box, texelSize, offset, rowPitch);
    SmallSlices(box, offset, rowPitch);
    WrapIsSmaller(rowPitch * box.size.height);
  }

  lemma SmallRows(box: Box, texelSize: TexelSize, offset: uint32, rowPitch: uint32)
    requires box.size.width > 0 && rowPitch % ROW_PITCH_ALIGNMENT == 0
    requires box.size.width * texelSize <= rowPitch && 2 * rowPitch <= WORD
    ensures rowPitch > 0
    ensures var width := box.size.width + Columns(texelSize, offset, rowPitch);
            width < WORD && width <= 2 * (rowPitch / texelSize) && (Rest(offset) == 0 ==> width <= rowPitch / texelSize)
  {
    hide Rest;
    assert box.size.width * texelSize >= 1;
    RowPitchDivides(rowPitch, texelSize);
    FitsInRow(box.size.width, rowPitch, texelSize);
    OffsetIsInRow(Rest(offset), rowPitch, texelSize);
    QuotientAtMost(rowPitch, texelSize);
    if Rest(offset) == 0 {
      DivisionUnique(rowPitch, 0, 0);
    }
  }

  lemma SmallSlices(box: Box, offset: uint32, rowPitch: uint32)
    requires box.size.height > 0 && rowPitch > 0 && rowPitch % ROW_PITCH_ALIGNMENT == 0 && rowPitch * box.size.height < WORD
    ensures rowPitch * box.size.height > 0 && box.size.height + Rows(box, offset, rowPitch) + 1 < WORD
    ensures PastSlice(box, offset, rowPitch) <==> Rest(offset) >= rowPitch * box.size.height
    ensures PastSlice(box, offset, rowPitch) ==> box.size.height == 1
  {
    hide Rest, Wrap;
    RestIsSmall(offset);
    SliceOfRows(rowPitch, box.size.height);
    WrapIsSmaller(rowPitch * box.size.height);
    StartOfRow(Rest(offset), rowPitch);
  }

  lemma RestIsSmall(offset: uint32)
    ensures Rest(offset) < PLACEMENT_ALIGNMENT
  {
  }

  lemma SliceOfRows(rowPitch: nat, height: nat)
    requires rowPitch % 256 == 0 && rowPitch > 0 && height > 0 && rowPitch * height < WORD
    ensures rowPitch * height >= rowPitch >= 256 && height <= 0x100_0000
    ensures height > 1 ==> rowPitch * height >= 2 * rowPitch
    ensures rowPitch * height % 256 == 0
  {
    MulStep(rowPitch, 1, height);
    MulMono(256, rowPitch, height);
    SlicePitchIsAligned(rowPitch, height);
  }

  lemma StartOfRow(d: nat, rowPitch: nat)
    requires 0 < rowPitch && d < 2 * rowPitch
    ensures d - d % rowPitch == if d < rowPitch then 0 else rowPitch
    ensures d / rowPitch <= 1
  {
    if d < rowPitch {
      DivisionUnique(rowPitch, 0, d);
    } else {
      DivisionUnique(rowPitch, 1, d - rowPitch);
    }
  }

  // ----- Copies that go wrong -----

  /** One row of 256 one-byte texels at offset 300: the second part goes wrong. */
  lemma OneRowGoesWrong()
    ensures var box := Box(Origin(0, 0, 0), Extent(256, 1, 1));
            && Acceptable(box, 1, 300, 256) && ComputeTextureCopySplit(box, 1, 300, 256).Split?
            && !Exact(ComputeTextureCopySplit(box, 1, 300, 256).split, box, 1, 300, 256)
  {
    SplitIsExact(Box(Origin(0, 0, 0), Extent(256, 1, 1)), 1, 300, 256);
  }

  /** Four rows three quarters of the address space apart: validation accepts the copy, and the slice
      pitch wraps around to zero. */
  lemma SlicePitchWraps(r: Resources)
    requires r.texture(0) == TextureInfo(1, 4, 1, 1, 1) && r.bufferSize(0) == 0x4000_0002
    requires BufferTransferSrc in r.created.bufferUsage(0) && TextureTransferDst in r.created.textureUsage(0)
    ensures var copy := TextureCopy(BufferLocation(0, 1), TextureLocation(0, 0, 0, 0, 1, 4, 1, 0, 0), 0xC000_0000);
            ValidTextureCopy(copy, true, r) && SplitOf(copy, r.texture(0)) == DividesByZero
  {
    hide ComputeTextureCopySplit, Exact, Works;
    AcceptedCopyIsSplit(TextureCopy(BufferLocation(0, 1), TextureLocation(0, 0, 0, 0, 1, 4, 1, 0, 0), 0xC000_0000), true, r);
  }

  /** A copy of no columns with the default row pitch. */
  lemma EmptyCopyDivides(r: Resources)
    requires r.texture(0) == TextureInfo(1, 4, 1, 1, 1) && r.bufferSize(0) == 2
    requires BufferTransferSrc in r.created.bufferUsage(0) && TextureTransferDst in r.created.textureUsage(0)
    ensures var copy := TextureCopy(BufferLocation(0, 1), TextureLocation(0, 0, 0, 0, 0, 4, 1, 0, 0), 0);
            ValidTextureCopy(copy, true, r) && SplitOf(copy, r.texture(0)) == DividesByZero
  {
    hide ComputeTextureCopySplit, Exact, Works;
    AcceptedCopyIsSplit(TextureCopy(BufferLocation(0, 1), TextureLocation(0, 0, 0, 0, 0, 4, 1, 0, 0), 0), true, r);
  }
}
