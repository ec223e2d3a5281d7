/** Validation of copy commands, src/dawn_native/CommandBuffer.cpp, with the 32-bit arithmetic it is
    done in. */
module CopyValidation {
  import opened PassUsage

  const WORD: nat := 0x1_0000_0000
  const ROW_PITCH_ALIGNMENT: nat := 256

  /** Unsigned 32-bit numbers. */
  type uint32 = n: nat | n < WORD

  datatype BufferLocation = BufferLocation(buffer: nat, offset: uint32)

  datatype TextureLocation = TextureLocation(
    texture: nat, x: uint32, y: uint32, z: uint32, width: uint32, height: uint32, depth: uint32, level: uint32, slice: uint32)

  datatype TextureInfo = TextureInfo(width: uint32, height: uint32, mipLevels: nat, arrayLayers: nat, texelSize: TexelSize)

  /** Formats have one, two, four or eight bytes a texel. */
  type TexelSize = n: nat | n in {1, 2, 4, 8} witness 1

  /** What resources were created with. */
  datatype Resources = Resources(created: Created, bufferSize: nat -> uint32, texture: nat -> TextureInfo)

  datatype BufferCopy = BufferCopy(source: BufferLocation, destination: BufferLocation, size: uint32)

  datatype TextureCopy = TextureCopy(buffer: BufferLocation, texture: TextureLocation, rowPitch: uint32)

  function Wrap(n: int): (w: uint32)
  {
    n % WORD
  }

  function ShiftRight(n: nat, amount: nat): nat
    decreases amount
  {
    if amount == 0 then n else ShiftRight(n / 2, amount - 1)
  }

  /** The sums are done in 64 bits. */
  predicate FitsInTexture(t: TextureLocation, info: TextureInfo) {
    && t.level < info.mipLevels && t.slice < info.arrayLayers
    && t.x + t.width <= ShiftRight(info.width, t.level)
    && t.y + t.height <= ShiftRight(info.height, t.level)
    && t.z == 0 && t.depth == 1
  }

  predicate FitsInBuffer(bufferSize: uint32, offset: uint32, size: uint32) {
    offset <= bufferSize && size <= bufferSize - offset
  }

  /** The size counts the last row in texels, not in bytes. */
  function TextureCopyBufferSize(t: TextureLocation, rowPitch: uint32): uint32 {
    Wrap(Wrap(Wrap(rowPitch * Wrap(t.height - 1)) + t.width) * t.depth)
  }

  predicate ValidRowPitch(t: TextureLocation, info: TextureInfo, rowPitch: uint32) {
    rowPitch % ROW_PITCH_ALIGNMENT == 0 && Wrap(t.width * info.texelSize) <= rowPitch
  }

  predicate ValidBufferCopy(copy: BufferCopy, r: Resources) {
    && FitsInBuffer(r.bufferSize(copy.source.buffer), copy.source.offset, copy.size)
    && FitsInBuffer(r.bufferSize(copy.destination.buffer), copy.destination.offset, copy.size)
    && BufferTransferSrc in r.created.bufferUsage(copy.source.buffer)
    && BufferTransferDst in r.created.bufferUsage(copy.destination.buffer)
  }

  predicate ValidTextureCopy(copy: TextureCopy, toTexture: bool, r: Resources) {
    var info := r.texture(copy.texture.texture);
    && ValidRowPitch(copy.texture, info, copy.rowPitch)
    && FitsInTexture(copy.texture, info)
    && FitsInBuffer(r.bufferSize(copy.buffer.buffer), copy.buffer.offset, TextureCopyBufferSize(copy.texture, copy.rowPitch))
    && copy.buffer.offset % info.texelSize == 0
    && (if toTexture then BufferTransferSrc else BufferTransferDst) in r.created.bufferUsage(copy.buffer.buffer)
    && (if toTexture then TextureTransferDst else TextureTransferSrc) in r.created.textureUsage(copy.texture.texture)
  }

  lemma {:induction false} ShiftShrinks(n: nat, amount: nat)
    ensures ShiftRight(n, amount) <= n
    decreases amount
  {
    if amount > 0 {
      ShiftShrinks(n / 2, amount - 1);
    }
  }

  lemma RowsMonotone(width: nat, width': nat, size: nat)
    requires width <= width' && width' * size < WORD
    ensures Wrap(width * size) == width * size
  {
    assert width' * size == width * size + (width' - width) * size;
  }

  /** Rows of an accepted copy do not overlap: the check on the row pitch is exact unless the row
      itself is longer than 32-bit arithmetic can say. */
  lemma AcceptedRowsFit(copy: TextureCopy, toTexture: bool, r: Resources)
    requires ValidTextureCopy(copy, toTexture, r)
    ensures var info := r.texture(copy.texture.texture);
            && copy.texture.width <= info.width && copy.texture.height <= info.height
            && (info.width * info.texelSize < WORD ==> copy.texture.width * info.texelSize <= copy.rowPitch)
  {
    hide ShiftRight, FitsInBuffer, TextureCopyBufferSize;
    var t, info := copy.texture, r.texture(copy.texture.texture);
    ShiftShrinks(info.width, t.level);
    ShiftShrinks(info.height, t.level);
    if info.width * info.texelSize < WORD {
      RowsMonotone(t.width, info.width, info.texelSize);
    }
  }
}
