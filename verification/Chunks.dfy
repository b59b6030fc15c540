/** How a file is cut into chunks: a first one of any size, then ones of a power of two, with
    the masks and shifts of afs_chunkops.h. */
module Chunks {
  import opened Bits

  /** afs_FirstCSize and afs_LogChunk; afs_OtherCSize is two to the latter. */
  datatype Sizes = Sizes(first: nat, log: nat)

  function Other(s: Sizes): nat
  {
    Pow2(s.log)
  }

  function ChunkOffset(s: Sizes, offset: nat): nat
  {
    if offset < s.first then offset else And(offset - s.first, Other(s) - 1)
  }

  function Chunk(s: Sizes, offset: nat): nat
  {
    if offset < s.first then 0 else ShiftRight(offset - s.first, s.log) + 1
  }

  function ChunkBase(s: Sizes, offset: nat): nat
  {
    if offset < s.first then 0 else AndNot(offset - s.first, Other(s) - 1) + s.first
  }

  function ChunkSize(s: Sizes, offset: nat): nat
  {
    if offset < s.first then s.first else Other(s)
  }

  function ChunkToBase(s: Sizes, chunk: nat): nat
  {
    if chunk == 0 then 0 else s.first + ShiftLeft(chunk - 1, s.log)
  }

  function ChunkToSize(s: Sizes, chunk: nat): nat
  {
    if chunk == 0 then s.first else Other(s)
  }

  /** The macros agree on every offset. */
  lemma OffsetParts(s: Sizes, offset: nat)
    ensures ChunkBase(s, offset) + ChunkOffset(s, offset) == offset
    ensures ChunkOffset(s, offset) < ChunkSize(s, offset) == ChunkToSize(s, Chunk(s, offset))
    ensures ChunkToBase(s, Chunk(s, offset)) == ChunkBase(s, offset)
  {
    if offset >= s.first {
      MaskSplits(offset - s.first, s.log);
    }
  }

  /** Each chunk begins where the one before it ends. */
  lemma ChunksAbut(s: Sizes, chunk: nat)
    ensures ChunkToBase(s, chunk + 1) == ChunkToBase(s, chunk) + ChunkToSize(s, chunk)
  {
    if chunk > 0 {
      NextMultiple(chunk - 1, s.log);
    } else {
      ZeroStays(s.log);
    }
  }

  lemma {:induction false} BasesGrow(s: Sizes, c: nat, d: nat)
    requires c < d
    ensures ChunkToBase(s, c) + ChunkToSize(s, c) <= ChunkToBase(s, d)
    decreases d
  {
    ChunksAbut(s, d - 1);
    if c < d - 1 {
      BasesGrow(s, c, d - 1);
    }
  }

  /** Chunks cover the file without gap or overlap: an offset lies in a chunk exactly when that
      is the chunk the macro gives. */
  lemma ChunksTile(s: Sizes, offset: nat, chunk: nat)
    ensures ChunkToBase(s, chunk) <= offset < ChunkToBase(s, chunk) + ChunkToSize(s, chunk) <==> chunk == Chunk(s, offset)
  {
    var c := Chunk(s, offset);
    OffsetParts(s, offset);
    if chunk < c {
      BasesGrow(s, chunk, c);
    } else if c < chunk {
      BasesGrow(s, c, chunk);
    }
  }
}
