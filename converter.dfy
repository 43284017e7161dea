/** The coordinate converter between blocks, chunks (16 x 16 blocks) and
    region files (32 x 32 chunks). Every division floors towards negative
    infinity, as Python's `//` does; Dafny's `/` on `int` with a positive
    divisor floors too. */
module Converter {

  const ChunkWidth := 16
  const RegionChunks := 32
  const RegionWidth := 512

  /** Inclusive range of coordinates on one axis. */
  datatype Range = Range(lo: int, hi: int)
  {
    predicate Contains(v: int) { lo <= v <= hi }
  }

  /** `block_to_chunk`: the chunk column holding block (x, z). */
  function BlockToChunk(x: int, z: int): (c: (int, int))
    ensures 16 * c.0 <= x < 16 * c.0 + 16
    ensures 16 * c.1 <= z < 16 * c.1 + 16
  {
    (x / 16, z / 16)
  }

  /** `chunk_to_region`: the region file holding chunk (cx, cz). */
  function ChunkToRegion(cx: int, cz: int): (r: (int, int))
    ensures 32 * r.0 <= cx < 32 * r.0 + 32
    ensures 32 * r.1 <= cz < 32 * r.1 + 32
  {
    (cx / 32, cz / 32)
  }

  /** `block_to_region`: the region file holding block (x, z). */
  function BlockToRegion(x: int, z: int): (r: (int, int))
    ensures 512 * r.0 <= x < 512 * r.0 + 512
    ensures 512 * r.1 <= z < 512 * r.1 + 512
  {
    (x / 512, z / 512)
  }

  /** `chunk_to_block`: the inclusive block ranges a chunk covers. */
  function ChunkToBlock(cx: int, cz: int): (r: (Range, Range))
    ensures r.0.hi - r.0.lo + 1 == 16 && r.1.hi - r.1.lo + 1 == 16
    ensures forall x :: r.0.Contains(x) <==> BlockToChunk(x, cz).0 == cx
    ensures forall z :: r.1.Contains(z) <==> BlockToChunk(cx, z).1 == cz
  {
    (Range(cx * 16, cx * 16 + 15), Range(cz * 16, cz * 16 + 15))
  }

  /** `region_to_block`: the inclusive block ranges a region covers. */
  function RegionToBlock(rx: int, rz: int): (r: (Range, Range))
    ensures r.0.hi - r.0.lo + 1 == 512 && r.1.hi - r.1.lo + 1 == 512
    ensures forall x :: r.0.Contains(x) <==> BlockToRegion(x, rz).0 == rx
    ensures forall z :: r.1.Contains(z) <==> BlockToRegion(rx, z).1 == rz
  {
    (Range(rx * 512, rx * 512 + 511), Range(rz * 512, rz * 512 + 511))
  }

  /** Going through chunks gives the same region as converting directly,
      negative coordinates included. */
  lemma ChunkThenRegion(x: int, z: int)
    ensures ChunkToRegion(BlockToChunk(x, z).0, BlockToChunk(x, z).1) == BlockToRegion(x, z)
  {
    var c := BlockToChunk(x, z);
    var r := ChunkToRegion(c.0, c.1);
    assert 512 * r.0 <= x < 512 * r.0 + 512;
    assert 512 * r.1 <= z < 512 * r.1 + 512;
  }

  /** A chunk's block range contains every block that maps to the chunk. */
  lemma ChunkRangeContainsBlock(x: int, z: int)
    ensures var c := BlockToChunk(x, z);
            ChunkToBlock(c.0, c.1).0.Contains(x) && ChunkToBlock(c.0, c.1).1.Contains(z)
  {
  }

  /** The absolute chunk of local chunk (cx, cz) in region (rx, rz) starts at
      block `rx * 512 + 16 * cx`, the base region.py adds to local block
      coordinates. */
  lemma LocalChunkBase(rx: int, rz: int, cx: int, cz: int)
    requires 0 <= cx < 32 && 0 <= cz < 32
    ensures ChunkToRegion(32 * rx + cx, 32 * rz + cz) == (rx, rz)
    ensures ChunkToBlock(32 * rx + cx, 32 * rz + cz).0.lo == rx * 512 + 16 * cx
    ensures ChunkToBlock(32 * rx + cx, 32 * rz + cz).1.lo == rz * 512 + 16 * cz
  {
    var r := ChunkToRegion(32 * rx + cx, 32 * rz + cz);
    assert 32 * r.0 <= 32 * rx + cx < 32 * r.0 + 32;
    assert 32 * r.1 <= 32 * rz + cz < 32 * r.1 + 32;
  }

  /** Worked values: block -1 lies in chunk -1 and region -1, not 0. */
  lemma NegativeCoordinates()
    ensures BlockToChunk(-1, -1) == (-1, -1)
    ensures BlockToRegion(-1, -1) == (-1, -1)
    ensures RegionToBlock(3, -2) == (Range(1536, 2047), Range(-1024, -513))
  {
  }
}
