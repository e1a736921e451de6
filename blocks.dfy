/**
 * Blocks and block positions at the three scales of the store: global,
 * region-local and chunk-local, and the conversions between them.
 */
module Blocks {
  import opened KotlinInt
  import opened BlockPositions
  import opened BlockTypes
  import HorPositions

  // The chunk and region coordinates of a global position, derived from the
  // HorPos decomposition of its x and z.

  function RegionX(pos: BlockPos): Int32 { HorPositions.HorPos(pos.x).Region() }
  function RegionZ(pos: BlockPos): Int32 { HorPositions.HorPos(pos.z).Region() }
  function LocalChunkX(pos: BlockPos): Int32 { HorPositions.HorPos(pos.x).LocalChunk() }
  function LocalChunkZ(pos: BlockPos): Int32 { HorPositions.HorPos(pos.z).LocalChunk() }
  function LocalBlockX(pos: BlockPos): Int32 { HorPositions.HorPos(pos.x).LocalBlock() }
  function LocalBlockZ(pos: BlockPos): Int32 { HorPositions.HorPos(pos.z).LocalBlock() }

  datatype ChunkLocalBlockPos = ChunkLocalBlockPos(x: Int32, z: Int32, y: Int32)
  datatype RegionLocalBlockPos = RegionLocalBlockPos(x: Int32, y: Int32, z: Int32)

  datatype ChunkLocalBlock = ChunkLocalBlock(pos: ChunkLocalBlockPos, blockType: BlockType)
  datatype RegionLocalBlock = RegionLocalBlock(pos: RegionLocalBlockPos, blockType: BlockType)
  datatype Block = Block(pos: BlockPos, blockType: BlockType)

  /** `toRegionLocalBlock`: shifts a chunk-local block by its chunk's offset inside the region. */
  function ToRegionLocalBlock(b: ChunkLocalBlock, localChunkX: Int32, localChunkZ: Int32): (r: RegionLocalBlock)
    ensures 0 <= b.pos.x < 16 && 0 <= b.pos.z < 16 && 0 <= localChunkX < 32 && 0 <= localChunkZ < 32 ==>
      r.pos.x == localChunkX * 16 + b.pos.x && r.pos.z == localChunkZ * 16 + b.pos.z &&
      0 <= r.pos.x < 512 && 0 <= r.pos.z < 512
    ensures r.pos.y == b.pos.y && r.blockType == b.blockType
  {
    RegionLocalBlock(
      RegionLocalBlockPos(Wrap(b.pos.x + Wrap(localChunkX * 16)), b.pos.y, Wrap(b.pos.z + Wrap(localChunkZ * 16))),
      b.blockType)
  }

  /** `toBlock`: shifts a region-local block by its region's offset, `x + regionX*512`, in Int arithmetic. */
  function ToBlock(b: RegionLocalBlock, regionX: Int32, regionZ: Int32): (r: Block)
    ensures InIntRange(regionX * 512) && InIntRange(b.pos.x + regionX * 512) ==> r.pos.x == b.pos.x + regionX * 512
    ensures InIntRange(regionZ * 512) && InIntRange(b.pos.z + regionZ * 512) ==> r.pos.z == b.pos.z + regionZ * 512
    ensures r.pos.y == b.pos.y && r.blockType == b.blockType
  {
    Block(
      BlockPos(Wrap(b.pos.x + Wrap(regionX * 512)), b.pos.y, Wrap(b.pos.z + Wrap(regionZ * 512))),
      b.blockType)
  }

  /**
   * Translating a position's own chunk-local coordinates through its chunk
   * and its region gives the position back: the three scales agree.
   */
  lemma LocalToGlobal(pos: BlockPos, t: BlockType)
    ensures var c := ChunkLocalBlock(ChunkLocalBlockPos(LocalBlockX(pos), LocalBlockZ(pos), pos.y), t);
      ToBlock(ToRegionLocalBlock(c, LocalChunkX(pos), LocalChunkZ(pos)), RegionX(pos), RegionZ(pos)) == Block(pos, t)
  {
    AxisToGlobal(pos.x);
    AxisToGlobal(pos.z);
  }

  /** One axis of LocalToGlobal: local block + local chunk * 16 + region * 512 rebuilds the global coordinate. */
  lemma AxisToGlobal(g: Int32)
    ensures var h := HorPositions.HorPos(g);
      Wrap(Wrap(h.LocalBlock() + Wrap(h.LocalChunk() * 16)) + Wrap(h.Region() * 512)) == g
  {
    var h := HorPositions.HorPos(g);
    HorPositions.RegionIsFloorOfBlock(h);
    var r := h.Region();
    assert -0x40_0000 <= r < 0x40_0000;
    assert Wrap(h.LocalChunk() * 16) == h.LocalChunk() * 16;
    assert Wrap(h.LocalBlock() + h.LocalChunk() * 16) == h.LocalBlock() + h.LocalChunk() * 16;
    assert Wrap(r * 512) == r * 512;
  }

  /**
   * Two positions with the same region, local chunk, local block and height
   * are the same position.
   */
  lemma DecompositionInjective(p: BlockPos, q: BlockPos)
    requires RegionX(p) == RegionX(q) && RegionZ(p) == RegionZ(q)
    requires LocalChunkX(p) == LocalChunkX(q) && LocalChunkZ(p) == LocalChunkZ(q)
    requires LocalBlockX(p) == LocalBlockX(q) && LocalBlockZ(p) == LocalBlockZ(q)
    requires p.y == q.y
    ensures p == q
  {
    HorPositions.RegionIsFloorOfBlock(HorPositions.HorPos(p.x));
    HorPositions.RegionIsFloorOfBlock(HorPositions.HorPos(p.z));
    HorPositions.RegionIsFloorOfBlock(HorPositions.HorPos(q.x));
    HorPositions.RegionIsFloorOfBlock(HorPositions.HorPos(q.z));
  }
}
