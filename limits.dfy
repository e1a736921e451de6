/** Block positions as the store receives them. */
module BlockPositions {
  import opened KotlinInt

  /** A global block position: x and z horizontal, y the height. */
  datatype BlockPos = BlockPos(x: Int32, y: Int32, z: Int32)

  /** A horizontal block position (a column). */
  datatype HorBlockPos = HorBlockPos(x: Int32, z: Int32)
}

/** The size constants of the model and its coordinate limits. */
module Limits {
  import opened BlockPositions

  const MODEL_HEIGHT_BLOCKS: int := 256

  const CHUNK_LENGTH_BLOCKS: int := 16
  const CHUNK_SIZE_BLOCKS: int := CHUNK_LENGTH_BLOCKS * CHUNK_LENGTH_BLOCKS * MODEL_HEIGHT_BLOCKS

  const REGION_LENGTH_CHUNKS: int := 32
  const REGION_SIZE_CHUNKS: int := REGION_LENGTH_CHUNKS * REGION_LENGTH_CHUNKS
  const REGION_LENGTH_BLOCKS: int := REGION_LENGTH_CHUNKS * CHUNK_LENGTH_BLOCKS
  const REGION_SIZE_BLOCKS: int := REGION_SIZE_CHUNKS * CHUNK_SIZE_BLOCKS

  /** The inclusive corners of the area a model is meant to cover. */
  const MIN_BLOCK_POS: BlockPos := BlockPos(-20_037_508, 0, -20_003_931)
  const MAX_BLOCK_POS: BlockPos := BlockPos(20_037_508, MODEL_HEIGHT_BLOCKS - 1, 20_003_931)

  const DISK_BLOCK_SIZE_BYTES: int := 1
  const DISK_CHUNK_SIZE_BYTES: int := CHUNK_SIZE_BLOCKS * DISK_BLOCK_SIZE_BYTES
  const DISK_REGION_SIZE_BYTES: int := REGION_SIZE_CHUNKS * DISK_CHUNK_SIZE_BYTES

  const DISK_REGION_SIZE_MB_APPROX: int := DISK_REGION_SIZE_BYTES / 1024 / 1024
  const DEFAULT_MAX_CACHE_SIZE_MB: int := 1024

  /**
   * Whether a position lies inside the model's limits, all bounds
   * inclusive. Such a position has a height the model stores, and lies in
   * one of 78 272 by 78 142 regions around the origin.
   */
  predicate IsWithinLimits(pos: BlockPos): (b: bool)
    ensures b ==> 0 <= pos.y < MODEL_HEIGHT_BLOCKS
    ensures b ==> -REGION_LENGTH_BLOCKS * 39_136 <= pos.x < REGION_LENGTH_BLOCKS * 39_136
    ensures b ==> -REGION_LENGTH_BLOCKS * 39_071 <= pos.z < REGION_LENGTH_BLOCKS * 39_071
  {
    MIN_BLOCK_POS.x <= pos.x <= MAX_BLOCK_POS.x &&
    MIN_BLOCK_POS.y <= pos.y <= MAX_BLOCK_POS.y &&
    MIN_BLOCK_POS.z <= pos.z <= MAX_BLOCK_POS.z
  }

  /** The derived sizes: a chunk holds 65 536 blocks, a region 67 108 864, in 64 MiB on disk. */
  lemma DerivedSizes()
    ensures CHUNK_SIZE_BLOCKS == 65_536
    ensures REGION_SIZE_CHUNKS == 1024
    ensures REGION_LENGTH_BLOCKS == 512
    ensures REGION_SIZE_BLOCKS == 67_108_864
    ensures DISK_REGION_SIZE_BYTES == 64 * 1024 * 1024
    ensures DISK_REGION_SIZE_MB_APPROX == 64
    ensures DISK_CHUNK_SIZE_BYTES < 1024 * 1024
    ensures DISK_REGION_SIZE_BYTES < 500 * 1024 * 1024
  {
  }

  /**
   * The limits are centred: a position is inside exactly when its mirror
   * through the vertical axis at x = z = 0 is, and the area is one block
   * per metre of the Earth's circumference, 40 075 017 blocks along x and
   * 40 007 863 along z, by the model's height.
   */
  lemma LimitsCentred(pos: BlockPos)
    requires pos.x != -0x8000_0000 && pos.z != -0x8000_0000
    ensures IsWithinLimits(pos) <==> IsWithinLimits(BlockPos(-pos.x, pos.y, -pos.z))
    ensures MAX_BLOCK_POS.x - MIN_BLOCK_POS.x + 1 == 40_075_017
    ensures MAX_BLOCK_POS.z - MIN_BLOCK_POS.z + 1 == 40_007_863
    ensures MAX_BLOCK_POS.y - MIN_BLOCK_POS.y + 1 == MODEL_HEIGHT_BLOCKS
  {
  }

  /** Examples of the bounds: the extreme corners are inside, one step past any face is outside. */
  lemma LimitCornerExamples()
    ensures IsWithinLimits(BlockPos(-20_037_508, 0, -20_003_931))
    ensures IsWithinLimits(BlockPos(20_037_508, 255, 20_003_931))
    ensures !IsWithinLimits(BlockPos(20_037_509, 0, 0))
    ensures !IsWithinLimits(BlockPos(0, -1, 0))
    ensures !IsWithinLimits(BlockPos(0, 256, 0))
    ensures !IsWithinLimits(BlockPos(0, 0, -20_003_932))
  {
  }
}
