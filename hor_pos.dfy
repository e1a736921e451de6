/**
 * The decomposition of one horizontal block coordinate into its region,
 * the chunk inside the region, and the block inside the chunk.
 */
module HorPositions {
  import opened KotlinInt
  import Limits

  const CHUNK_LENGTH_BLOCKS: Int32 := Limits.CHUNK_LENGTH_BLOCKS
  const REGION_LENGTH_CHUNKS: Int32 := Limits.REGION_LENGTH_CHUNKS

  datatype HorPos = HorPos(block: Int32) {

    /** The chunk holding the block, counted from the origin: floor(block / 16). */
    function GlobalChunk(): (r: Int32)
      ensures r * 16 <= block < r * 16 + 16
      ensures r == block / 16
    {
      if block >= 0 then Div(block, CHUNK_LENGTH_BLOCKS)
      else Sub(Div(Add(block, 1), CHUNK_LENGTH_BLOCKS), 1)
    }

    /** The region holding the chunk: floor(globalChunk / 32). */
    function Region(): (r: Int32)
      ensures r * 32 <= GlobalChunk() < r * 32 + 32
      ensures r == GlobalChunk() / 32
    {
      var c := GlobalChunk();
      if c >= 0 then Div(c, REGION_LENGTH_CHUNKS)
      else Sub(Div(Add(c, 1), REGION_LENGTH_CHUNKS), 1)
    }

    /** The chunk's index inside its region. */
    function LocalChunk(): (r: Int32)
      ensures 0 <= r < 32
      ensures GlobalChunk() == Region() * 32 + r
    {
      Sub(GlobalChunk(), Mul(Region(), REGION_LENGTH_CHUNKS))
    }

    /** The block's index inside its chunk. */
    function LocalBlock(): (r: Int32)
      ensures 0 <= r < 16
      ensures block == GlobalChunk() * 16 + r
    {
      Sub(block, Mul(GlobalChunk(), CHUNK_LENGTH_BLOCKS))
    }
  }

  /**
   * The secondary constructor HorPos(region, localChunk, localBlock), with
   * every Kotlin `Int` operation wrapping on overflow.
   */
  function FromParts(region: Int32, localChunk: Int32, localBlock: Int32): (h: HorPos)
    ensures InIntRange(region * 32) && InIntRange(region * 32 + localChunk) &&
            InIntRange((region * 32 + localChunk) * 16) &&
            InIntRange((region * 32 + localChunk) * 16 + localBlock)
        ==> h.block == (region * 32 + localChunk) * 16 + localBlock
  {
    var regionChunk := Wrap(region * REGION_LENGTH_CHUNKS);
    var globalChunk := Wrap(regionChunk + localChunk);
    var chunkBlock := Wrap(globalChunk * CHUNK_LENGTH_BLOCKS);
    HorPos(Wrap(chunkBlock + localBlock))
  }

  /** The region is also floor(block / 512). */
  lemma RegionIsFloorOfBlock(h: HorPos)
    ensures h.Region() == h.block / 512
    ensures h.Region() * 512 + h.LocalChunk() * 16 + h.LocalBlock() == h.block
  {
  }

  /**
   * Every Int block is rebuilt by the secondary constructor from its
   * decomposition, and none of the constructor's operations overflows.
   */
  lemma RoundTrip(h: HorPos)
    ensures InIntRange(h.Region() * 32)
    ensures InIntRange(h.Region() * 32 + h.LocalChunk())
    ensures InIntRange((h.Region() * 32 + h.LocalChunk()) * 16)
    ensures FromParts(h.Region(), h.LocalChunk(), h.LocalBlock()) == h
  {
    var c := h.GlobalChunk();
    assert h.Region() * 32 + h.LocalChunk() == c;
    assert -0x800_0000 <= c < 0x800_0000;
  }

  /**
   * Building from in-range local indices and decomposing again gives the
   * same triple, when the built block is representable.
   */
  lemma Converse(region: Int32, localChunk: Int32, localBlock: Int32)
    requires 0 <= localChunk < 32 && 0 <= localBlock < 16
    requires InIntRange((region * 32 + localChunk) * 16 + localBlock)
    ensures InIntRange(region * 32) && InIntRange((region * 32 + localChunk) * 16)
    ensures var h := FromParts(region, localChunk, localBlock);
      h.Region() == region && h.LocalChunk() == localChunk && h.LocalBlock() == localBlock
  {
    var b := (region * 32 + localChunk) * 16 + localBlock;
    assert b == region * 512 + localChunk * 16 + localBlock;
    assert -0x40_0000 <= region < 0x40_0000;
    var h := FromParts(region, localChunk, localBlock);
    assert h.block == b;
    FloorUnique(b, 16, region * 32 + localChunk, h.GlobalChunk());
    FloorUnique(h.GlobalChunk(), 32, region, h.Region());
  }

  /** Only one quotient q satisfies q*d <= a < q*d + d, for the two divisors used here. */
  lemma FloorUnique(a: int, d: int, q1: int, q2: int)
    requires d == 16 || d == 32
    requires q1 * d <= a < q1 * d + d
    requires q2 * d <= a < q2 * d + d
    ensures q1 == q2
  {
  }

  /** Rows of the decomposition table, down to Int.MIN_VALUE and up to Int.MAX_VALUE. */
  lemma TablePoints()
    ensures var h := HorPos(-1);
      h.GlobalChunk() == -1 && h.Region() == -1 && h.LocalChunk() == 31 && h.LocalBlock() == 15
    ensures var h := HorPos(-513);
      h.GlobalChunk() == -33 && h.Region() == -2 && h.LocalChunk() == 31 && h.LocalBlock() == 15
    ensures var h := HorPos(INT_MIN);
      h.GlobalChunk() == -134217728 && h.Region() == -4194304 && h.LocalChunk() == 0 && h.LocalBlock() == 0
    ensures var h := HorPos(INT_MAX);
      h.GlobalChunk() == 134217727 && h.Region() == 4194303 && h.LocalChunk() == 31 && h.LocalBlock() == 15
    ensures var h := HorPos(2020194);
      h.GlobalChunk() == 126262 && h.Region() == 3945 && h.LocalChunk() == 22 && h.LocalBlock() == 2
    ensures var h := HorPos(-921443);
      h.GlobalChunk() == -57591 && h.Region() == -1800 && h.LocalChunk() == 9 && h.LocalBlock() == 13
  {
  }
}
