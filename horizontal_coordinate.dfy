/**
 * The legacy twin of HorPos: the same decomposition computed by lazily
 * initialised properties, using the legacy chunk and region constants.
 */
module HorizontalCoordinates {
  import opened KotlinInt
  import HorPositions

  /** The legacy chunk side length (BinaryChunk.CHUNK_LENGTH_BLOCKS). */
  const CHUNK_LENGTH_BLOCKS: Int32 := 16
  /** The legacy region side length in chunks (BinaryRegion.REGION_LENGTH_CHUNKS). */
  const REGION_LENGTH_CHUNKS: Int32 := 32

  datatype HorizontalCoordinate = HorizontalCoordinate(globalBlock: Int32) {

    function GlobalChunk(): (r: Int32)
      ensures r * 16 <= globalBlock < r * 16 + 16
    {
      if globalBlock >= 0 then Div(globalBlock, CHUNK_LENGTH_BLOCKS)
      else Sub(Div(Add(globalBlock, 1), CHUNK_LENGTH_BLOCKS), 1)
    }

    function Region(): (r: Int32)
      ensures r * 32 <= GlobalChunk() < r * 32 + 32
    {
      var c := GlobalChunk();
      if c >= 0 then Div(c, REGION_LENGTH_CHUNKS)
      else Sub(Div(Add(c, 1), REGION_LENGTH_CHUNKS), 1)
    }

    function LocalChunk(): (r: Int32)
      ensures 0 <= r < 32
    {
      Sub(GlobalChunk(), Mul(Region(), REGION_LENGTH_CHUNKS))
    }

    function LocalBlock(): (r: Int32)
      ensures 0 <= r < 16
    {
      Sub(globalBlock, Mul(GlobalChunk(), CHUNK_LENGTH_BLOCKS))
    }
  }

  /** The secondary constructor, with Kotlin's wrapping `Int` operations. */
  function FromParts(region: Int32, localChunk: Int32, localBlock: Int32): (c: HorizontalCoordinate)
    ensures InIntRange(region * 32) && InIntRange(region * 32 + localChunk) &&
            InIntRange((region * 32 + localChunk) * 16) &&
            InIntRange((region * 32 + localChunk) * 16 + localBlock)
        ==> c.globalBlock == (region * 32 + localChunk) * 16 + localBlock
  {
    var regionChunk := Wrap(region * REGION_LENGTH_CHUNKS);
    var globalChunk := Wrap(regionChunk + localChunk);
    var chunkBlock := Wrap(globalChunk * CHUNK_LENGTH_BLOCKS);
    HorizontalCoordinate(Wrap(chunkBlock + localBlock))
  }

  /** The legacy decomposition agrees with HorPos on every Int. */
  lemma AgreesWithHorPos(g: Int32)
    ensures var c, h := HorizontalCoordinate(g), HorPositions.HorPos(g);
      c.GlobalChunk() == h.GlobalChunk() && c.Region() == h.Region() &&
      c.LocalChunk() == h.LocalChunk() && c.LocalBlock() == h.LocalBlock()
  {
    var c, h := HorizontalCoordinate(g), HorPositions.HorPos(g);
    HorPositions.FloorUnique(g, 16, c.GlobalChunk(), h.GlobalChunk());
    HorPositions.FloorUnique(c.GlobalChunk(), 32, c.Region(), h.Region());
  }

  /** Every global block is rebuilt by the inverse constructor from its parts. */
  lemma RoundTrip(c: HorizontalCoordinate)
    ensures FromParts(c.Region(), c.LocalChunk(), c.LocalBlock()) == c
  {
    AgreesWithHorPos(c.globalBlock);
    HorPositions.RoundTrip(HorPositions.HorPos(c.globalBlock));
  }

  /** Int.MAX_VALUE decomposes to chunk 134217727, region 4194303, 31, 15. */
  lemma MaxValueRow()
    ensures var c := HorizontalCoordinate(INT_MAX);
      c.GlobalChunk() == 134217727 && c.Region() == 4194303 && c.LocalChunk() == 31 && c.LocalBlock() == 15
  {
  }
}
