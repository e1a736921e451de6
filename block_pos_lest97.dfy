/**
 * `BlockPosLEst97`: a one-metre block of the L-EST97 grid, named by its
 * lowest south-west corner (x north, y east, h the height whose block
 * just below sea level is -1), and its place in the world.
 */
module Lest97Blocks {
  import opened KotlinInt
  import opened BlockPositions

  datatype BlockPosLEst97 = BlockPosLEst97(x: Int32, y: Int32, h: Int32)

  /**
   * `toBlockPos`: L-EST97 y becomes world x, h + s + 1 the world height
   * (s is the world height of the block just below sea level) and -x - 1
   * world z, so the block north of the axis lands south of it; in `Int`
   * arithmetic, and no height is clamped.
   */
  function ToBlockPos(p: BlockPosLEst97, seaLevelBlockBottomY: Int32): (r: BlockPos)
    ensures r.x == p.y
    ensures r.z == -(p.x as int) - 1
    ensures InIntRange(p.h + seaLevelBlockBottomY + 1) ==> r.y == p.h + seaLevelBlockBottomY + 1
  {
    var z := Wrap(Wrap(-(p.x as int)) - 1);
    assert z == -(p.x as int) - 1 by {
      WrapThenAdd(-(p.x as int), -1);
    }
    BlockPos(p.y, Wrap(Wrap(p.h + seaLevelBlockBottomY) + 1), z)
  }

  /** The way back for one sea level: world x gives y, -z - 1 gives x, and the height less s + 1 gives h. */
  function FromBlockPos(b: BlockPos, seaLevelBlockBottomY: Int32): BlockPosLEst97 {
    BlockPosLEst97(-(b.z as int) - 1, b.x, Wrap(b.y - seaLevelBlockBottomY - 1))
  }

  /** For one sea level, placing a block and reading it back gives the block, wrap-around included: the placement is injective. */
  lemma PlaceRoundTrip(p: BlockPosLEst97, s: Int32)
    ensures FromBlockPos(ToBlockPos(p, s), s) == p
  {
    WrapThenAdd(p.h + s, 1);
    WrapThenAdd(p.h + s + 1, -(s as int) - 1);
  }

  /** For one sea level, every world position is the placement of one block. */
  lemma PlaceOnto(b: BlockPos, s: Int32)
    ensures ToBlockPos(FromBlockPos(b, s), s) == b
  {
    var p := FromBlockPos(b, s);
    var h := Wrap(b.y - s - 1);
    assert p.h == h;
    WrapThenAdd(h + s, 1);
    WrapThenAdd(b.y - s - 1, s + 1);
    assert Wrap(h + s + 1) == b.y;
    assert ToBlockPos(p, s).y == b.y;
    assert ToBlockPos(p, s).z == b.z;
  }

  /** A block just north of the axis and below sea level is placed just south of it, at y = s. */
  lemma PlaceNearAxis()
    ensures ToBlockPos(BlockPosLEst97(-2, 3, -1), -1) == BlockPos(3, -1, 1)
  {
  }

  /** A block far below bedrock keeps its height: nothing is clamped. */
  lemma PlaceUnclamped()
    ensures ToBlockPos(BlockPosLEst97(1, 1, -990), 30) == BlockPos(1, -959, -2)
  {
  }
}
