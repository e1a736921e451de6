/**
 * `CoordinateUtils`: the world's height levels and coordinate limits, and
 * the axis swap from the L-EST97 grid (x north, y east, h above sea level)
 * to the world's axes (x east, y up, z south).
 */
module CoordinateUtils {
  import opened KotlinInt
  import opened BlockPositions

  const Y_MIN: int := 0            // bedrock level
  const Y_STONE_LEVEL: int := 4
  const Y_DIRT_LEVEL: int := 7
  const Y_SEA_LEVEL: int := 62
  const Y_MAX: int := 255          // inclusive

  // Half the Earth's circumference in metres along each axis; both ends inclusive.
  const X_MIN: int := -20_037_508
  const X_MAX: int := 20_037_508
  const Z_MIN: int := -20_003_931
  const Z_MAX: int := 20_003_931

  predicate McXInRange(x: int) { X_MIN <= x <= X_MAX }
  predicate McYInRange(y: int) { Y_MIN <= y <= Y_MAX }
  predicate McZInRange(z: int) { Z_MIN <= z <= Z_MAX }

  /** What `lest97ToMc` returns, and whether it logged the result as out of range. */
  datatype Converted = Converted(pos: BlockPos, warned: bool)

  /**
   * `lest97ToMc`: L-EST97 y becomes world x, h + Y_SEA_LEVEL the world
   * height and -x world z, in `Int` arithmetic. A result outside the
   * ranges is only logged; it is returned all the same.
   */
  function Lest97ToMc(x: Int32, y: Int32, h: Int32): (r: Converted)
    ensures r.pos.x == y
    ensures InIntRange(h + Y_SEA_LEVEL) ==> r.pos.y == h + Y_SEA_LEVEL
    ensures x != INT_MIN ==> r.pos.z == -x
    ensures r.warned <==> !(X_MIN <= y <= X_MAX && Y_MIN - Y_SEA_LEVEL <= h <= Y_MAX - Y_SEA_LEVEL && -Z_MAX <= x <= -Z_MIN)
  {
    var mc := BlockPos(y, Wrap(h + Y_SEA_LEVEL), Wrap(-(x as int)));
    Converted(mc, !McXInRange(mc.x) || !McYInRange(mc.y) || !McZInRange(mc.z))
  }

  /** The way back: world z gives -x, world x gives y, and the height less sea level gives h. */
  function McToLest97(p: BlockPos): (int, int, int) {
    (Wrap(-(p.z as int)), p.x, Wrap(p.y - Y_SEA_LEVEL))
  }

  /** Converting to the world and back gives the L-EST97 triple, wrap-around included. */
  lemma Lest97RoundTrip(x: Int32, y: Int32, h: Int32)
    ensures McToLest97(Lest97ToMc(x, y, h).pos) == (x, y, h)
  {
    WrapThenNegate(-(x as int));
    WrapThenAdd(h + Y_SEA_LEVEL, -Y_SEA_LEVEL);
  }

  /** Every world position is the conversion of one L-EST97 triple: the conversion is onto, and with the round trip a bijection. */
  lemma McRoundTrip(p: BlockPos)
    ensures var t := McToLest97(p); Lest97ToMc(t.0, t.1, t.2).pos == p
  {
    WrapThenNegate(-(p.z as int));
    WrapThenAdd(p.y - Y_SEA_LEVEL, Y_SEA_LEVEL);
  }
}
