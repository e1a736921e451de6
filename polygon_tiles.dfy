/**
 * Dividing an area into canvases for rasterizing a polygon, and the
 * vertex-count check a polygon's rings must pass. The generator's
 * `createRasterMasks` clamps each canvas to the area; `rasterizeMulti`
 * keeps every canvas square, so the last ones may reach past the area.
 */
module PolygonTiles {
  import opened KotlinInt
  import opened Outcomes
  import opened BlockPositions
  import opened PolygonMasks

  /** `lo until hi step step`: lo, lo + step, ... while below hi. */
  function Starts(lo: int, hi: int, step: int): (r: seq<int>)
    requires step > 0
    ensures forall i :: 0 <= i < |r| ==> lo <= r[i] < hi
    ensures |r| > 0 <==> lo < hi
    ensures |r| > 0 ==> r[0] == lo
    decreases hi - lo
  {
    if lo >= hi then [] else [lo] + Starts(lo + step, hi, step)
  }

  /** Consecutive starts are at least a step apart. */
  lemma {:induction false} StartsSpaced(lo: int, hi: int, step: int)
    requires step > 0
    ensures forall i, j :: 0 <= i < j < |Starts(lo, hi, step)| ==> Starts(lo, hi, step)[j] - Starts(lo, hi, step)[i] >= step
    decreases hi - lo
  {
    if lo < hi {
      StartsSpaced(lo + step, hi, step);
      var r := Starts(lo, hi, step);
      assert r[1..] == Starts(lo + step, hi, step);
      forall i, j | 0 <= i < j < |r|
        ensures r[j] - r[i] >= step
      {
        if i > 0 {
          assert r[i] == r[1..][i - 1] && r[j] == r[1..][j - 1];
        } else {
          assert r[j] == r[1..][j - 1];
        }
      }
    }
  }

  /** Every point in [lo, hi) lies in the step after one of the starts. */
  lemma {:induction false} StartsCover(lo: int, hi: int, step: int, p: int)
    requires step > 0 && lo <= p < hi
    ensures exists i :: 0 <= i < |Starts(lo, hi, step)| && Starts(lo, hi, step)[i] <= p < Starts(lo, hi, step)[i] + step
    decreases hi - lo
  {
    var r := Starts(lo, hi, step);
    if p >= lo + step {
      StartsCover(lo + step, hi, step, p);
      var i :| 0 <= i < |Starts(lo + step, hi, step)| && Starts(lo + step, hi, step)[i] <= p < Starts(lo + step, hi, step)[i] + step;
      assert r[i + 1] == Starts(lo + step, hi, step)[i];
    } else {
      assert r[0] <= p < r[0] + step;
    }
  }

  /** At most one start has p in the step after it. */
  lemma StartsUnique(lo: int, hi: int, step: int, p: int, i: int, j: int)
    requires step > 0
    requires 0 <= i < |Starts(lo, hi, step)| && 0 <= j < |Starts(lo, hi, step)|
    requires Starts(lo, hi, step)[i] <= p < Starts(lo, hi, step)[i] + step
    requires Starts(lo, hi, step)[j] <= p < Starts(lo, hi, step)[j] + step
    ensures i == j
  {
    StartsSpaced(lo, hi, step);
  }

  /** The canvas starting at (sx, sz): clamped to the area, or a full square. */
  function Tile(area: HorRect, size: int, clamped: bool, sx: Int32, sz: Int32): HorRect {
    var ex, ez := Wrap(sx + size), Wrap(sz + size);
    var mx: Int32 := if clamped && area.max.x < ex then area.max.x else ex;
    var mz: Int32 := if clamped && area.max.z < ez then area.max.z else ez;
    HorRect(HorBlockPos(sx, sz), HorBlockPos(mx, mz))
  }

  predicate AllInt(s: seq<int>) {
    forall i :: 0 <= i < |s| ==> InIntRange(s[i])
  }

  /** The canvases for the starts, x outer and z inner. */
  function TilesOf(area: HorRect, size: int, clamped: bool, xs: seq<int>, zs: seq<int>): seq<HorRect>
    requires AllInt(xs) && AllInt(zs)
  {
    if |xs| == 0 then []
    else seq(|zs|, j requires 0 <= j < |zs| => Tile(area, size, clamped, xs[0], zs[j])) + TilesOf(area, size, clamped, xs[1..], zs)
  }

  lemma {:induction false} TilesOfMembership(area: HorRect, size: int, clamped: bool, xs: seq<int>, zs: seq<int>, t: HorRect)
    requires AllInt(xs) && AllInt(zs)
    ensures t in TilesOf(area, size, clamped, xs, zs) <==>
      exists i, j :: 0 <= i < |xs| && 0 <= j < |zs| && t == Tile(area, size, clamped, xs[i], zs[j])
    decreases |xs|
  {
    if |xs| > 0 {
      TilesOfMembership(area, size, clamped, xs[1..], zs, t);
      if t in TilesOf(area, size, clamped, xs[1..], zs) {
        var i, j :| 0 <= i < |xs[1..]| && 0 <= j < |zs| && t == Tile(area, size, clamped, xs[1..][i], zs[j]);
        assert t == Tile(area, size, clamped, xs[i + 1], zs[j]);
      }
      if exists i, j :: 0 <= i < |xs| && 0 <= j < |zs| && t == Tile(area, size, clamped, xs[i], zs[j]) {
        var i, j :| 0 <= i < |xs| && 0 <= j < |zs| && t == Tile(area, size, clamped, xs[i], zs[j]);
        if i > 0 {
          assert xs[i] == xs[1..][i - 1];
        } else {
          var row := seq(|zs|, j requires 0 <= j < |zs| => Tile(area, size, clamped, xs[0], zs[j]));
          assert t == row[j];
        }
      }
    }
  }

  /** The canvases of an area in one version or the other; a size of zero or less fails. */
  function Tiles(area: HorRect, size: Int32, clamped: bool): Result<seq<HorRect>> {
    if size <= 0 then Err(IllegalArgument)
    else Ok(TilesOf(area, size, clamped, Starts(area.min.x, area.max.x, size), Starts(area.min.z, area.max.z, size)))
  }

  /** The generator's `createRasterMasks`: canvases clamped to the area. */
  function CanvasTiles(area: HorRect, size: Int32): Result<seq<HorRect>> {
    Tiles(area, size, true)
  }

  /** `rasterizeMulti`: square canvases, not clamped. */
  function SquareTiles(area: HorRect, size: Int32): Result<seq<HorRect>> {
    Tiles(area, size, false)
  }

  predicate Contains(t: HorRect, p: HorBlockPos) {
    t.min.x <= p.x < t.max.x && t.min.z <= p.z < t.max.z
  }

  /** No canvas end passes the largest `Int`. */
  predicate NoOverflow(area: HorRect, size: int) {
    area.max.x + size <= INT_MAX && area.max.z + size <= INT_MAX
  }

  /** Both versions fail on a size of zero or less, and only then. */
  lemma TilesRejectSize(area: HorRect, size: Int32)
    ensures CanvasTiles(area, size).Err? <==> size <= 0
    ensures SquareTiles(area, size).Err? <==> size <= 0
    ensures CanvasTiles(area, size).Err? ==> CanvasTiles(area, size).error == IllegalArgument
    ensures SquareTiles(area, size).Err? ==> SquareTiles(area, size).error == IllegalArgument
  {
  }

  /** A canvas from start (sx, sz) contains p exactly when p is in the step after each start (and, clamped, in the area). */
  lemma TileContains(area: HorRect, size: int, clamped: bool, sx: Int32, sz: Int32, p: HorBlockPos)
    requires size > 0 && sx < area.max.x && sz < area.max.z && NoOverflow(area, size)
    ensures Contains(Tile(area, size, clamped, sx, sz), p) <==>
      sx <= p.x < sx + size && sz <= p.z < sz + size && (clamped ==> p.x < area.max.x && p.z < area.max.z)
  {
  }

  /** Every point of the area lies in one of the canvases. */
  lemma TilesCover(area: HorRect, size: Int32, clamped: bool, p: HorBlockPos)
    requires size > 0 && NoOverflow(area, size) && Contains(area, p)
    ensures exists t :: t in Tiles(area, size, clamped).value && Contains(t, p)
  {
    var xs, zs := Starts(area.min.x, area.max.x, size), Starts(area.min.z, area.max.z, size);
    StartsCover(area.min.x, area.max.x, size, p.x);
    StartsCover(area.min.z, area.max.z, size, p.z);
    var i :| 0 <= i < |xs| && xs[i] <= p.x < xs[i] + size;
    var j :| 0 <= j < |zs| && zs[j] <= p.z < zs[j] + size;
    var t := Tile(area, size, clamped, xs[i], zs[j]);
    TileContains(area, size, clamped, xs[i], zs[j], p);
    TilesOfMembership(area, size, clamped, xs, zs, t);
  }

  /** The starts a canvas of the area comes from. */
  lemma TileIndex(area: HorRect, size: Int32, clamped: bool, t: HorRect) returns (i: int, j: int)
    requires size > 0 && t in Tiles(area, size, clamped).value
    ensures 0 <= i < |Starts(area.min.x, area.max.x, size)| && 0 <= j < |Starts(area.min.z, area.max.z, size)|
    ensures t == Tile(area, size, clamped, Starts(area.min.x, area.max.x, size)[i], Starts(area.min.z, area.max.z, size)[j])
  {
    var xs, zs := Starts(area.min.x, area.max.x, size), Starts(area.min.z, area.max.z, size);
    TilesOfMembership(area, size, clamped, xs, zs, t);
    i, j :| 0 <= i < |xs| && 0 <= j < |zs| && t == Tile(area, size, clamped, xs[i], zs[j]);
  }

  /** No point lies in two different canvases. */
  lemma TilesDisjoint(area: HorRect, size: Int32, clamped: bool, t1: HorRect, t2: HorRect, p: HorBlockPos)
    requires size > 0 && NoOverflow(area, size)
    requires t1 in Tiles(area, size, clamped).value && t2 in Tiles(area, size, clamped).value
    requires Contains(t1, p) && Contains(t2, p)
    ensures t1 == t2
  {
    var xs, zs := Starts(area.min.x, area.max.x, size), Starts(area.min.z, area.max.z, size);
    var i1, j1 := TileIndex(area, size, clamped, t1);
    var i2, j2 := TileIndex(area, size, clamped, t2);
    TileContains(area, size, clamped, xs[i1], zs[j1], p);
    TileContains(area, size, clamped, xs[i2], zs[j2], p);
    StartsUnique(area.min.x, area.max.x, size, p.x, i1, i2);
    StartsUnique(area.min.z, area.max.z, size, p.z, j1, j2);
  }

  /**
   * The generator's canvases lie inside the area, are at most size by
   * size, and have positive width and depth, so rasterizing on them never
   * fails for the canvas.
   */
  lemma CanvasTilesInside(area: HorRect, size: Int32, t: HorRect)
    requires size > 0 && NoOverflow(area, size) && t in CanvasTiles(area, size).value
    ensures area.min.x <= t.min.x < t.max.x <= area.max.x && area.min.z <= t.min.z < t.max.z <= area.max.z
    ensures t.max.x - t.min.x <= size && t.max.z - t.min.z <= size
    ensures Wrap(t.max.x - t.min.x) > 0 && Wrap(t.max.z - t.min.z) > 0
  {
    var xs, zs := Starts(area.min.x, area.max.x, size), Starts(area.min.z, area.max.z, size);
    TilesOfMembership(area, size, true, xs, zs, t);
  }

  /** `rasterizeMulti`'s canvases start inside the area and are all size by size. */
  lemma SquareTilesSquare(area: HorRect, size: Int32, t: HorRect)
    requires size > 0 && NoOverflow(area, size) && t in SquareTiles(area, size).value
    ensures area.min.x <= t.min.x < area.max.x && area.min.z <= t.min.z < area.max.z
    ensures t.max.x - t.min.x == size && t.max.z - t.min.z == size
  {
    var xs, zs := Starts(area.min.x, area.max.x, size), Starts(area.min.z, area.max.z, size);
    TilesOfMembership(area, size, false, xs, zs, t);
  }

  /** A 5 by 5 area in canvases of 4: the last square canvas reaches 3 past the area, the clamped one stops at it. */
  lemma SquareTilesOverhang()
    ensures HorRect(HorBlockPos(4, 4), HorBlockPos(8, 8)) in SquareTiles(HorRect(HorBlockPos(0, 0), HorBlockPos(5, 5)), 4).value
    ensures HorRect(HorBlockPos(4, 4), HorBlockPos(5, 5)) in CanvasTiles(HorRect(HorBlockPos(0, 0), HorBlockPos(5, 5)), 4).value
  {
    var area := HorRect(HorBlockPos(0, 0), HorBlockPos(5, 5));
    var s := Starts(0, 5, 4);
    assert s[1] == 4;
    TilesOfMembership(area, 4, false, s, s, HorRect(HorBlockPos(4, 4), HorBlockPos(8, 8)));
    TilesOfMembership(area, 4, true, s, s, HorRect(HorBlockPos(4, 4), HorBlockPos(5, 5)));
  }

  // ---------------------------------------------------------------------
  // Rasterizing every canvas
  // ---------------------------------------------------------------------

  /** The canvases, in order, whose polygon has at least one piece on them. */
  function WithPieces(canvases: seq<HorRect>, piecesOf: HorRect -> seq<Mask>): seq<HorRect>
    decreases |canvases|
  {
    if |canvases| == 0 then []
    else (if |piecesOf(canvases[0])| > 0 then [canvases[0]] else []) + WithPieces(canvases[1..], piecesOf)
  }

  /**
   * The `map { rasterize(...) }.filterNotNull()` tail of `rasterizeMulti`
   * and `createRasterMasks`, consumed to the end: the masks a consumer
   * receives, canvas by canvas with the canvases without pieces dropped,
   * and the error of the first canvas that fails, which ends the walk.
   */
  function RasterizeEach(canvases: seq<HorRect>, piecesOf: HorRect -> seq<Mask>): (seq<Mask>, Option<Error>)
    decreases |canvases|
  {
    if |canvases| == 0 then ([], None)
    else
      var first := Rasterize(canvases[0], piecesOf(canvases[0]));
      if first.Err? then ([], Some(first.error))
      else
        var rest := RasterizeEach(canvases[1..], piecesOf);
        if first.value.Some? then ([first.value.value] + rest.0, rest.1) else rest
  }

  /** The walk ends without an error exactly when every canvas rasterizes. */
  lemma {:induction false} RasterizeEachFails(canvases: seq<HorRect>, piecesOf: HorRect -> seq<Mask>)
    ensures RasterizeEach(canvases, piecesOf).1.None? <==>
      forall i :: 0 <= i < |canvases| ==> Rasterize(canvases[i], piecesOf(canvases[i])).Ok?
    ensures RasterizeEach(canvases, piecesOf).1.Some? ==>
      exists i :: 0 <= i < |canvases| && Rasterize(canvases[i], piecesOf(canvases[i])) == Err(RasterizeEach(canvases, piecesOf).1.value)
    decreases |canvases|
  {
    if |canvases| > 0 {
      RasterizeEachFails(canvases[1..], piecesOf);
      assert forall i :: 1 <= i < |canvases| ==> canvases[i] == canvases[1..][i - 1];
      if Rasterize(canvases[0], piecesOf(canvases[0])).Ok? && RasterizeEach(canvases, piecesOf).1.Some? {
        var i :| 0 <= i < |canvases[1..]| &&
          Rasterize(canvases[1..][i], piecesOf(canvases[1..][i])) == Err(RasterizeEach(canvases, piecesOf).1.value);
        assert canvases[i + 1] == canvases[1..][i];
      }
    }
  }

  /** A canvas of positive size whose pieces are each as large as it. */
  predicate Fits(canvas: HorRect, pieces: seq<Mask>) {
    Wrap(canvas.max.x - canvas.min.x) > 0 && Wrap(canvas.max.z - canvas.min.z) > 0 &&
    forall i :: 0 <= i < |pieces| ==>
      Shaped(pieces[i], Wrap(canvas.max.z - canvas.min.z), Wrap(canvas.max.x - canvas.min.x))
  }

  /** m is the union mask of the pieces on canvas c. */
  predicate UnionMask(c: HorRect, pieces: seq<Mask>, m: Mask) {
    var lenX, lenZ := Wrap(c.max.x - c.min.x), Wrap(c.max.z - c.min.z);
    Shaped(m, lenZ, lenX) &&
    forall z, x :: 0 <= z < lenZ && 0 <= x < lenX ==> (m[z][x] <==> InSomePiece(pieces, z, x))
  }

  /**
   * When every canvas fits its pieces, the walk ends without an error
   * and yields one mask per canvas with pieces, in canvas order: the
   * union of that canvas's pieces.
   */
  lemma {:induction false} RasterizeEachMasks(canvases: seq<HorRect>, piecesOf: HorRect -> seq<Mask>)
    requires forall i :: 0 <= i < |canvases| ==> Fits(canvases[i], piecesOf(canvases[i]))
    ensures RasterizeEach(canvases, piecesOf).1.None?
    ensures |RasterizeEach(canvases, piecesOf).0| == |WithPieces(canvases, piecesOf)|
    ensures forall j :: 0 <= j < |WithPieces(canvases, piecesOf)| ==>
      UnionMask(WithPieces(canvases, piecesOf)[j], piecesOf(WithPieces(canvases, piecesOf)[j]), RasterizeEach(canvases, piecesOf).0[j])
    decreases |canvases|
  {
    if |canvases| > 0 {
      var c, tail := canvases[0], canvases[1..];
      assert forall i :: 0 <= i < |tail| ==> tail[i] == canvases[i + 1];
      RasterizeEachMasks(tail, piecesOf);
      RasterizeUnion(c, piecesOf(c));
      var rest, ws := RasterizeEach(tail, piecesOf), WithPieces(tail, piecesOf);
      if |piecesOf(c)| > 0 {
        var m := Rasterize(c, piecesOf(c)).value.value;
        assert UnionMask(c, piecesOf(c), m);
        assert RasterizeEach(canvases, piecesOf).0 == [m] + rest.0;
        assert WithPieces(canvases, piecesOf) == [c] + ws;
      } else {
        assert RasterizeEach(canvases, piecesOf) == rest;
        assert WithPieces(canvases, piecesOf) == ws;
      }
    }
  }

  // ---------------------------------------------------------------------
  // The vertex-count check
  // ---------------------------------------------------------------------

  /** A corner of a polygon, with exact decimal coordinates. */
  datatype HorPoint = HorPoint(x: real, z: real)

  /** The rings in order, each checked for at least three corners. */
  function RingsCornered(rings: seq<seq<HorPoint>>): (r: Outcome)
    ensures r.Pass? <==> forall i :: 0 <= i < |rings| ==> |rings[i]| >= 3
    ensures r.Fail? ==> r.error == IllegalArgument
  {
    if |rings| == 0 then Pass
    else if |rings[0]| < 3 then Fail(IllegalArgument)
    else
      var rest := RingsCornered(rings[1..]);
      assert forall i :: 1 <= i < |rings| ==> rings[i] == rings[1..][i - 1];
      rest
  }

  /**
   * The first check of the `Polygon` constructor: the holes, then the
   * outer shell, each must have at least three corners.
   */
  function CheckCorners(shell: seq<HorPoint>, holes: seq<seq<HorPoint>>): (r: Outcome)
    ensures r.Pass? <==> |shell| >= 3 && forall h :: h in holes ==> |h| >= 3
    ensures r.Fail? ==> r.error == IllegalArgument
  {
    var rings := holes + [shell];
    assert rings[|holes|] == shell;
    assert forall i :: 0 <= i < |holes| ==> rings[i] == holes[i];
    RingsCornered(rings)
  }

  /** The failing corner counts of the polygon tests, and a square that passes. */
  lemma CornerCountTable()
    ensures CheckCorners([], []) == Fail(IllegalArgument)
    ensures CheckCorners([HorPoint(0.0, 0.0)], []) == Fail(IllegalArgument)
    ensures CheckCorners([HorPoint(0.0, 1.0), HorPoint(3.0, 4.0)], []) == Fail(IllegalArgument)
    ensures var square := [HorPoint(0.0, 0.0), HorPoint(0.0, 5.0), HorPoint(5.0, 5.0), HorPoint(5.0, 0.0)];
      CheckCorners(square, []) == Pass &&
      CheckCorners(square, [[]]) == Fail(IllegalArgument) &&
      CheckCorners(square, [[HorPoint(1.0, 3.0)]]) == Fail(IllegalArgument) &&
      CheckCorners(square, [[HorPoint(2.0, 3.5), HorPoint(3.0, 2.3)]]) == Fail(IllegalArgument)
  {
    var square := [HorPoint(0.0, 0.0), HorPoint(0.0, 5.0), HorPoint(5.0, 5.0), HorPoint(5.0, 0.0)];
    assert [[HorPoint(1.0, 3.0)]][0] in [[HorPoint(1.0, 3.0)]];
  }
}
