/**
 * `DiskBoundModelBuilder`: the writes each build step issues, in the order
 * its nested loops issue them, what those writes leave in each cell, and
 * `build`, which issues them all on a model and flushes it.
 */
module ModelBuilder {
  import opened KotlinInt
  import opened Outcomes
  import opened BlockPositions
  import opened BlockTypes
  import opened Regions
  import opened RegionFiles
  import opened CacheLines
  import opened DiskBoundModels
  import opened ModelWrites

  /** `for (y in lo..hi) setBlock((x, y, z), b)`: ascending heights, none when lo > hi. */
  function Column(x: Int32, z: Int32, lo: Int32, hi: Int32, b: BlockType): (ws: seq<Write>)
    ensures |ws| == if lo <= hi then hi - lo + 1 else 0
    ensures forall i :: 0 <= i < |ws| ==> ws[i] == Write(BlockPos(x, lo + i, z), b)
  {
    seq(if lo <= hi then hi - lo + 1 else 0, i requires 0 <= i <= hi - lo => Write(BlockPos(x, lo + i, z), b))
  }

  /**
   * One terrain column or marker pole: UNBREAKABLE_STONE at the base under
   * `top`, then `fill` from just above the base up to the top.
   */
  function Pillar(top: BlockPos, base: Int32, fill: BlockType): seq<Write> {
    [Write(BlockPos(top.x, base, top.z), UNBREAKABLE_STONE)] + Column(top.x, top.z, Wrap(base + 1), top.y, fill)
  }

  /** A pillar for each top, in order. */
  function Pillars(tops: seq<BlockPos>, base: Int32, fill: BlockType): seq<Write> {
    if |tops| == 0 then [] else Pillars(tops[..|tops| - 1], base, fill) + Pillar(tops[|tops| - 1], base, fill)
  }

  /** Whether the pillar of `top` on `base` writes position q. */
  predicate PillarCovers(top: BlockPos, base: int, q: BlockPos) {
    q.x == top.x && q.z == top.z && (q.y == base || base < q.y <= top.y)
  }

  /**
   * A pillar leaves UNBREAKABLE_STONE at its base and `fill` at every
   * height above the base up to its top, and writes no other cell.
   */
  lemma PillarCells(top: BlockPos, base: Int32, fill: BlockType, q: BlockPos)
    requires base < INT_MAX
    ensures LastWrite(Pillar(top, base, fill), q) ==
            if !PillarCovers(top, base, q) then None
            else if q.y == base then Some(UNBREAKABLE_STONE) else Some(fill)
  {
    var head := [Write(BlockPos(top.x, base, top.z), UNBREAKABLE_STONE)];
    var column := Column(top.x, top.z, Wrap(base + 1), top.y, fill);
    LastWriteAppend(head, column, q);
    LastWriteUniform(column, fill, q);
    if PillarCovers(top, base, q) && q.y != base {
      assert column[q.y - base - 1].pos == q;
    }
    LastWriteUniform(head, UNBREAKABLE_STONE, q);
  }

  /**
   * The pillars of a list of tops leave UNBREAKABLE_STONE at the base of
   * every column with a top and `fill` above, up to the highest top of
   * that column, and write no other cell.
   */
  lemma {:induction false} PillarsCells(tops: seq<BlockPos>, base: Int32, fill: BlockType, q: BlockPos)
    requires base < INT_MAX
    ensures LastWrite(Pillars(tops, base, fill), q) ==
            if !exists i :: 0 <= i < |tops| && PillarCovers(tops[i], base, q) then None
            else if q.y == base then Some(UNBREAKABLE_STONE) else Some(fill)
  {
    if |tops| > 0 {
      var front, top := tops[..|tops| - 1], tops[|tops| - 1];
      assert Pillars(tops, base, fill) == Pillars(front, base, fill) + Pillar(top, base, fill);
      PillarsCells(front, base, fill, q);
      LastWriteAppend(Pillars(front, base, fill), Pillar(top, base, fill), q);
      PillarCells(top, base, fill, q);
      PillarCoversStep(tops, front, base, q);
    }
  }

  /** Some pillar of the tops covers q exactly when the last one or one before it does. */
  lemma PillarCoversStep(tops: seq<BlockPos>, front: seq<BlockPos>, base: int, q: BlockPos)
    requires |tops| > 0 && front == tops[..|tops| - 1]
    ensures (exists i :: 0 <= i < |tops| && PillarCovers(tops[i], base, q)) <==>
            (exists i :: 0 <= i < |front| && PillarCovers(front[i], base, q)) || PillarCovers(tops[|tops| - 1], base, q)
  {
    if exists i :: 0 <= i < |tops| && PillarCovers(tops[i], base, q) {
      var i :| 0 <= i < |tops| && PillarCovers(tops[i], base, q);
      if i < |front| {
        assert front[i] == tops[i];
      }
    }
    if exists i :: 0 <= i < |front| && PillarCovers(front[i], base, q) {
      var i :| 0 <= i < |front| && PillarCovers(front[i], base, q);
      assert front[i] == tops[i];
    }
  }

  /** `buildObj3d`: one write of block type t per position, in order. */
  function Obj3dWrites(blocks: seq<BlockPos>, t: BlockType): seq<Write> {
    seq(|blocks|, i requires 0 <= i < |blocks| => Write(blocks[i], t))
  }

  /** `buildObj3d` sets exactly the given positions to its block type. */
  lemma Obj3dCells(blocks: seq<BlockPos>, t: BlockType, q: BlockPos)
    ensures LastWrite(Obj3dWrites(blocks, t), q) == if q in blocks then Some(t) else None
  {
    LastWriteUniform(Obj3dWrites(blocks, t), t, q);
    if q in blocks {
      var i :| 0 <= i < |blocks| && blocks[i] == q;
      assert Obj3dWrites(blocks, t)[i].pos == q;
    }
  }

  /** `for (y in hi downTo lo) setBlock((x, y, z), b)`: descending heights, none when lo > hi. */
  function DownColumn(x: Int32, z: Int32, hi: Int32, lo: Int32, b: BlockType): (ws: seq<Write>)
    ensures |ws| == if lo <= hi then hi - lo + 1 else 0
    ensures forall i :: 0 <= i < |ws| ==> ws[i] == Write(BlockPos(x, hi - i, z), b)
  {
    seq(if lo <= hi then hi - lo + 1 else 0, i requires 0 <= i <= hi - lo => Write(BlockPos(x, hi - i, z), b))
  }

  /** A descending column writes its block exactly at its cells. */
  lemma DownColumnCells(x: Int32, z: Int32, hi: Int32, lo: Int32, b: BlockType, q: BlockPos)
    ensures LastWrite(DownColumn(x, z, hi, lo, b), q) ==
            if q.x == x && q.z == z && lo <= q.y <= hi then Some(b) else None
  {
    LastWriteUniform(DownColumn(x, z, hi, lo, b), b, q);
    if q.x == x && q.z == z && lo <= q.y <= hi {
      assert DownColumn(x, z, hi, lo, b)[hi - q.y].pos == q;
    }
  }

  /** The inner loop of a box: for dz from `start` until `stop`, a descending column at (c.x + dx, c.z + dz). */
  function BoxRow(c: BlockPos, dx: int, start: int, stop: int, hi: Int32, lo: Int32, b: BlockType): seq<Write>
    decreases stop - start
  {
    if stop <= start then []
    else BoxRow(c, dx, start, stop - 1, hi, lo, b) + DownColumn(Wrap(c.x + dx), Wrap(c.z + (stop - 1)), hi, lo, b)
  }

  /** The outer loop of a box: for dx from `start` until `stop`, a row with dz in [-half, half). */
  function BoxRows(c: BlockPos, half: nat, start: int, stop: int, hi: Int32, lo: Int32, b: BlockType): seq<Write>
    decreases stop - start
  {
    if stop <= start then []
    else BoxRows(c, half, start, stop - 1, hi, lo, b) + BoxRow(c, stop - 1, -(half as int), half, hi, lo, b)
  }

  /**
   * The writes of a square footprint around centre c: offsets dx, then dz,
   * each in [-half, half), and at each column y start hi down stop lo.
   * Coordinates wrap as Kotlin `Int` additions do.
   */
  function Box(c: BlockPos, half: nat, hi: Int32, lo: Int32, b: BlockType): seq<Write> {
    BoxRows(c, half, -(half as int), half, hi, lo, b)
  }

  /** Whether the box of half-width `half` around c, start hi down stop lo, covers q. */
  predicate BoxCovers(c: BlockPos, half: int, hi: int, lo: int, q: BlockPos) {
    c.x - half <= q.x < c.x + half && c.z - half <= q.z < c.z + half && lo <= q.y <= hi
  }

  /** A row whose columns need no wrap-around writes its block exactly at its cells. */
  lemma {:induction false} BoxRowCells(c: BlockPos, dx: int, start: int, stop: int, hi: Int32, lo: Int32, b: BlockType, q: BlockPos)
    requires InIntRange(c.x + dx) && (start < stop ==> InIntRange(c.z + start) && InIntRange(c.z + stop - 1))
    ensures LastWrite(BoxRow(c, dx, start, stop, hi, lo, b), q) ==
            (if q.x == c.x + dx && c.z + start <= q.z < c.z + stop && lo <= q.y <= hi then Some(b) else None)
    decreases stop - start
  {
    if start < stop {
      var x, z := Wrap(c.x + dx), Wrap(c.z + (stop - 1));
      assert x == c.x + dx && z == c.z + stop - 1;
      var front, column := BoxRow(c, dx, start, stop - 1, hi, lo, b), DownColumn(x, z, hi, lo, b);
      var inX := q.x == c.x + dx && lo <= q.y <= hi;
      assert LastWrite(front, q) == if c.z + start <= q.z < c.z + stop - 1 && inX then Some(b) else None by {
        if start < stop - 1 {
          BoxRowCells(c, dx, start, stop - 1, hi, lo, b, q);
        } else {
          assert front == [];
        }
      }
      assert LastWrite(column, q) == if q.z == c.z + stop - 1 && inX then Some(b) else None by {
        DownColumnCells(x, z, hi, lo, b, q);
      }
      assert LastWrite(BoxRow(c, dx, start, stop, hi, lo, b), q) ==
             if LastWrite(column, q).Some? then LastWrite(column, q) else LastWrite(front, q) by {
        assert BoxRow(c, dx, start, stop, hi, lo, b) == front + column;
        LastWriteAppend(front, column, q);
      }
    }
  }

  /** Rows whose columns need no wrap-around write their block exactly at their cells. */
  lemma {:induction false} BoxRowsCells(c: BlockPos, half: nat, start: int, stop: int, hi: Int32, lo: Int32, b: BlockType, q: BlockPos)
    requires InIntRange(c.z - half) && InIntRange(c.z + half)
    requires start < stop ==> InIntRange(c.x + start) && InIntRange(c.x + stop - 1)
    ensures LastWrite(BoxRows(c, half, start, stop, hi, lo, b), q) ==
            (if c.x + start <= q.x < c.x + stop && c.z - half <= q.z < c.z + half && lo <= q.y <= hi then Some(b) else None)
    decreases stop - start
  {
    if start < stop {
      var front, row := BoxRows(c, half, start, stop - 1, hi, lo, b), BoxRow(c, stop - 1, -(half as int), half, hi, lo, b);
      var inZ := c.z - half <= q.z < c.z + half && lo <= q.y <= hi;
      assert LastWrite(front, q) == if c.x + start <= q.x < c.x + stop - 1 && inZ then Some(b) else None by {
        if start < stop - 1 {
          BoxRowsCells(c, half, start, stop - 1, hi, lo, b, q);
        } else {
          assert front == [];
        }
      }
      assert LastWrite(row, q) == if q.x == c.x + stop - 1 && inZ then Some(b) else None by {
        BoxRowCells(c, stop - 1, -(half as int), half, hi, lo, b, q);
      }
      assert LastWrite(BoxRows(c, half, start, stop, hi, lo, b), q) ==
             if LastWrite(row, q).Some? then LastWrite(row, q) else LastWrite(front, q) by {
        assert BoxRows(c, half, start, stop, hi, lo, b) == front + row;
        LastWriteAppend(front, row, q);
      }
    }
  }

  /**
   * A box whose footprint does not wrap around writes exactly the cells of
   * its footprint between its bottom and top, every one with its block.
   */
  lemma BoxCells(c: BlockPos, half: nat, hi: Int32, lo: Int32, b: BlockType, q: BlockPos)
    requires InIntRange(c.x - half) && InIntRange(c.x + half) && InIntRange(c.z - half) && InIntRange(c.z + half)
    ensures LastWrite(Box(c, half, hi, lo, b), q) == if BoxCovers(c, half, hi, lo, q) then Some(b) else None
  {
    BoxRowsCells(c, half, -(half as int), half, hi, lo, b, q);
  }

  /** The last write of a non-empty row is at its bottom. */
  lemma BoxRowLast(c: BlockPos, dx: int, start: int, stop: int, hi: Int32, lo: Int32, b: BlockType)
    requires start < stop && lo <= hi
    ensures var ws := BoxRow(c, dx, start, stop, hi, lo, b); |ws| > 0 && ws[|ws| - 1].pos.y == lo
  {
    var col := DownColumn(Wrap(c.x + dx), Wrap(c.z + (stop - 1)), hi, lo, b);
    assert BoxRow(c, dx, start, stop, hi, lo, b)[|BoxRow(c, dx, start, stop, hi, lo, b)| - 1] == col[|col| - 1];
  }

  /** The last write of a non-empty box is at its bottom. */
  lemma BoxLast(c: BlockPos, half: nat, hi: Int32, lo: Int32, b: BlockType)
    requires half > 0 && lo <= hi
    ensures var ws := Box(c, half, hi, lo, b); |ws| > 0 && ws[|ws| - 1].pos.y == lo
  {
    var row := BoxRow(c, half - 1, -(half as int), half, hi, lo, b);
    BoxRowLast(c, half - 1, -(half as int), half, hi, lo, b);
    assert Box(c, half, hi, lo, b)[|Box(c, half, hi, lo, b)| - 1] == row[|row| - 1];
  }

  /** `buildWaterPools`: a 10 by 10 box of WATER five high, down from each centroid's height. */
  function PoolWrites(centroids: seq<BlockPos>): seq<Write> {
    if |centroids| == 0 then []
    else
      var c := centroids[|centroids| - 1];
      PoolWrites(centroids[..|centroids| - 1]) + Box(c, 5, c.y, Wrap(Wrap(c.y - 5) + 1), WATER)
  }

  /** `buildIslands`: a 50 by 50 box of SOIL_WITH_GRASS from height 0 down to -4 at each centroid. */
  function IslandWrites(centroids: seq<BlockPos>): seq<Write> {
    if |centroids| == 0 then []
    else IslandWrites(centroids[..|centroids| - 1]) + Box(centroids[|centroids| - 1], 25, 0, -4, SOIL_WITH_GRASS)
  }

  /**
   * The pools leave WATER in the 10 by 10 footprint from offset -5 to 4 of
   * every centroid, from its height down to four below, and write no other
   * cell.
   */
  lemma {:induction false} PoolCells(centroids: seq<BlockPos>, q: BlockPos)
    requires forall i :: 0 <= i < |centroids| ==> NoWrap(centroids[i], 5)
    ensures LastWrite(PoolWrites(centroids), q) ==
            if exists i :: 0 <= i < |centroids| && PoolCovers(centroids[i], q) then Some(WATER) else None
  {
    if |centroids| > 0 {
      var front, c := centroids[..|centroids| - 1], centroids[|centroids| - 1];
      var lo := Wrap(Wrap(c.y - 5) + 1);
      assert lo == c.y - 4;
      var box := Box(c, 5, c.y, lo, WATER);
      assert PoolWrites(centroids) == PoolWrites(front) + box;
      PoolCells(front, q);
      LastWriteAppend(PoolWrites(front), box, q);
      BoxCells(c, 5, c.y, lo, WATER, q);
      PoolCoversStep(centroids, front, q);
    }
  }

  /** Some pool of the centroids covers q exactly when the last one or one before it does. */
  lemma PoolCoversStep(centroids: seq<BlockPos>, front: seq<BlockPos>, q: BlockPos)
    requires |centroids| > 0 && front == centroids[..|centroids| - 1]
    ensures (exists i :: 0 <= i < |centroids| && PoolCovers(centroids[i], q)) <==>
            (exists i :: 0 <= i < |front| && PoolCovers(front[i], q)) || PoolCovers(centroids[|centroids| - 1], q)
  {
    if exists i :: 0 <= i < |centroids| && PoolCovers(centroids[i], q) {
      var i :| 0 <= i < |centroids| && PoolCovers(centroids[i], q);
      if i < |front| {
        assert front[i] == centroids[i];
      }
    }
    if exists i :: 0 <= i < |front| && PoolCovers(front[i], q) {
      var i :| 0 <= i < |front| && PoolCovers(front[i], q);
      assert front[i] == centroids[i];
    }
  }

  /** Whether the pool of centroid c covers q. */
  predicate PoolCovers(c: BlockPos, q: BlockPos) {
    BoxCovers(c, 5, c.y, c.y - 4, q)
  }

  /** A centre whose box of half-width `half` and height 5 needs no wrap-around. */
  predicate NoWrap(c: BlockPos, half: int) {
    InIntRange(c.x - half) && InIntRange(c.x + half) && InIntRange(c.z - half) && InIntRange(c.z + half) &&
    InIntRange(c.y - 5)
  }

  /**
   * Islands leave SOIL_WITH_GRASS in the 50 by 50 footprint from offset
   * -25 to 24 of every centroid, from height 0 down to -4, and write no
   * other cell.
   */
  lemma {:induction false} IslandCells(centroids: seq<BlockPos>, q: BlockPos)
    requires forall i :: 0 <= i < |centroids| ==> NoWrap(centroids[i], 25)
    ensures LastWrite(IslandWrites(centroids), q) ==
            if exists i :: 0 <= i < |centroids| && IslandCovers(centroids[i], q) then Some(SOIL_WITH_GRASS) else None
  {
    if |centroids| > 0 {
      var front, c := centroids[..|centroids| - 1], centroids[|centroids| - 1];
      var box := Box(c, 25, 0, -4, SOIL_WITH_GRASS);
      assert IslandWrites(centroids) == IslandWrites(front) + box;
      IslandCells(front, q);
      LastWriteAppend(IslandWrites(front), box, q);
      BoxCells(c, 25, 0, -4, SOIL_WITH_GRASS, q);
      IslandCoversStep(centroids, front, q);
    }
  }

  /** Some island of the centroids covers q exactly when the last one or one before it does. */
  lemma IslandCoversStep(centroids: seq<BlockPos>, front: seq<BlockPos>, q: BlockPos)
    requires |centroids| > 0 && front == centroids[..|centroids| - 1]
    ensures (exists i :: 0 <= i < |centroids| && IslandCovers(centroids[i], q)) <==>
            (exists i :: 0 <= i < |front| && IslandCovers(front[i], q)) || IslandCovers(centroids[|centroids| - 1], q)
  {
    if exists i :: 0 <= i < |centroids| && IslandCovers(centroids[i], q) {
      var i :| 0 <= i < |centroids| && IslandCovers(centroids[i], q);
      if i < |front| {
        assert front[i] == centroids[i];
      }
    }
    if exists i :: 0 <= i < |front| && IslandCovers(front[i], q) {
      var i :| 0 <= i < |front| && IslandCovers(front[i], q);
      assert front[i] == centroids[i];
    }
  }

  /** Whether the island of centroid c covers q. */
  predicate IslandCovers(c: BlockPos, q: BlockPos) {
    BoxCovers(c, 25, 0, -4, q)
  }

  /**
   * Islands are built below the ground: any centroid gives a write at a
   * negative height, which no chunk can hold.
   */
  lemma IslandsBelowGround(centroids: seq<BlockPos>)
    requires |centroids| > 0
    ensures !InHeight(IslandWrites(centroids))
  {
    var front, c := centroids[..|centroids| - 1], centroids[|centroids| - 1];
    var box := Box(c, 25, 0, -4, SOIL_WITH_GRASS);
    BoxLast(c, 25, 0, -4, SOIL_WITH_GRASS);
    assert IslandWrites(centroids)[|IslandWrites(centroids)| - 1] == box[|box| - 1];
  }

  /** The writes of `build`, in its order: terrain, obj3d STONE, marker poles, water pools, islands. */
  function BuildWrites(heightMap: seq<BlockPos>, stoneObj3d: seq<BlockPos>, markerPoles: seq<BlockPos>,
                       waterPools: seq<BlockPos>, islands: seq<BlockPos>): seq<Write> {
    Pillars(heightMap, 0, SOIL) + Obj3dWrites(stoneObj3d, STONE) + Pillars(markerPoles, 0, STONE) +
    PoolWrites(waterPools) + IslandWrites(islands)
  }

  /** b where it is some block, otherwise a: a later step's block overrides an earlier step's. */
  function Over(a: Option<BlockType>, b: Option<BlockType>): Option<BlockType> {
    if b.Some? then b else a
  }

  /** What `build` leaves in a cell: the block of the last build step that writes it. */
  lemma BuildCells(heightMap: seq<BlockPos>, stoneObj3d: seq<BlockPos>, markerPoles: seq<BlockPos>,
                   waterPools: seq<BlockPos>, islands: seq<BlockPos>, q: BlockPos)
    ensures LastWrite(BuildWrites(heightMap, stoneObj3d, markerPoles, waterPools, islands), q) ==
            Over(Over(Over(Over(LastWrite(Pillars(heightMap, 0, SOIL), q),
                                LastWrite(Obj3dWrites(stoneObj3d, STONE), q)),
                           LastWrite(Pillars(markerPoles, 0, STONE), q)),
                      LastWrite(PoolWrites(waterPools), q)),
                 LastWrite(IslandWrites(islands), q))
  {
    var a, b, c, d, e := Pillars(heightMap, 0, SOIL), Obj3dWrites(stoneObj3d, STONE), Pillars(markerPoles, 0, STONE),
                         PoolWrites(waterPools), IslandWrites(islands);
    LastWriteAppend(a, b, q);
    LastWriteAppend(a + b, c, q);
    LastWriteAppend(a + b + c, d, q);
    LastWriteAppend(a + b + c + d, e, q);
  }

  /**
   * `build`: issue the writes of every step in order on the model, then
   * flush it. The writes run as `WriteAll` describes; when all of them
   * succeed, the model is flushed and its directory alone holds what the
   * model holds.
   */
  method Build(model: DiskBoundModel, heightMap: seq<BlockPos>, stoneObj3d: seq<BlockPos>,
               markerPoles: seq<BlockPos>, waterPools: seq<BlockPos>, islands: seq<BlockPos>)
    returns (r: Outcome, ghost done: int)
    requires model.Valid() && InHeight(BuildWrites(heightMap, stoneObj3d, markerPoles, waterPools, islands))
    modifies model`files, model`Resident, model`Regions, model`Arrays, model.clock, model.cache`lines, model.cache`order,
      model.Regions`isChangedAfterCreateLoadOrSave, model.Regions`lastAccessTime, model.Regions`Data, model.Arrays
    ensures model.Valid()
    ensures var ws := BuildWrites(heightMap, stoneObj3d, markerPoles, waterPools, islands);
      0 <= done <= |ws| && (r.Pass? <==> done == |ws|) &&
      old(ReachableUpTo(model.Resident, model.files, ws, done)) &&
      (r.Fail? ==> old(Stored(model.Resident, model.files, RegionIndexOf(ws[done].pos))) == Err(r.error)) &&
      Painted(model.Resident, model.files, old(model.Resident), old(model.files), ws[..done])
    ensures r.Pass? ==> forall k :: LoadResult(model.files, k) == Stored(model.Resident, model.files, k)
  {
    var ws := BuildWrites(heightMap, stoneObj3d, markerPoles, waterPools, islands);
    r, done := WriteAll(model, ws);
    if r.Pass? {
      ghost var before := model.files;
      model.Flush();
      Flushed(model.Resident, model.files, before);
      PaintSame(model.Resident, model.files, model.Resident, before, old(model.Resident), old(model.files), ws[..done]);
    }
  }

  /** A directory that loads every region as the model holds it leaves the model holding the same thing. */
  lemma Flushed(resident: map<RegionIndex, RegionData>, files': Directory, files: Directory)
    requires Cached(resident)
    requires forall k :: LoadResult(files', k) == Stored(resident, files, k)
    ensures SameWorld(resident, files', resident, files)
    ensures forall k :: LoadResult(files', k) == Stored(resident, files', k)
  {
  }
}
