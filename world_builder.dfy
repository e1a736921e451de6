/**
 * The private builders of the world builder, on the disk-bound model:
 * terrain columns, water bodies and roads laid on the top block of each
 * column, buildings raised on it and 3D objects placed as they are; with
 * the clipping of terrain heights and the spawn height check.
 *
 * A builder that looks at the model before writing (water, roads,
 * buildings) is specified by `Probe`, what it finds on top of a column in
 * the state before it started: its writes never move what a later probe
 * finds.
 */
module WorldBuilders {
  import opened KotlinInt
  import opened Outcomes
  import opened BlockPositions
  import opened BlockTypes
  import opened Regions
  import opened RegionFiles
  import opened CacheLines
  import opened DiskBoundModels
  import opened ModelWrites
  import opened ModelBuilder

  // ---------------------------------------------------------------------
  // Height clipping
  // ---------------------------------------------------------------------

  /** `clip(lowIncl, highExcl)`: below the range its low end, at or above it the last value inside it. */
  function Clip(v: Int32, lowIncl: Int32, highExcl: Int32): (r: Int32)
    ensures lowIncl < highExcl ==> lowIncl <= r < highExcl
    ensures lowIncl <= v < highExcl ==> r == v
  {
    if v < lowIncl then lowIncl else if v >= highExcl then Wrap(highExcl - 1) else v
  }

  function Dist(a: int, b: int): nat {
    if a <= b then b - a else a - b
  }

  /** Clipping picks the value of the range nearest to v. */
  lemma ClipNearest(v: Int32, lowIncl: Int32, highExcl: Int32, w: int)
    requires lowIncl <= w < highExcl
    ensures Dist(Clip(v, lowIncl, highExcl), v) <= Dist(w, v)
  {
  }

  /** The clipping table of the number utilities' tests: value, low, high, result. */
  lemma ClipTable()
    ensures Clip(0, -1, 1) == 0 && Clip(3, 1, 7) == 3 && Clip(-7, -9, -6) == -7
    ensures Clip(0, 0, 1) == 0 && Clip(7, 7, 9) == 7 && Clip(4, 3, 5) == 4 && Clip(-1, -1, 0) == -1 && Clip(-5, -6, -4) == -5
    ensures Clip(0, 1, 2) == 1 && Clip(4, 235, 500) == 235 && Clip(-99, -3, 0) == -3
    ensures Clip(0, -5, 0) == -1 && Clip(7, -4, 4) == 3 && Clip(-9, -15, -14) == -15
  {
  }

  /** A terrain point with its height clipped into the bounds' heights; x and z are kept. */
  function ClipTerrain(p: BlockPos, minY: Int32, maxY: Int32): (r: BlockPos)
    ensures r.x == p.x && r.z == p.z
    ensures minY < maxY ==> minY <= r.y < maxY
    ensures minY <= p.y < maxY ==> r == p
  {
    BlockPos(p.x, Clip(p.y, minY, maxY), p.z)
  }

  // ---------------------------------------------------------------------
  // Terrain and 3D objects: writes that do not look at the model
  // ---------------------------------------------------------------------

  /** The writes of `buildTerrain`: a pillar of SOIL on base max(minY, 0) under each top. */
  function TerrainWrites(tops: seq<BlockPos>, minY: Int32): seq<Write> {
    Pillars(tops, Max(minY, 0), SOIL)
  }

  /**
   * `buildTerrain`: the terrain writes, issued in order, up to the first
   * whose region cannot be loaded.
   */
  method BuildTerrain(model: DiskBoundModel, tops: seq<BlockPos>, minY: Int32) returns (r: Outcome, ghost done: int)
    requires model.Valid() && InHeight(TerrainWrites(tops, minY))
    modifies model`files, model`Resident, model`Regions, model`Arrays, model.clock, model.cache`lines, model.cache`order,
      model.Regions`isChangedAfterCreateLoadOrSave, model.Regions`lastAccessTime, model.Regions`Data, model.Arrays
    ensures model.Valid() && fresh(model.Regions - old(model.Regions)) && fresh(model.Arrays - old(model.Arrays))
    ensures var ws := TerrainWrites(tops, minY);
      0 <= done <= |ws| && (r.Pass? <==> done == |ws|) &&
      old(ReachableUpTo(model.Resident, model.files, ws, done)) &&
      (r.Fail? ==> old(Stored(model.Resident, model.files, RegionIndexOf(ws[done].pos))) == Err(r.error)) &&
      Painted(model.Resident, model.files, old(model.Resident), old(model.files), ws[..done])
  {
    r, done := WriteAll(model, TerrainWrites(tops, minY));
  }

  /**
   * After the terrain: the base max(minY, 0) of every column with a top
   * holds UNBREAKABLE_STONE, the column above it up to its highest top
   * SOIL, and every other cell what it held.
   */
  lemma TerrainPainted(resident': map<RegionIndex, RegionData>, files': Directory,
                       resident: map<RegionIndex, RegionData>, files: Directory, tops: seq<BlockPos>, minY: Int32)
    requires Cached(resident') && Cached(resident) && minY < INT_MAX
    requires Painted(resident', files', resident, files, TerrainWrites(tops, minY))
    ensures forall q: BlockPos :: 0 <= q.y < 256 ==>
      WorldCell(resident', files', q) ==
        (if !exists i :: 0 <= i < |tops| && PillarCovers(tops[i], Max(minY, 0), q) then WorldCell(resident, files, q)
         else if q.y == Max(minY, 0) then Ok(UNBREAKABLE_STONE.Value()) else Ok(SOIL.Value()))
  {
    forall q: BlockPos | 0 <= q.y < 256
      ensures WorldCell(resident', files', q) ==
        (if !exists i :: 0 <= i < |tops| && PillarCovers(tops[i], Max(minY, 0), q) then WorldCell(resident, files, q)
         else if q.y == Max(minY, 0) then Ok(UNBREAKABLE_STONE.Value()) else Ok(SOIL.Value()))
    {
      PillarsCells(tops, Max(minY, 0), SOIL, q);
    }
  }

  /** `buildObj3d`: one write of `t` per position, in order, up to the first whose region cannot be loaded. */
  method BuildObj3d(model: DiskBoundModel, blocks: seq<BlockPos>, t: BlockType) returns (r: Outcome, ghost done: int)
    requires model.Valid() && InHeight(Obj3dWrites(blocks, t))
    modifies model`files, model`Resident, model`Regions, model`Arrays, model.clock, model.cache`lines, model.cache`order,
      model.Regions`isChangedAfterCreateLoadOrSave, model.Regions`lastAccessTime, model.Regions`Data, model.Arrays
    ensures model.Valid() && fresh(model.Regions - old(model.Regions)) && fresh(model.Arrays - old(model.Arrays))
    ensures var ws := Obj3dWrites(blocks, t);
      0 <= done <= |ws| && (r.Pass? <==> done == |ws|) &&
      old(ReachableUpTo(model.Resident, model.files, ws, done)) &&
      (r.Fail? ==> old(Stored(model.Resident, model.files, RegionIndexOf(ws[done].pos))) == Err(r.error)) &&
      Painted(model.Resident, model.files, old(model.Resident), old(model.files), ws[..done])
  {
    r, done := WriteAll(model, Obj3dWrites(blocks, t));
  }

  /** After a 3D object: its positions hold its block type and every other cell what it held. */
  lemma Obj3dPainted(resident': map<RegionIndex, RegionData>, files': Directory,
                     resident: map<RegionIndex, RegionData>, files: Directory, blocks: seq<BlockPos>, t: BlockType)
    requires Cached(resident') && Cached(resident)
    requires Painted(resident', files', resident, files, Obj3dWrites(blocks, t))
    ensures forall q: BlockPos :: 0 <= q.y < 256 ==>
      WorldCell(resident', files', q) == if q in blocks then Ok(t.Value()) else WorldCell(resident, files, q)
  {
    forall q: BlockPos | 0 <= q.y < 256
      ensures WorldCell(resident', files', q) == if q in blocks then Ok(t.Value()) else WorldCell(resident, files, q)
    {
      Obj3dCells(blocks, t, q);
    }
  }

  // ---------------------------------------------------------------------
  // Probing the top of a column
  // ---------------------------------------------------------------------

  /** `getHighestBlockY` on the model in state (resident, files): the column's highest block, or its region's error. */
  ghost function ColumnTop(resident: map<RegionIndex, RegionData>, files: Directory, hb: HorBlockPos): Result<Option<Int32>>
    requires Cached(resident)
  {
    match Stored(resident, files, ColumnRegionIndex(hb))
    case Ok(d) => Ok(HighestNonEmpty(d, hb, 255))
    case Err(e) => Err(e)
  }

  /**
   * What a builder finds on top of column hb: the position of its highest
   * block, none when the column has no blocks, or the error that
   * `getHighestBlockY` or the `getBlock` of that position raises.
   */
  ghost function Probe(resident: map<RegionIndex, RegionData>, files: Directory, hb: HorBlockPos): Result<Option<BlockPos>>
    requires Cached(resident)
  {
    match ColumnTop(resident, files, hb)
    case Err(e) => Err(e)
    case Ok(top) =>
      if top.None? then Ok(None)
      else
        match BlockAt(resident, files, BlockPos(hb.x, top.value, hb.z))
        case Err(e) => Err(e)
        case Ok(_) => Ok(Some(BlockPos(hb.x, top.value, hb.z)))
  }

  /**
   * The first two steps of every top-replacing builder: the highest block
   * of the column and the block there. The model holds the same thing
   * afterwards.
   */
  method ProbeColumn(model: DiskBoundModel, hb: HorBlockPos) returns (r: Result<Option<BlockPos>>)
    requires model.Valid()
    modifies model`files, model`Resident, model`Regions, model`Arrays, model.clock, model.cache`lines, model.cache`order,
      model.Regions`isChangedAfterCreateLoadOrSave, model.Regions`lastAccessTime
    ensures model.Valid() && fresh(model.Regions - old(model.Regions)) && fresh(model.Arrays - old(model.Arrays))
    ensures SameWorld(model.Resident, model.files, old(model.Resident), old(model.files))
    ensures r == old(Probe(model.Resident, model.files, hb))
  {
    var top := model.GetHighestBlockY(hb);
    if top.Err? {
      return Err(top.error);
    }
    if top.value.None? {
      return Ok(None);
    }
    var pos := BlockPos(hb.x, top.value.value, hb.z);
    label between:
    var prev := model.GetBlock(pos);
    assert forall g :: g in model.Regions && g !in old@between(model.Regions) ==> !old@between(allocated(g));
    assert forall g :: g in model.Arrays && g !in old@between(model.Arrays) ==> !old@between(allocated(g));
    if prev.Err? {
      return Err(prev.error);
    }
    r := Ok(Some(pos));
  }

  /** The position a probe found, as a list of at most one. */
  function Found(p: Result<Option<BlockPos>>): seq<BlockPos> {
    if p.Ok? && p.value.Some? then [p.value.value] else []
  }

  /** The positions a list of probes found, in order. */
  function Founds(ps: seq<Result<Option<BlockPos>>>): seq<BlockPos> {
    if |ps| == 0 then [] else Founds(ps[..|ps| - 1]) + Found(ps[|ps| - 1])
  }

  /** A position is among those found exactly when one of the probes found it. */
  lemma {:induction false} FoundsMembership(ps: seq<Result<Option<BlockPos>>>, q: BlockPos)
    ensures q in Founds(ps) <==> exists j :: 0 <= j < |ps| && ps[j] == Ok(Some(q))
  {
    if |ps| > 0 {
      var front := ps[..|ps| - 1];
      FoundsMembership(front, q);
      if exists j :: 0 <= j < |ps| && ps[j] == Ok(Some(q)) {
        var j :| 0 <= j < |ps| && ps[j] == Ok(Some(q));
        if j < |front| {
          assert front[j] == ps[j];
        }
      }
      if exists j :: 0 <= j < |front| && front[j] == Ok(Some(q)) {
        var j :| 0 <= j < |front| && front[j] == Ok(Some(q));
        assert front[j] == ps[j];
      }
    }
  }

  /** The positions found by one more probe. */
  lemma FoundsStep(ps: seq<Result<Option<BlockPos>>>, i: int)
    requires 0 <= i < |ps|
    ensures Founds(ps[..i + 1]) == Founds(ps[..i]) + Found(ps[i])
  {
    assert ps[..i + 1][..i] == ps[..i];
  }

  /** The probes of the columns in state (resident, files). */
  ghost function Probes(resident: map<RegionIndex, RegionData>, files: Directory, hbs: seq<HorBlockPos>): (ps: seq<Result<Option<BlockPos>>>)
    requires Cached(resident)
    ensures |ps| == |hbs|
  {
    if |hbs| == 0 then [] else Probes(resident, files, hbs[..|hbs| - 1]) + [Probe(resident, files, hbs[|hbs| - 1])]
  }

  /** The j-th probe of a list is the probe of the j-th column. */
  lemma {:induction false} ProbesAt(resident: map<RegionIndex, RegionData>, files: Directory, hbs: seq<HorBlockPos>, j: int)
    requires Cached(resident) && 0 <= j < |hbs|
    ensures Probes(resident, files, hbs)[j] == Probe(resident, files, hbs[j])
  {
    if j < |hbs| - 1 {
      var front := hbs[..|hbs| - 1];
      ProbesAt(resident, files, front, j);
      assert front[j] == hbs[j];
    }
  }

  /**
   * What a probe that found a position says: the position is in the
   * probed column at a chunk height, it is the column's highest block, its
   * region could be loaded and its byte names a block type.
   */
  lemma ProbeFound(resident: map<RegionIndex, RegionData>, files: Directory, hb: HorBlockPos)
    requires Cached(resident)
    ensures var p := Probe(resident, files, hb);
      p.Ok? && p.value.Some? ==>
        var t := p.value.value;
        t.x == hb.x && t.z == hb.z && 0 <= t.y < 256 &&
        Stored(resident, files, RegionIndexOf(t)).Ok? &&
        HighestNonEmpty(Stored(resident, files, ColumnRegionIndex(hb)).value, hb, 255) == Some(t.y) &&
        BlockAt(resident, files, t).Ok?
  {
  }

  /** Every position of ts is what the probe of its own column finds. */
  ghost predicate TopsOf(resident: map<RegionIndex, RegionData>, files: Directory, ts: seq<BlockPos>)
    requires Cached(resident)
  {
    forall t :: t in ts ==> Probe(resident, files, HorBlockPos(t.x, t.z)) == Ok(Some(t))
  }

  /** The positions the probes of any columns found are what their columns' probes find. */
  lemma TopsAreTops(resident: map<RegionIndex, RegionData>, files: Directory, hbs: seq<HorBlockPos>, i: int)
    requires Cached(resident) && 0 <= i <= |hbs|
    ensures TopsOf(resident, files, Founds(Probes(resident, files, hbs)[..i]))
  {
    var ps := Probes(resident, files, hbs)[..i];
    forall t | t in Founds(ps)
      ensures Probe(resident, files, HorBlockPos(t.x, t.z)) == Ok(Some(t))
    {
      FoundsMembership(ps, t);
      var j :| 0 <= j < |ps| && ps[j] == Ok(Some(t));
      ProbesAt(resident, files, hbs, j);
      ProbeFound(resident, files, hbs[j]);
      assert HorBlockPos(t.x, t.z) == hbs[j];
    }
  }

  /** Columns that are blocks and not NONE at the same heights have the same highest block. */
  lemma {:induction false} HighestSamePattern(d: RegionData, d': RegionData, pos: HorBlockPos, top: int)
    requires WellFormed(d) && WellFormed(d') && top <= 255
    requires forall y :: 0 <= y <= top ==>
      (RegionCell(d, BlockPos(pos.x, y, pos.z)) == NONE.Value() <==> RegionCell(d', BlockPos(pos.x, y, pos.z)) == NONE.Value())
    ensures HighestNonEmpty(d, pos, top) == HighestNonEmpty(d', pos, top)
    decreases top + 1
  {
    if top >= 0 && RegionCell(d, BlockPos(pos.x, top, pos.z)) == NONE.Value() {
      HighestSamePattern(d, d', pos, top - 1);
    }
  }

  /**
   * Laying a block other than NONE on tops the probes found changes what
   * no probe finds: the highest block of every column stays where it was.
   */
  lemma ProbeKept(resident': map<RegionIndex, RegionData>, files': Directory,
                  resident: map<RegionIndex, RegionData>, files: Directory, ts: seq<BlockPos>, b: BlockType, hb: HorBlockPos)
    requires Cached(resident') && Cached(resident) && b.Value() != NONE.Value()
    requires Painted(resident', files', resident, files, Obj3dWrites(ts, b)) && TopsOf(resident, files, ts)
    ensures Probe(resident', files', hb) == Probe(resident, files, hb)
  {
    var key := ColumnRegionIndex(hb);
    if Stored(resident, files, key).Ok? {
      PaintedColumn(resident', files', resident, files, ts, b, hb);
      TopsNotNone(resident, files, ts, hb);
      var d, d' := Stored(resident, files, key).value, Stored(resident', files', key).value;
      HighestSamePattern(d, d', hb, 255);
      var top := HighestNonEmpty(d, hb, 255);
      assert ColumnTop(resident', files', hb) == ColumnTop(resident, files, hb) == Ok(top);
      if top.Some? {
        var p := BlockPos(hb.x, top.value, hb.z);
        assert RegionIndexOf(p) == key;
        if p in ts {
          GetValue(b);
          assert HorBlockPos(p.x, p.z) == hb;
          assert BlockAt(resident', files', p).Ok? && BlockAt(resident, files, p).Ok?;
        } else {
          assert BlockAt(resident', files', p) == BlockAt(resident, files, p);
        }
      }
    } else {
      assert ColumnTop(resident', files', hb) == ColumnTop(resident, files, hb);
    }
  }

  /** The column of hb after b is laid on the tops ts: b on each top in it, the rest as it was. */
  lemma PaintedColumn(resident': map<RegionIndex, RegionData>, files': Directory,
                      resident: map<RegionIndex, RegionData>, files: Directory, ts: seq<BlockPos>, b: BlockType, hb: HorBlockPos)
    requires Cached(resident') && Cached(resident)
    requires Painted(resident', files', resident, files, Obj3dWrites(ts, b))
    requires Stored(resident, files, ColumnRegionIndex(hb)).Ok?
    ensures Stored(resident', files', ColumnRegionIndex(hb)).Ok?
    ensures forall y :: 0 <= y <= 255 ==>
      RegionCell(Stored(resident', files', ColumnRegionIndex(hb)).value, BlockPos(hb.x, y, hb.z)) ==
        if BlockPos(hb.x, y, hb.z) in ts then b.Value()
        else RegionCell(Stored(resident, files, ColumnRegionIndex(hb)).value, BlockPos(hb.x, y, hb.z))
  {
    forall y | 0 <= y <= 255
      ensures RegionCell(Stored(resident', files', ColumnRegionIndex(hb)).value, BlockPos(hb.x, y, hb.z)) ==
        if BlockPos(hb.x, y, hb.z) in ts then b.Value()
        else RegionCell(Stored(resident, files, ColumnRegionIndex(hb)).value, BlockPos(hb.x, y, hb.z))
    {
      var q := BlockPos(hb.x, y, hb.z);
      assert RegionIndexOf(q) == ColumnRegionIndex(hb);
      Obj3dCells(ts, b, q);
    }
  }

  /** A top in the column of hb holds a block that is not NONE. */
  lemma TopsNotNone(resident: map<RegionIndex, RegionData>, files: Directory, ts: seq<BlockPos>, hb: HorBlockPos)
    requires Cached(resident) && TopsOf(resident, files, ts) && Stored(resident, files, ColumnRegionIndex(hb)).Ok?
    ensures forall y :: 0 <= y <= 255 && BlockPos(hb.x, y, hb.z) in ts ==>
      RegionCell(Stored(resident, files, ColumnRegionIndex(hb)).value, BlockPos(hb.x, y, hb.z)) != NONE.Value()
  {
    var d := Stored(resident, files, ColumnRegionIndex(hb)).value;
    HighestNonEmptyMeaning(d, hb, 255);
    forall y | 0 <= y <= 255 && BlockPos(hb.x, y, hb.z) in ts
      ensures RegionCell(d, BlockPos(hb.x, y, hb.z)) != NONE.Value()
    {
      assert HorBlockPos(hb.x, hb.z) == hb;
      ProbeFound(resident, files, hb);
    }
  }


  // ---------------------------------------------------------------------
  // Water bodies and roads: the top block replaced
  // ---------------------------------------------------------------------

  /**
   * One column of `buildWaterBodies` or `buildRoads` on a model that has
   * had block b laid on the tops ts since state (resident0, files0): the
   * column is probed and, when it has a top, b replaces it. It fails
   * exactly when the probe fails in the first state, with its error.
   */
  method ReplaceTop(model: DiskBoundModel, hb: HorBlockPos, b: BlockType, ghost ts: seq<BlockPos>,
                    ghost resident0: map<RegionIndex, RegionData>, ghost files0: Directory,
                    ghost p0: Result<Option<BlockPos>>) returns (r: Outcome)
    requires model.Valid() && b.Value() != NONE.Value() && Cached(resident0) && p0 == Probe(resident0, files0, hb)
    requires Painted(model.Resident, model.files, resident0, files0, Obj3dWrites(ts, b)) && TopsOf(resident0, files0, ts)
    modifies model`files, model`Resident, model`Regions, model`Arrays, model.clock, model.cache`lines, model.cache`order,
      model.Regions`isChangedAfterCreateLoadOrSave, model.Regions`lastAccessTime, model.Regions`Data, model.Arrays
    ensures model.Valid() && fresh(model.Regions - old(model.Regions)) && fresh(model.Arrays - old(model.Arrays))
    ensures r.Pass? <==> p0.Ok?
    ensures r.Fail? ==> p0 == Err(r.error)
    ensures Painted(model.Resident, model.files, resident0, files0, Obj3dWrites(if r.Pass? then ts + Found(p0) else ts, b))
  {
    ProbeKept(model.Resident, model.files, resident0, files0, ts, b, hb);
    ProbeFound(model.Resident, model.files, hb);
    label start:
    var p := ProbeColumn(model, hb);
    assert forall g :: g in model.Regions && g !in old@start(model.Regions) ==> !old@start(allocated(g));
    assert forall g :: g in model.Arrays && g !in old@start(model.Arrays) ==> !old@start(allocated(g));
    PaintSame(model.Resident, model.files, old(model.Resident), old(model.files), resident0, files0, Obj3dWrites(ts, b));
    assert p == p0;
    if p.Err? {
      return Fail(p.error);
    }
    if p.value.None? {
      NoMoreTops(ts);
      return Pass;
    }
    label found:
    LayOn(model, p.value.value, b, ts, resident0, files0);
    assert forall g :: g in model.Regions && g !in old@found(model.Regions) ==> !old@found(allocated(g));
    assert forall g :: g in model.Arrays && g !in old@found(model.Arrays) ==> !old@found(allocated(g));
    r := Pass;
  }

  /**
   * The `setBlock` of one top t, on a model painted with b on the tops
   * ts: the region of t could be loaded, so b is laid there.
   */
  method LayOn(model: DiskBoundModel, t: BlockPos, b: BlockType, ghost ts: seq<BlockPos>,
               ghost resident0: map<RegionIndex, RegionData>, ghost files0: Directory)
    requires model.Valid() && Cached(resident0) && 0 <= t.y < 256
    requires Stored(model.Resident, model.files, RegionIndexOf(t)).Ok?
    requires Painted(model.Resident, model.files, resident0, files0, Obj3dWrites(ts, b))
    modifies model`files, model`Resident, model`Regions, model`Arrays, model.clock, model.cache`lines, model.cache`order,
      model.Regions`isChangedAfterCreateLoadOrSave, model.Regions`lastAccessTime, model.Regions`Data, model.Arrays
    ensures model.Valid() && fresh(model.Regions - old(model.Regions)) && fresh(model.Arrays - old(model.Arrays))
    ensures Painted(model.Resident, model.files, resident0, files0, Obj3dWrites(ts + [t], b))
  {
    ghost var resident1, files1 := model.Resident, model.files;
    label before:
    var _, o := model.SetBlock(t, b);
    assert forall g :: g in model.Regions && g !in old@before(model.Regions) ==> !old@before(allocated(g));
    assert forall g :: g in model.Arrays && g !in old@before(model.Arrays) ==> !old@before(allocated(g));
    assert o.Pass?;
    PaintStep(model.Resident, model.files, resident1, files1, resident0, files0, Obj3dWrites(ts, b), Write(t, b));
    Obj3dWritesAppend(ts, t, b);
  }

  /** No more tops leaves the tops as they are. */
  lemma NoMoreTops(ts: seq<BlockPos>)
    ensures ts + [] == ts
  {
  }

  /** No more writes leaves the writes as they are. */
  lemma NoMoreWrites(ws: seq<Write>)
    ensures ws + [] == ws
  {
  }

  /** One more position gives one more write. */
  lemma Obj3dWritesAppend(ts: seq<BlockPos>, t: BlockPos, b: BlockType)
    ensures Obj3dWrites(ts, b) + [Write(t, b)] == Obj3dWrites(ts + [t], b)
  {
  }

  /**
   * `buildWaterBodies` and `buildRoads`: for each column in order, the
   * block b replaces its top block, whatever that block is; a column with
   * no blocks is skipped. The loop stops at the first column whose probe
   * fails, with its error. The tops are those of the model before the
   * loop, since laying b never moves a top.
   */
  method ReplaceTops(model: DiskBoundModel, hbs: seq<HorBlockPos>, b: BlockType) returns (r: Outcome, ghost done: int)
    requires model.Valid() && b.Value() != NONE.Value()
    modifies model`files, model`Resident, model`Regions, model`Arrays, model.clock, model.cache`lines, model.cache`order,
      model.Regions`isChangedAfterCreateLoadOrSave, model.Regions`lastAccessTime, model.Regions`Data, model.Arrays
    ensures model.Valid() && fresh(model.Regions - old(model.Regions)) && fresh(model.Arrays - old(model.Arrays))
    ensures 0 <= done <= |hbs| && (r.Pass? <==> done == |hbs|)
    ensures forall j :: 0 <= j < done ==> old(Probes(model.Resident, model.files, hbs))[j].Ok?
    ensures r.Fail? ==> old(Probes(model.Resident, model.files, hbs))[done] == Err(r.error)
    ensures Painted(model.Resident, model.files, old(model.Resident), old(model.files),
                    Obj3dWrites(Founds(old(Probes(model.Resident, model.files, hbs))[..done]), b))
  {
    ghost var ps := Probes(model.Resident, model.files, hbs);
    var i := 0;
    while i < |hbs|
      invariant 0 <= i <= |hbs|
      invariant model.Valid() && fresh(model.Regions - old(model.Regions)) && fresh(model.Arrays - old(model.Arrays))
      invariant forall j :: 0 <= j < i ==> ps[j].Ok?
      invariant Painted(model.Resident, model.files, old(model.Resident), old(model.files), Obj3dWrites(Founds(ps[..i]), b))
    {
      TopsAreTops(old(model.Resident), old(model.files), hbs, i);
      ProbesAt(old(model.Resident), old(model.files), hbs, i);
      label before:
      var o := ReplaceTop(model, hbs[i], b, Founds(ps[..i]), old(model.Resident), old(model.files), ps[i]);
      assert forall g :: g in model.Regions && g !in old@before(model.Regions) ==> !old@before(allocated(g));
      assert forall g :: g in model.Arrays && g !in old@before(model.Arrays) ==> !old@before(allocated(g));
      if o.Fail? {
        return o, i;
      }
      assert forall j :: 0 <= j < i + 1 ==> ps[j].Ok?;
      FoundsStep(ps, i);
      assert Painted(model.Resident, model.files, old(model.Resident), old(model.files), Obj3dWrites(Founds(ps[..i + 1]), b));
      i := i + 1;
    }
    assert ps[..i] == ps;
    r, done := Pass, i;
  }

  /** `buildWaterBodies`: WATER replaces the top block of every column given. */
  method BuildWaterBodies(model: DiskBoundModel, hbs: seq<HorBlockPos>) returns (r: Outcome, ghost done: int)
    requires model.Valid()
    modifies model`files, model`Resident, model`Regions, model`Arrays, model.clock, model.cache`lines, model.cache`order,
      model.Regions`isChangedAfterCreateLoadOrSave, model.Regions`lastAccessTime, model.Regions`Data, model.Arrays
    ensures model.Valid() && fresh(model.Regions - old(model.Regions)) && fresh(model.Arrays - old(model.Arrays))
    ensures 0 <= done <= |hbs| && (r.Pass? <==> done == |hbs|)
    ensures forall j :: 0 <= j < done ==> old(Probes(model.Resident, model.files, hbs))[j].Ok?
    ensures r.Fail? ==> old(Probes(model.Resident, model.files, hbs))[done] == Err(r.error)
    ensures Painted(model.Resident, model.files, old(model.Resident), old(model.files),
                    Obj3dWrites(Founds(old(Probes(model.Resident, model.files, hbs))[..done]), WATER))
  {
    r, done := ReplaceTops(model, hbs, WATER);
  }

  /** `buildRoads`: STONE replaces the top block of every column given. */
  method BuildRoads(model: DiskBoundModel, hbs: seq<HorBlockPos>) returns (r: Outcome, ghost done: int)
    requires model.Valid()
    modifies model`files, model`Resident, model`Regions, model`Arrays, model.clock, model.cache`lines, model.cache`order,
      model.Regions`isChangedAfterCreateLoadOrSave, model.Regions`lastAccessTime, model.Regions`Data, model.Arrays
    ensures model.Valid() && fresh(model.Regions - old(model.Regions)) && fresh(model.Arrays - old(model.Arrays))
    ensures 0 <= done <= |hbs| && (r.Pass? <==> done == |hbs|)
    ensures forall j :: 0 <= j < done ==> old(Probes(model.Resident, model.files, hbs))[j].Ok?
    ensures r.Fail? ==> old(Probes(model.Resident, model.files, hbs))[done] == Err(r.error)
    ensures Painted(model.Resident, model.files, old(model.Resident), old(model.files),
                    Obj3dWrites(Founds(old(Probes(model.Resident, model.files, hbs))[..done]), STONE))
  {
    r, done := ReplaceTops(model, hbs, STONE);
  }

  // ---------------------------------------------------------------------
  // Buildings: STONE raised on the top block
  // ---------------------------------------------------------------------

  /** The STONE column `buildBuildings` raises on a found top: from just above it, `height` blocks up. */
  function Building(p: Result<Option<BlockPos>>, height: Int32): seq<Write> {
    if p.Ok? && p.value.Some? then
      var t := p.value.value;
      Column(t.x, t.z, Wrap(t.y + 1), Wrap(t.y + height), STONE)
    else []
  }

  /** The buildings raised on the tops a list of probes found, in order. */
  function BuildingWrites(ps: seq<Result<Option<BlockPos>>>, height: Int32): seq<Write> {
    if |ps| == 0 then [] else BuildingWrites(ps[..|ps| - 1], height) + Building(ps[|ps| - 1], height)
  }

  /** The buildings of one more probe. */
  lemma BuildingStep(ps: seq<Result<Option<BlockPos>>>, height: Int32, i: int)
    requires 0 <= i < |ps|
    ensures BuildingWrites(ps[..i + 1], height) == BuildingWrites(ps[..i], height) + Building(ps[i], height)
  {
    assert ps[..i + 1][..i] == ps[..i];
  }

  /** A found top at a chunk height with room above it for a building of `height` blocks. */
  predicate Fits(p: Result<Option<BlockPos>>, height: int) {
    p.Ok? && p.value.Some? ==> 0 <= p.value.value.y <= 255 && p.value.value.y + height <= 255
  }

  /** Whether the building on found top p covers q: the top's column, above the top, at most `height` up. */
  predicate BuildingCovers(p: Result<Option<BlockPos>>, height: int, q: BlockPos) {
    p.Ok? && p.value.Some? && q.x == p.value.value.x && q.z == p.value.value.z &&
    p.value.value.y < q.y <= p.value.value.y + height
  }

  /** One building leaves STONE exactly at the cells it covers. */
  lemma BuildingCells(p: Result<Option<BlockPos>>, height: Int32, q: BlockPos)
    requires Fits(p, height)
    ensures LastWrite(Building(p, height), q) == if BuildingCovers(p, height, q) then Some(STONE) else None
  {
    var ws := Building(p, height);
    LastWriteUniform(ws, STONE, q);
    if BuildingCovers(p, height, q) {
      var t := p.value.value;
      assert Wrap(t.y + 1) == t.y + 1 && Wrap(t.y + height) == t.y + height;
      assert ws[q.y - t.y - 1].pos == q;
    }
  }

  /** The buildings on the found tops leave STONE exactly at the cells one of them covers. */
  lemma {:induction false} BuildingsCells(ps: seq<Result<Option<BlockPos>>>, height: Int32, q: BlockPos)
    requires forall j :: 0 <= j < |ps| ==> Fits(ps[j], height)
    ensures LastWrite(BuildingWrites(ps, height), q) ==
            if exists j :: 0 <= j < |ps| && BuildingCovers(ps[j], height, q) then Some(STONE) else None
  {
    if |ps| > 0 {
      var front, last := ps[..|ps| - 1], ps[|ps| - 1];
      assert LastWrite(BuildingWrites(front, height), q) ==
             if exists j :: 0 <= j < |front| && BuildingCovers(front[j], height, q) then Some(STONE) else None by {
        assert forall j :: 0 <= j < |front| ==> front[j] == ps[j];
        BuildingsCells(front, height, q);
      }
      assert LastWrite(Building(last, height), q) == if BuildingCovers(last, height, q) then Some(STONE) else None by {
        BuildingCells(last, height, q);
      }
      LastWriteAppend(BuildingWrites(front, height), Building(last, height), q);
      BuildingCoversStep(ps, front, height, q);
    }
  }

  /** Some building covers q exactly when the last one or one before it does. */
  lemma BuildingCoversStep(ps: seq<Result<Option<BlockPos>>>, front: seq<Result<Option<BlockPos>>>, height: Int32, q: BlockPos)
    requires |ps| > 0 && front == ps[..|ps| - 1]
    ensures (exists j :: 0 <= j < |ps| && BuildingCovers(ps[j], height, q)) <==>
            (exists j :: 0 <= j < |front| && BuildingCovers(front[j], height, q)) || BuildingCovers(ps[|ps| - 1], height, q)
  {
    if exists j :: 0 <= j < |ps| && BuildingCovers(ps[j], height, q) {
      var j :| 0 <= j < |ps| && BuildingCovers(ps[j], height, q);
      if j < |front| {
        assert front[j] == ps[j];
      }
    }
  }

  /** Whether probe p found a position in column hb. */
  predicate InColumn(p: Result<Option<BlockPos>>, hb: HorBlockPos) {
    p.Ok? && p.value.Some? && p.value.value.x == hb.x && p.value.value.z == hb.z
  }

  /** No write is in column hb. */
  predicate Avoids(ws: seq<Write>, hb: HorBlockPos) {
    forall k :: 0 <= k < |ws| ==> ws[k].pos.x != hb.x || ws[k].pos.z != hb.z
  }

  /** The buildings on tops found in other columns write nothing in column hb. */
  lemma {:induction false} BuildingWritesAvoid(ps: seq<Result<Option<BlockPos>>>, height: Int32, hb: HorBlockPos)
    requires forall j :: 0 <= j < |ps| ==> !InColumn(ps[j], hb)
    ensures Avoids(BuildingWrites(ps, height), hb)
  {
    if |ps| > 0 {
      var front := ps[..|ps| - 1];
      assert forall j :: 0 <= j < |front| ==> front[j] == ps[j];
      BuildingWritesAvoid(front, height, hb);
      var a, c := BuildingWrites(front, height), Building(ps[|ps| - 1], height);
      assert Avoids(c, hb);
      assert forall k :: 0 <= k < |a + c| ==> (a + c)[k] == if k < |a| then a[k] else c[k - |a|];
    }
  }

  /** The probes of distinct columns find nothing in a later column. */
  lemma ProbesApart(resident: map<RegionIndex, RegionData>, files: Directory, hbs: seq<HorBlockPos>, i: int)
    requires Cached(resident) && Distinct(hbs) && 0 <= i < |hbs|
    ensures forall j :: 0 <= j < i ==> !InColumn(Probes(resident, files, hbs)[..i][j], hbs[i])
  {
    forall j | 0 <= j < i
      ensures !InColumn(Probes(resident, files, hbs)[..i][j], hbs[i])
    {
      ProbesAt(resident, files, hbs, j);
      ProbeFound(resident, files, hbs[j]);
    }
  }

  /** Writes that avoid column hb change what no probe of hb finds. */
  lemma ProbeUntouched(resident': map<RegionIndex, RegionData>, files': Directory,
                       resident: map<RegionIndex, RegionData>, files: Directory, ws: seq<Write>, hb: HorBlockPos)
    requires Cached(resident') && Cached(resident)
    requires Painted(resident', files', resident, files, ws) && Avoids(ws, hb)
    ensures Probe(resident', files', hb) == Probe(resident, files, hb)
  {
    var key := ColumnRegionIndex(hb);
    if Stored(resident, files, key).Ok? {
      var d, d' := Stored(resident, files, key).value, Stored(resident', files', key).value;
      forall y | 0 <= y <= 255
        ensures RegionCell(d', BlockPos(hb.x, y, hb.z)) == RegionCell(d, BlockPos(hb.x, y, hb.z))
      {
        var q := BlockPos(hb.x, y, hb.z);
        assert RegionIndexOf(q) == key;
        LastWriteMeaning(ws, q);
      }
      HighestSamePattern(d, d', hb, 255);
      var top := HighestNonEmpty(d, hb, 255);
      assert ColumnTop(resident', files', hb) == ColumnTop(resident, files, hb) == Ok(top);
      if top.Some? {
        var p := BlockPos(hb.x, top.value, hb.z);
        assert RegionIndexOf(p) == key;
        assert BlockAt(resident', files', p) == BlockAt(resident, files, p);
      }
    } else {
      assert ColumnTop(resident', files', hb) == ColumnTop(resident, files, hb);
    }
  }

  /**
   * One column of `buildBuildings` on a model painted with `ws` since
   * state (resident0, files0), where no write touched the column: the
   * column is probed and, when it has a top, STONE is set from just above
   * it, `height` blocks up. It fails exactly when the probe fails in the
   * first state, with its error.
   */
  method RaiseBuilding(model: DiskBoundModel, hb: HorBlockPos, height: Int32, ghost ws: seq<Write>,
                       ghost resident0: map<RegionIndex, RegionData>, ghost files0: Directory,
                       ghost p0: Result<Option<BlockPos>>) returns (r: Outcome)
    requires model.Valid() && Cached(resident0) && p0 == Probe(resident0, files0, hb)
    requires Painted(model.Resident, model.files, resident0, files0, ws) && Avoids(ws, hb) && Fits(p0, height)
    modifies model`files, model`Resident, model`Regions, model`Arrays, model.clock, model.cache`lines, model.cache`order,
      model.Regions`isChangedAfterCreateLoadOrSave, model.Regions`lastAccessTime, model.Regions`Data, model.Arrays
    ensures model.Valid() && fresh(model.Regions - old(model.Regions)) && fresh(model.Arrays - old(model.Arrays))
    ensures r.Pass? <==> p0.Ok?
    ensures r.Fail? ==> p0 == Err(r.error)
    ensures Painted(model.Resident, model.files, resident0, files0, if r.Pass? then ws + Building(p0, height) else ws)
  {
    ProbeUntouched(model.Resident, model.files, resident0, files0, ws, hb);
    ProbeFound(model.Resident, model.files, hb);
    label start:
    var p := ProbeColumn(model, hb);
    assert forall g :: g in model.Regions && g !in old@start(model.Regions) ==> !old@start(allocated(g));
    assert forall g :: g in model.Arrays && g !in old@start(model.Arrays) ==> !old@start(allocated(g));
    PaintSame(model.Resident, model.files, old(model.Resident), old(model.files), resident0, files0, ws);
    assert p == p0;
    if p.Err? {
      return Fail(p.error);
    }
    if p.value.None? {
      NoMoreWrites(ws);
      return Pass;
    }
    label found:
    RaiseOn(model, p.value.value, height, ws, resident0, files0);
    assert forall g :: g in model.Regions && g !in old@found(model.Regions) ==> !old@found(allocated(g));
    assert forall g :: g in model.Arrays && g !in old@found(model.Arrays) ==> !old@found(allocated(g));
    r := Pass;
  }

  /**
   * The loop of one building: STONE from just above top t, `height`
   * blocks up, on a model painted with `ws`. Every write reaches the
   * region of t, which could be loaded.
   */
  method RaiseOn(model: DiskBoundModel, t: BlockPos, height: Int32, ghost ws: seq<Write>,
                 ghost resident0: map<RegionIndex, RegionData>, ghost files0: Directory)
    requires model.Valid() && Cached(resident0) && Fits(Ok(Some(t)), height)
    requires Stored(model.Resident, model.files, RegionIndexOf(t)).Ok?
    requires Painted(model.Resident, model.files, resident0, files0, ws)
    modifies model`files, model`Resident, model`Regions, model`Arrays, model.clock, model.cache`lines, model.cache`order,
      model.Regions`isChangedAfterCreateLoadOrSave, model.Regions`lastAccessTime, model.Regions`Data, model.Arrays
    ensures model.Valid() && fresh(model.Regions - old(model.Regions)) && fresh(model.Arrays - old(model.Arrays))
    ensures Painted(model.Resident, model.files, resident0, files0, ws + Building(Ok(Some(t)), height))
  {
    var column := Building(Ok(Some(t)), height);
    ghost var resident1, files1 := model.Resident, model.files;
    ColumnReachable(resident1, files1, t, height);
    label probed:
    var o, done := WriteAll(model, column);
    assert forall g :: g in model.Regions && g !in old@probed(model.Regions) ==> !old@probed(allocated(g));
    assert forall g :: g in model.Arrays && g !in old@probed(model.Arrays) ==> !old@probed(allocated(g));
    assert done == |column|;
    WholePrefix(column, done);
    PaintedAppend(model.Resident, model.files, resident1, files1, resident0, files0, ws, column);
  }


  /**
   * A building on a top whose region could be loaded: every write is at
   * a chunk height and in that region, so every write reaches it.
   */
  lemma ColumnReachable(resident: map<RegionIndex, RegionData>, files: Directory, t: BlockPos, height: Int32)
    requires Cached(resident) && Fits(Ok(Some(t)), height) && Stored(resident, files, RegionIndexOf(t)).Ok?
    ensures var ws := Building(Ok(Some(t)), height);
      InHeight(ws) && forall k :: 0 <= k < |ws| ==> Stored(resident, files, RegionIndexOf(ws[k].pos)).Ok?
  {
    var ws := Column(t.x, t.z, Wrap(t.y + 1), Wrap(t.y + height), STONE);
    assert Wrap(t.y + 1) == t.y + 1 && Wrap(t.y + height) == t.y + height;
    forall k | 0 <= k < |ws|
      ensures RegionIndexOf(ws[k].pos) == RegionIndexOf(t)
    {
    }
  }

  /** No column is given twice. */
  predicate Distinct(hbs: seq<HorBlockPos>) {
    forall i, j :: 0 <= i < j < |hbs| ==> hbs[i] != hbs[j]
  }

  /**
   * `buildBuildings`: for each column in order, STONE from just above its
   * top block up `height` blocks; a column with no blocks is skipped and
   * the top block is left as it is. The loop stops at the first column
   * whose probe fails, with its error.
   */
  method BuildBuildings(model: DiskBoundModel, hbs: seq<HorBlockPos>, height: Int32) returns (r: Outcome, ghost done: int)
    requires model.Valid() && Distinct(hbs)
    requires forall j :: 0 <= j < |hbs| ==> Fits(Probes(model.Resident, model.files, hbs)[j], height)
    modifies model`files, model`Resident, model`Regions, model`Arrays, model.clock, model.cache`lines, model.cache`order,
      model.Regions`isChangedAfterCreateLoadOrSave, model.Regions`lastAccessTime, model.Regions`Data, model.Arrays
    ensures model.Valid() && fresh(model.Regions - old(model.Regions)) && fresh(model.Arrays - old(model.Arrays))
    ensures 0 <= done <= |hbs| && (r.Pass? <==> done == |hbs|)
    ensures forall j :: 0 <= j < done ==> old(Probes(model.Resident, model.files, hbs))[j].Ok?
    ensures r.Fail? ==> old(Probes(model.Resident, model.files, hbs))[done] == Err(r.error)
    ensures Painted(model.Resident, model.files, old(model.Resident), old(model.files),
                    BuildingWrites(old(Probes(model.Resident, model.files, hbs))[..done], height))
  {
    ghost var ps := Probes(model.Resident, model.files, hbs);
    var i := 0;
    while i < |hbs|
      invariant 0 <= i <= |hbs|
      invariant model.Valid() && fresh(model.Regions - old(model.Regions)) && fresh(model.Arrays - old(model.Arrays))
      invariant forall j :: 0 <= j < i ==> ps[j].Ok?
      invariant Painted(model.Resident, model.files, old(model.Resident), old(model.files), BuildingWrites(ps[..i], height))
    {
      ProbesApart(old(model.Resident), old(model.files), hbs, i);
      ProbesAt(old(model.Resident), old(model.files), hbs, i);
      BuildingWritesAvoid(ps[..i], height, hbs[i]);
      label before:
      var o := RaiseBuilding(model, hbs[i], height, BuildingWrites(ps[..i], height), old(model.Resident), old(model.files), ps[i]);
      assert forall g :: g in model.Regions && g !in old@before(model.Regions) ==> !old@before(allocated(g));
      assert forall g :: g in model.Arrays && g !in old@before(model.Arrays) ==> !old@before(allocated(g));
      if o.Fail? {
        return o, i;
      }
      assert forall j :: 0 <= j < i + 1 ==> ps[j].Ok?;
      BuildingStep(ps, height, i);
      assert Painted(model.Resident, model.files, old(model.Resident), old(model.files), BuildingWrites(ps[..i + 1], height));
      i := i + 1;
    }
    assert ps[..i] == ps;
    r, done := Pass, i;
  }

  /**
   * After the buildings: STONE in every cell a building covers, above the
   * top its column's probe found, and every other cell, the tops
   * included, holds what it held.
   */
  lemma BuildingsPainted(resident': map<RegionIndex, RegionData>, files': Directory,
                         resident: map<RegionIndex, RegionData>, files: Directory, ps: seq<Result<Option<BlockPos>>>,
                         height: Int32, q: BlockPos)
    requires Cached(resident') && Cached(resident) && 0 <= q.y < 256
    requires forall j :: 0 <= j < |ps| ==> Fits(ps[j], height)
    requires Painted(resident', files', resident, files, BuildingWrites(ps, height))
    ensures WorldCell(resident', files', q) ==
            if exists j :: 0 <= j < |ps| && BuildingCovers(ps[j], height, q) then Ok(STONE.Value())
            else WorldCell(resident, files, q)
  {
    BuildingsCells(ps, height, q);
  }


  // ---------------------------------------------------------------------
  // Spawn height
  // ---------------------------------------------------------------------

  /**
   * The spawn check: with a highest block at the spawn column, the ideal
   * spawn height is one above it, and the origin moves there when it is
   * below that height or more than 5 above it.
   */
  function AdjustSpawn(origin: BlockPos, highest: Option<Int32>): (r: BlockPos)
    ensures r.x == origin.x && r.z == origin.z
    ensures highest.None? ==> r == origin
    ensures highest.Some? && 0 <= highest.value <= 255 ==> 0 <= r.y - (highest.value + 1) <= 5
  {
    match highest
    case None => origin
    case Some(h) =>
      var ideal := Wrap(h + 1);
      var offset := Wrap(origin.y - ideal);
      if offset < 0 || offset > 5 then origin.(y := ideal) else origin
  }

  /**
   * The Int arithmetic of the check never matters: the origin is kept
   * exactly when it is 0 to 5 blocks above the ideal height.
   */
  lemma SpawnAdjusted(origin: BlockPos, h: Int32)
    requires 0 <= h <= 255
    ensures AdjustSpawn(origin, Some(h)) == if 0 <= origin.y - (h + 1) <= 5 then origin else origin.(y := h + 1)
  {
  }

  /** The spawn check on the model: `getHighestBlockY` at the origin's column, then the adjustment. */
  method CheckSpawn(model: DiskBoundModel, origin: BlockPos) returns (r: Result<BlockPos>)
    requires model.Valid()
    modifies model`files, model`Resident, model`Regions, model`Arrays, model.clock, model.cache`lines, model.cache`order,
      model.Regions`isChangedAfterCreateLoadOrSave, model.Regions`lastAccessTime
    ensures model.Valid() && fresh(model.Regions - old(model.Regions)) && fresh(model.Arrays - old(model.Arrays))
    ensures SameWorld(model.Resident, model.files, old(model.Resident), old(model.files))
    ensures r == match old(ColumnTop(model.Resident, model.files, HorBlockPos(origin.x, origin.z)))
                 case Ok(top) => Ok(AdjustSpawn(origin, top))
                 case Err(e) => Err(e)
  {
    var top := model.GetHighestBlockY(HorBlockPos(origin.x, origin.z));
    if top.Err? {
      return Err(top.error);
    }
    r := Ok(AdjustSpawn(origin, top.value));
  }
}
