/**
 * The model iterator: every block of every region of the model, regions in
 * (x, z) order, each region walked completely by its region iterator, each
 * block translated to global coordinates.
 */
module ModelIterators {
  import opened KotlinInt
  import opened Outcomes
  import opened BlockPositions
  import opened BlockTypes
  import opened Chunks
  import opened Blocks
  import opened Regions
  import opened RegionFiles

  /**
   * The block the model iterator returns as block s of region i: step s of
   * the region with the i-th smallest key, moved to that region's place in
   * the world.
   */
  ghost function ModelElement(keys: seq<RegionIndex>, datas: seq<RegionData>, i: int, s: int): Result<Block>
    requires |keys| == |datas| && 0 <= i < |keys| && 0 <= s < REGION_BYTES && WellFormed(datas[i])
  {
    var k := keys[i];
    match RegionElement(datas[i], s)
    case Ok(b) => Ok(ToBlock(b, k.x, k.z))
    case Err(e) => Err(e)
  }

  /** The place after (i, s) in the walk: the next block of region i, or the first of region i + 1. */
  function Advance(cursor: (int, int)): (int, int) {
    if cursor.1 + 1 < REGION_BYTES then (cursor.0, cursor.1 + 1) else (cursor.0 + 1, 0)
  }

  /** Region coordinates whose blocks all have `Int` coordinates. */
  predicate InWorld(k: RegionIndex) {
    -0x40_0000 <= k.x < 0x40_0000 && -0x40_0000 <= k.z < 0x40_0000
  }

  /** One axis: a region-local coordinate shifted by region r decomposes back into r and that coordinate. */
  lemma AxisOfShifted(p: int, r: int)
    requires 0 <= p < 512 && -0x40_0000 <= r < 0x40_0000
    ensures InIntRange(p + r * 512)
    ensures var h := HorPositions.HorPos(p + r * 512);
      h.Region() == r && h.LocalChunk() == p / 16 && h.LocalBlock() == p % 16
  {
    var h := HorPositions.HorPos(p + r * 512);
    HorPositions.RegionIsFloorOfBlock(h);
    assert h.Region() == r;
    HorPositions.FloorUnique(p + r * 512, 16, h.GlobalChunk(), r * 32 + p / 16);
  }

  /** A region-local block moved into region k keeps its place inside the region. */
  lemma ShiftedPosition(e: RegionLocalBlock, k: RegionIndex)
    requires InWorld(k) && 0 <= e.pos.x < 512 && 0 <= e.pos.z < 512
    ensures var g := ToBlock(e, k.x, k.z).pos;
      RegionIndexOf(g) == k && g.y == e.pos.y &&
      LocalChunkX(g) == e.pos.x / 16 && LocalChunkZ(g) == e.pos.z / 16 &&
      LocalBlockX(g) == e.pos.x % 16 && LocalBlockZ(g) == e.pos.z % 16
  {
    AxisOfShifted(e.pos.x, k.x);
    AxisOfShifted(e.pos.z, k.z);
    var g := ToBlock(e, k.x, k.z).pos;
    assert g == BlockPos(e.pos.x + k.x * 512, e.pos.y, e.pos.z + k.z * 512);
  }

  /**
   * Block s of region i decodes byte s of the stored region; for a region in
   * the world the block lies in that region, and its type is the byte the
   * region stores for its position.
   */
  lemma ModelElementIsStoredBlock(keys: seq<RegionIndex>, datas: seq<RegionData>, i: int, s: int)
    requires |keys| == |datas| && 0 <= i < |keys| && 0 <= s < REGION_BYTES && WellFormed(datas[i])
    ensures ModelElement(keys, datas, i, s).Ok? <==> BlockTypes.Get(datas[i][s / CHUNK_BYTES][s % CHUNK_BYTES]).Ok?
    ensures ModelElement(keys, datas, i, s).Ok? && InWorld(keys[i]) ==>
      var b := ModelElement(keys, datas, i, s).value;
      0 <= b.pos.y < 256 && RegionIndexOf(b.pos) == keys[i] &&
      RegionCell(datas[i], b.pos) == b.blockType.Value()
  {
    var k := keys[i];
    RegionElementIsStoredBlock(datas[i], s);
    var e := RegionElement(datas[i], s);
    if e.Ok? && InWorld(k) {
      ShiftedPosition(e.value, k);
    }
  }

  /** Each region is valid and holds the matching contents. */
  ghost predicate Intact(regions: seq<Region>, datas: seq<RegionData>)
    reads (set h | 0 <= h < |regions| :: regions[h])`Data
    reads set h, a | 0 <= h < |regions| && a in regions[h].Footprint() :: a
  {
    |regions| == |datas| && forall h :: 0 <= h < |regions| ==> regions[h].Valid() && regions[h].Data == datas[h]
  }

  /** Regions whose contents and chunk arrays did not change are as intact as they were. */
  twostate lemma IntactKept(p: (seq<Region>, seq<RegionData>))
    requires old(Intact(p.0, p.1))
    requires forall g: Region :: g in p.0 ==> unchanged(g`Data)
    requires forall g: Region, a :: g in p.0 && a in g.Footprint() ==> unchanged(a)
    ensures Intact(p.0, p.1)
  {
    forall h | 0 <= h < |p.0|
      ensures p.0[h].Valid() && p.0[h].Data == p.1[h]
    {
      var g := p.0[h];
      assert old(g.Valid()) && g in p.0;
      assert unchanged(g`Data);
      assert forall a :: a in g.Footprint() ==> unchanged(a);
      assert g.Valid();
    }
  }

  /** One more valid region holding the matching contents keeps the regions intact. */
  lemma IntactAppend(regions: seq<Region>, datas: seq<RegionData>, r: Region, d: RegionData)
    requires Intact(regions, datas) && r.Valid() && r.Data == d
    ensures Intact(regions + [r], datas + [d])
  {
  }

  class ModelIterator {
    /** The keys in (x, z) order, and the region fetched for each. */
    const keys: seq<RegionIndex>
    const regions: seq<Region>
    /** The contents of each region when it was fetched. */
    ghost const Datas: seq<RegionData>
    /** How many regions the walk has entered. */
    var taken: nat
    var regionX: Int32
    var regionZ: Int32
    /** The current region's iterator; null stands for the empty iterator before the first region. */
    var blockIterator: RegionIterator?
    /** The iterator's objects: itself and the current region iterator's. */
    ghost function Repr(): set<object>
      reads this, blockIterator
    {
      {this} + if blockIterator == null then {} else blockIterator.Repr
    }

    /** The region the walk enters next, if any, and its arrays. */
    ghost function UpcomingRegion(): set<Region>
      reads this
    {
      if taken < |regions| then {regions[taken]} else {}
    }

    ghost function UpcomingArrays(): set<array<Byte>>
      reads this
    {
      if taken < |regions| then regions[taken].Footprint() else {}
    }

    /** The region the walk is in, if any, and its arrays. */
    ghost function CurrentRegion(): set<Region>
      reads this
    {
      if blockIterator == null then {} else {blockIterator.region}
    }

    ghost function CurrentArrays(): set<array<Byte>>
      reads this
    {
      if blockIterator == null then {} else blockIterator.region.Footprint()
    }

    /** The place of the next block: its region's rank and its step in that region. */
    ghost function Cursor(): (int, int)
      reads this, blockIterator
    {
      if blockIterator == null then (0, 0)
      else if blockIterator.steps < REGION_BYTES then (taken - 1, blockIterator.steps)
      else (taken, 0)
    }

    /**
     * The region the walk enters next still holds what it held when it was
     * fetched. The walk only reads the regions, so a caller that leaves the
     * model alone keeps this for every region.
     */
    ghost predicate UpcomingIntact()
      reads this, UpcomingRegion(), UpcomingArrays()
    {
      taken < |regions| == |Datas| ==> regions[taken].Valid() && regions[taken].Data == Datas[taken]
    }

    /** The region the walk is in still holds what it held when it was fetched. */
    ghost predicate CurrentIntact()
      reads this, CurrentRegion(), CurrentArrays()
    {
      blockIterator != null && 0 < taken <= |Datas| ==>
        blockIterator.region.Valid() && blockIterator.region.Data == Datas[taken - 1]
    }

    ghost predicate Valid()
      reads this, blockIterator, Repr()
    {
      |keys| == |regions| && |Datas| == |regions| && taken <= |keys| &&
      (taken == 0 <==> blockIterator == null) &&
      (blockIterator != null ==>
        this !in blockIterator.Repr &&
        blockIterator.Valid() &&
        blockIterator.region == regions[taken - 1] &&
        regionX == keys[taken - 1].x && regionZ == keys[taken - 1].z)
    }

    lemma CursorBound()
      requires Valid() && CurrentIntact()
      ensures 0 <= Cursor().0 <= |keys| && 0 <= Cursor().1 < REGION_BYTES
      ensures Cursor().0 == |keys| ==> Cursor().1 == 0
      ensures Cursor().0 == taken - 1 ==> WellFormed(Datas[Cursor().0])
    {
      if blockIterator != null {
        blockIterator.StepsBound();
        blockIterator.region.DataWellFormed();
      }
    }

    /** A step of the region iterator adds only fresh objects to the model iterator's. */
    twostate lemma StepFresh()
      requires old(Valid()) && old(blockIterator) != null && unchanged(this)
      requires fresh(blockIterator.Repr - old(blockIterator.Repr))
      ensures fresh(Repr() - old(Repr()))
    {
    }

    /** A successful step of the region iterator advances the cursor and keeps the invariant. */
    twostate lemma StepKept()
      requires old(Valid()) && old(CurrentIntact()) && old(blockIterator) != null && unchanged(this)
      requires fresh(blockIterator.Repr - old(blockIterator.Repr))
      requires blockIterator.Valid() && blockIterator.steps == old(blockIterator.steps) + 1
      requires blockIterator.region.Valid() && blockIterator.region.Data == old(blockIterator.region.Data)
      ensures Valid() && CurrentIntact() && Cursor() == Advance(old(Cursor()))
    {
      blockIterator.StepsBound();
    }

    constructor (keys: seq<RegionIndex>, regions: seq<Region>, ghost datas: seq<RegionData>)
      requires |keys| == |regions| == |datas|
      ensures Valid() && CurrentIntact() && fresh(Repr()) && Cursor() == (0, 0)
      ensures this.keys == keys && this.regions == regions && Datas == datas
    {
      this.keys := keys;
      this.regions := regions;
      Datas := datas;
      taken := 0;
      regionX, regionZ := 0, 0;
      blockIterator := null;
    }

    method HasNext() returns (b: bool)
      requires Valid()
      ensures b <==> Cursor().0 < |keys|
    {
      b := taken < |keys|;
      if blockIterator != null {
        var more := blockIterator.HasNext();
        b := more || b;
      }
    }

    /**
     * `next`: the block at the cursor, or NoSuchElement after the last
     * region, or the error the region iterator raises.
     */
    method Next() returns (r: Result<Block>)
      requires Valid() && CurrentIntact() && UpcomingIntact()
      modifies Repr()
      ensures fresh(Repr() - old(Repr()))
      ensures old(Cursor()).0 == |keys| ==> r == Err(NoSuchElement)
      ensures old(Cursor()).0 < |keys| ==>
        WellFormed(Datas[old(Cursor()).0]) && r == ModelElement(keys, Datas, old(Cursor()).0, old(Cursor()).1)
      ensures r.Ok? ==> Valid() && CurrentIntact() && Cursor() == Advance(old(Cursor()))
    {
      CursorBound();
      var more := false;
      if blockIterator != null {
        more := blockIterator.HasNext();
      }
      if !more {
        if taken == |keys| {
          return Err(NoSuchElement);
        }
        EnterRegion();
      }
      r := TakeBlock();
    }

    /** The region iterator's `next()` and `blockIterator = iter`: the walk moves on to the next region. */
    method EnterRegion()
      requires Valid() && UpcomingIntact() && taken < |keys|
      requires blockIterator != null ==> blockIterator.steps == REGION_BYTES
      modifies this
      ensures Valid() && CurrentIntact() && blockIterator != null && blockIterator.steps < REGION_BYTES
      ensures Cursor() == old(Cursor()) && fresh(Repr() - old(Repr()))
    {
      var it := regions[taken].Iterator();
      regionX, regionZ, blockIterator, taken := keys[taken].x, keys[taken].z, it, taken + 1;
      EnteredValid();
      EnteredIntact();
    }

    /** Entering the next region starts its walk at step 0 and keeps the cursor. */
    twostate lemma EnteredValid()
      requires old(Valid()) && old(taken) < |keys|
      requires old(blockIterator) != null ==> old(blockIterator.steps) == REGION_BYTES
      requires taken == old(taken) + 1 && blockIterator != null && fresh(blockIterator.Repr)
      requires blockIterator.Valid() && blockIterator.region == regions[old(taken)] && blockIterator.steps == 0
      requires regionX == keys[old(taken)].x && regionZ == keys[old(taken)].z
      ensures Valid() && blockIterator.steps < REGION_BYTES
      ensures Cursor() == old(Cursor()) && fresh(Repr() - old(Repr()))
    {
    }

    /** The region just entered is the one that was upcoming, so it is intact. */
    twostate lemma EnteredIntact()
      requires old(UpcomingIntact()) && |regions| == |Datas| && old(taken) < |regions|
      requires taken == old(taken) + 1 && blockIterator != null && blockIterator.region == regions[old(taken)]
      requires unchanged(regions[old(taken)]) && unchanged(regions[old(taken)].Footprint())
      ensures CurrentIntact()
    {
    }

    /** `blockIterator.next().toBlock(regionX, regionZ)`. */
    method TakeBlock() returns (r: Result<Block>)
      requires Valid() && CurrentIntact() && blockIterator != null && blockIterator.steps < REGION_BYTES
      modifies Repr()
      ensures fresh(Repr() - old(Repr()))
      ensures old(Cursor()).0 < |keys| && WellFormed(Datas[old(Cursor()).0])
      ensures r == ModelElement(keys, Datas, old(Cursor()).0, old(Cursor()).1)
      ensures r.Ok? ==> Valid() && CurrentIntact() && Cursor() == Advance(old(Cursor()))
    {
      CursorBound();
      var b := blockIterator.Next();
      StepFresh();
      if b.Err? {
        return Err(b.error);
      }
      StepKept();
      r := Ok(ToBlock(b.value, regionX, regionZ));
    }
  }

  /** A fresh iterator over regions that are intact; making it leaves them so. */
  method NewModelIterator(keys: seq<RegionIndex>, regions: seq<Region>, ghost datas: seq<RegionData>)
    returns (it: ModelIterator)
    requires |keys| == |regions| && Intact(regions, datas)
    ensures fresh(it) && fresh(it.Repr()) && it.Valid() && it.CurrentIntact() && it.Cursor() == (0, 0)
    ensures it.keys == keys && it.regions == regions && it.Datas == datas && Intact(regions, datas)
  {
    it := new ModelIterator(keys, regions, datas);
  }
}
