/**
 * What a cache of loaded regions must keep true about its lines so that the
 * cache is invisible: each resident region is a valid region holding the
 * contents the model records for it, its file can be loaded, a clean
 * region's file loads as its contents, and distinct lines share no region
 * and no chunk array.
 *
 * The predicates take the cache's state as values, so that removing or
 * adding a line is a lemma about maps rather than about the heap.
 */
module CacheLines {
  import opened KotlinInt
  import opened Outcomes
  import opened Regions
  import opened RegionFiles

  /** Every resident region's contents have the shape of a region. */
  ghost predicate Cached(resident: map<RegionIndex, RegionData>) {
    forall k :: k in resident ==> WellFormed(resident[k])
  }

  /** Region r holds contents d and its file loads as `loaded`: loadable, and equal to d when r is clean. */
  ghost predicate LineOk(r: Region, d: RegionData, loaded: Result<RegionData>)
    reads r`Data, r`isChangedAfterCreateLoadOrSave, r.Footprint()
  {
    r.Valid() && r.Data == d && loaded.Ok? &&
    (!r.isChangedAfterCreateLoadOrSave ==> loaded == Ok(d))
  }

  /** Line k is one of the model's regions and its chunk arrays are the model's. */
  ghost predicate Owned(lines: map<RegionIndex, Region>, regions: set<Region>, arrays: set<array<Byte>>, k: RegionIndex) {
    k in lines && lines[k] in regions && lines[k].Footprint() <= arrays
  }

  /** Line k is owned and good. */
  ghost predicate Line(lines: map<RegionIndex, Region>, resident: map<RegionIndex, RegionData>, files: Directory,
                       regions: set<Region>, arrays: set<array<Byte>>, k: RegionIndex)
    reads regions`Data, regions`isChangedAfterCreateLoadOrSave, arrays
  {
    Owned(lines, regions, arrays, k) && k in resident &&
    LineOk(lines[k], resident[k], LoadResult(files, k))
  }

  /** Lines k and j hold distinct regions with disjoint chunk arrays. */
  ghost predicate Apart(lines: map<RegionIndex, Region>, k: RegionIndex, j: RegionIndex) {
    k in lines && j in lines &&
    lines[k] != lines[j] && lines[k].Footprint() !! lines[j].Footprint()
  }

  /** Every line is good and distinct lines are apart. */
  ghost predicate Good(lines: map<RegionIndex, Region>, resident: map<RegionIndex, RegionData>, files: Directory,
                       regions: set<Region>, arrays: set<array<Byte>>)
    reads regions`Data, regions`isChangedAfterCreateLoadOrSave, arrays
  {
    lines.Keys == resident.Keys && Cached(resident) &&
    (forall k {:trigger Line(lines, resident, files, regions, arrays, k)} ::
      k in lines ==> Line(lines, resident, files, regions, arrays, k)) &&
    (forall k, j {:trigger Apart(lines, k, j)} :: k in lines && j in lines && k != j ==> Apart(lines, k, j))
  }

  /** The keys of the lines changed since they were created, loaded or saved. */
  ghost function DirtyKeys(lines: map<RegionIndex, Region>): (r: set<RegionIndex>)
    reads lines.Values`isChangedAfterCreateLoadOrSave
    ensures r <= lines.Keys
  {
    set k | k in lines && lines[k].isChangedAfterCreateLoadOrSave
  }

  /** A good cache has a resident contents for exactly its lines. */
  lemma GoodKeys(lines: map<RegionIndex, Region>, resident: map<RegionIndex, RegionData>, files: Directory,
                 regions: set<Region>, arrays: set<array<Byte>>)
    requires Good(lines, resident, files, regions, arrays)
    ensures lines.Keys == resident.Keys && Cached(resident)
  {
  }

  /** What a good cache says about one of its lines. */
  lemma GoodLine(lines: map<RegionIndex, Region>, resident: map<RegionIndex, RegionData>, files: Directory,
                 regions: set<Region>, arrays: set<array<Byte>>, k: RegionIndex)
    requires Good(lines, resident, files, regions, arrays) && k in lines
    ensures k in resident && WellFormed(resident[k])
    ensures lines[k] in regions && lines[k].Footprint() <= arrays
    ensures lines[k].Valid() && lines[k].Data == resident[k] && LoadResult(files, k).Ok?
    ensures !lines[k].isChangedAfterCreateLoadOrSave ==> LoadResult(files, k) == Ok(resident[k])
  {
    assert Line(lines, resident, files, regions, arrays, k);
  }

  /** Dropping a line leaves a good cache. */
  lemma GoodWithout(lines: map<RegionIndex, Region>, resident: map<RegionIndex, RegionData>, files: Directory,
                    regions: set<Region>, arrays: set<array<Byte>>, key: RegionIndex)
    requires Good(lines, resident, files, regions, arrays)
    ensures Good(lines - {key}, resident - {key}, files, regions, arrays)
  {
    var lines', resident' := lines - {key}, resident - {key};
    forall k | k in lines'
      ensures Line(lines', resident', files, regions, arrays, k)
    {
      assert Line(lines, resident, files, regions, arrays, k);
    }
    forall k, j | k in lines' && j in lines' && k != j
      ensures Apart(lines', k, j)
    {
      assert Apart(lines, k, j);
    }
  }

  /**
   * Adding a line for a region the cache does not own, whose chunk arrays
   * are new too, leaves a good cache that owns it.
   */
  lemma GoodWith(lines: map<RegionIndex, Region>, resident: map<RegionIndex, RegionData>, files: Directory,
                 regions: set<Region>, arrays: set<array<Byte>>, key: RegionIndex, r: Region, d: RegionData)
    requires Good(lines, resident, files, regions, arrays) && key !in lines
    requires r !in regions && r.Footprint() !! arrays && WellFormed(d)
    requires LineOk(r, d, LoadResult(files, key))
    ensures Good(lines[key := r], resident[key := d], files, regions + {r}, arrays + r.Footprint())
  {
    var lines', resident', regions', arrays' := lines[key := r], resident[key := d], regions + {r}, arrays + r.Footprint();
    forall k | k in lines'
      ensures Line(lines', resident', files, regions', arrays', k)
    {
      if k != key {
        assert Line(lines, resident, files, regions, arrays, k);
      }
    }
    forall k, j | k in lines' && j in lines' && k != j
      ensures Apart(lines', k, j)
    {
      if k != key && j != key {
        assert Apart(lines, k, j);
      } else if k == key {
        assert Line(lines, resident, files, regions, arrays, j);
      } else {
        assert Line(lines, resident, files, regions, arrays, k);
      }
    }
  }

  /**
   * Setting line `key` aside: the other lines are a good cache on their
   * own, owning neither the line's region nor its chunk arrays.
   */
  lemma GoodApart(lines: map<RegionIndex, Region>, resident: map<RegionIndex, RegionData>, files: Directory,
                  regions: set<Region>, arrays: set<array<Byte>>, key: RegionIndex)
    requires Good(lines, resident, files, regions, arrays) && key in lines
    ensures Good(lines - {key}, resident - {key}, files, regions - {lines[key]}, arrays - lines[key].Footprint())
  {
    var lines', resident', regions', arrays' := lines - {key}, resident - {key}, regions - {lines[key]}, arrays - lines[key].Footprint();
    forall k | k in lines'
      ensures Line(lines', resident', files, regions', arrays', k)
    {
      assert Line(lines, resident, files, regions, arrays, k);
      assert Apart(lines, k, key);
    }
    forall k, j | k in lines' && j in lines' && k != j
      ensures Apart(lines', k, j)
    {
      assert Apart(lines, k, j);
    }
  }

  /**
   * Putting line `key` back with new contents: when the other lines are a
   * good cache without the line's region and chunk arrays, and the region
   * is good for the new contents, the whole cache is good.
   */
  lemma GoodReplace(lines: map<RegionIndex, Region>, resident: map<RegionIndex, RegionData>, files: Directory,
                    regions: set<Region>, arrays: set<array<Byte>>, key: RegionIndex, d: RegionData)
    requires key in lines && lines[key] in regions && lines[key].Footprint() <= arrays
    requires Good(lines - {key}, resident - {key}, files, regions - {lines[key]}, arrays - lines[key].Footprint())
    requires WellFormed(d) && LineOk(lines[key], d, LoadResult(files, key))
    ensures Good(lines, resident[key := d], files, regions, arrays)
  {
    var r := lines[key];
    GoodWith(lines - {key}, resident - {key}, files, regions - {r}, arrays - r.Footprint(), key, r, d);
    assert (lines - {key})[key := r] == lines;
    assert (resident - {key})[key := d] == resident[key := d];
    assert (regions - {r}) + {r} == regions;
    assert (arrays - r.Footprint()) + r.Footprint() == arrays;
  }
}
