/**
 * The disk-bound model: a directory of region files fronted by a bounded
 * cache of loaded regions. Regions are loaded on demand, the least recently
 * used one is dropped (and saved if it changed) when the cache is full, and
 * `flush` saves every changed region.
 *
 * What the model holds for a region is the resident region when it is
 * cached and otherwise what loading its file gives (`Stored`). Every
 * operation except `setBlock` keeps that unchanged: the cache is invisible.
 */
module DiskBoundModels {
  import opened KotlinInt
  import opened Outcomes
  import opened BlockPositions
  import opened Limits
  import opened BlockTypes
  import opened Blocks
  import opened Regions
  import opened RegionFiles
  import opened RegionDiscovery
  import opened CachedMaps
  import opened ModelIterators
  import opened Chunks
  import opened CacheLines

  /** What the model holds for region k: the resident contents, otherwise what its file loads as. */
  ghost function Stored(resident: map<RegionIndex, RegionData>, files: Directory, k: RegionIndex): (r: Result<RegionData>)
    requires Cached(resident)
    ensures r.Ok? ==> WellFormed(r.value)
  {
    if k in resident then Ok(resident[k]) else LoadResult(files, k)
  }

  /** Two states of the model that hold the same thing for every region. */
  ghost predicate SameWorld(resident: map<RegionIndex, RegionData>, files: Directory,
                            resident': map<RegionIndex, RegionData>, files': Directory)
    requires Cached(resident) && Cached(resident')
  {
    forall k :: Stored(resident, files, k) == Stored(resident', files', k)
  }

  /** The byte the model holds for a position, or why its region cannot be loaded. */
  ghost function WorldCell(resident: map<RegionIndex, RegionData>, files: Directory, pos: BlockPos): Result<Byte>
    requires Cached(resident) && 0 <= pos.y < 256
  {
    match Stored(resident, files, RegionIndexOf(pos))
    case Ok(d) => Ok(RegionCell(d, pos))
    case Err(e) => Err(e)
  }

  /** The block the model holds at a position: its byte's block type, or why it has none. */
  ghost function BlockAt(resident: map<RegionIndex, RegionData>, files: Directory, pos: BlockPos): Result<BlockType>
    requires Cached(resident) && 0 <= pos.y < 256
  {
    match WorldCell(resident, files, pos)
    case Ok(b) => BlockTypes.Get(b)
    case Err(e) => Err(e)
  }

  /**
   * Dropping resident region k from the cache once its file loads as its
   * contents: the model holds the same thing as before.
   */
  lemma ForgetKeepsWorld(resident: map<RegionIndex, RegionData>, files: Directory, k: RegionIndex)
    requires Cached(resident) && k in resident
    requires LoadResult(files, k) == Ok(resident[k])
    ensures Cached(resident - {k})
    ensures SameWorld(resident - {k}, files, resident, files)
  {
  }

  /** Saving a region's contents to its file changes what no other region holds. */
  lemma SaveKeepsOthers(files: Directory, k: RegionIndex, d: RegionData)
    requires WellFormed(d)
    ensures var saved := files[RegionFileName(k) := RegularFile(Serialize(d))];
      LoadResult(saved, k) == Ok(d) &&
      forall j :: j != k ==> LoadResult(saved, j) == LoadResult(files, j)
  {
    var saved := files[RegionFileName(k) := RegularFile(Serialize(d))];
    SaveThenLoad(files, k, d, k);
    forall j | j != k
      ensures LoadResult(saved, j) == LoadResult(files, j)
    {
      SaveThenLoad(files, k, d, j);
    }
  }

  /**
   * Loading region k into the cache from its file: the model holds the same
   * thing as before.
   */
  lemma LoadKeepsWorld(resident: map<RegionIndex, RegionData>, files: Directory, k: RegionIndex, d: RegionData)
    requires Cached(resident) && k !in resident && WellFormed(d)
    requires LoadResult(files, k) == Ok(d)
    ensures Cached(resident[k := d])
    ensures SameWorld(resident[k := d], files, resident, files)
  {
  }

  /** Storing a byte that is already there leaves a region as it was. */
  lemma SetSameCell(d: RegionData, pos: BlockPos, v: Byte)
    requires WellFormed(d) && 0 <= pos.y < 256 && RegionCell(d, pos) == v
    ensures SetCell(d, pos, v) == d
  {
    var c := ChunkIndex(LocalChunkX(pos), LocalChunkZ(pos));
    assert d[c][CellOf(pos) := v] == d[c];
  }

  /**
   * The directory after saving, in the order of `keys`, each key of `dirty`
   * with its resident contents; the other keys are skipped.
   */
  ghost function SaveAll(files: Directory, resident: map<RegionIndex, RegionData>,
                         keys: seq<RegionIndex>, dirty: set<RegionIndex>): Directory
    requires dirty <= resident.Keys
  {
    if |keys| == 0 then files
    else
      var last := keys[|keys| - 1];
      var saved := SaveAll(files, resident, keys[..|keys| - 1], dirty);
      if last in dirty then saved[RegionFileName(last) := RegularFile(Serialize(resident[last]))] else saved
  }

  /** Saving one more key of a sequence. */
  lemma SaveAllStep(files: Directory, resident: map<RegionIndex, RegionData>,
                    keys: seq<RegionIndex>, dirty: set<RegionIndex>, i: int)
    requires dirty <= resident.Keys && 0 <= i < |keys|
    ensures SaveAll(files, resident, keys[..i + 1], dirty) ==
      var saved := SaveAll(files, resident, keys[..i], dirty);
      if keys[i] in dirty then saved[RegionFileName(keys[i]) := RegularFile(Serialize(resident[keys[i]]))] else saved
  {
    assert keys[..i + 1][..i] == keys[..i];
  }

  /** After saving, a saved region loads as its resident contents and every other region as before. */
  lemma {:induction false} SaveAllLoads(files: Directory, resident: map<RegionIndex, RegionData>,
                                        keys: seq<RegionIndex>, dirty: set<RegionIndex>, k: RegionIndex)
    requires Cached(resident) && dirty <= resident.Keys
    ensures LoadResult(SaveAll(files, resident, keys, dirty), k) ==
      if k in dirty && k in keys then Ok(resident[k]) else LoadResult(files, k)
  {
    if |keys| > 0 {
      var init, last := keys[..|keys| - 1], keys[|keys| - 1];
      assert keys == init + [last];
      SaveAllLoads(files, resident, init, dirty, k);
      if last in dirty {
        SaveThenLoad(SaveAll(files, resident, init, dirty), last, resident[last], k);
      }
    }
  }

  /** Saving writes no entry but the files of the saved regions. */
  lemma {:induction false} SaveAllTouchesOnlyDirty(files: Directory, resident: map<RegionIndex, RegionData>,
                                                   keys: seq<RegionIndex>, dirty: set<RegionIndex>, name: string)
    requires dirty <= resident.Keys
    requires forall k :: k in dirty && k in keys ==> RegionFileName(k) != name
    ensures name in SaveAll(files, resident, keys, dirty) <==> name in files
    ensures name in files ==> SaveAll(files, resident, keys, dirty)[name] == files[name]
  {
    if |keys| > 0 {
      var init := keys[..|keys| - 1];
      assert forall k :: k in init ==> k in keys;
      SaveAllTouchesOnlyDirty(files, resident, init, dirty, name);
    }
  }

  /**
   * The model after storing byte v at `pos`: the region of `pos` could be
   * loaded and now holds that byte there and its old bytes everywhere else,
   * and every other region holds the same as before.
   */
  ghost predicate StoredAfterSet(resident': map<RegionIndex, RegionData>, files': Directory,
                                 resident: map<RegionIndex, RegionData>, files: Directory, pos: BlockPos, v: Byte)
    requires Cached(resident') && Cached(resident) && 0 <= pos.y < 256
  {
    var k := RegionIndexOf(pos);
    Stored(resident, files, k).Ok? &&
    Stored(resident', files', k) == Ok(SetCell(Stored(resident, files, k).value, pos, v)) &&
    forall j :: j != k ==> Stored(resident', files', j) == Stored(resident, files, j)
  }

  /**
   * Get after set on the whole model: after storing v at `pos`, `pos` holds
   * v and every other position holds what it held.
   */
  lemma WorldAfterSet(resident': map<RegionIndex, RegionData>, files': Directory,
                      resident: map<RegionIndex, RegionData>, files: Directory, pos: BlockPos, v: Byte, q: BlockPos)
    requires Cached(resident') && Cached(resident) && 0 <= pos.y < 256 && 0 <= q.y < 256
    requires StoredAfterSet(resident', files', resident, files, pos, v)
    ensures WorldCell(resident', files', q) == if q == pos then Ok(v) else WorldCell(resident, files, q)
  {
    if RegionIndexOf(q) == RegionIndexOf(pos) {
      GetAfterSet(Stored(resident, files, RegionIndexOf(pos)).value, pos, q, v);
    }
  }

  /**
   * Storing v at `pos` in a resident region, after a load that kept what
   * the model holds: the model holds v there and the same as before
   * everywhere else.
   */
  lemma SetAfterLoad(resident': map<RegionIndex, RegionData>, loaded: map<RegionIndex, RegionData>,
                     resident: map<RegionIndex, RegionData>, files': Directory, files: Directory, pos: BlockPos, v: Byte)
    requires Cached(loaded) && Cached(resident) && 0 <= pos.y < 256
    requires SameWorld(loaded, files', resident, files)
    requires RegionIndexOf(pos) in loaded
    requires resident' == loaded[RegionIndexOf(pos) := SetCell(loaded[RegionIndexOf(pos)], pos, v)]
    ensures Cached(resident') && StoredAfterSet(resident', files', resident, files, pos, v)
  {
    var k := RegionIndexOf(pos);
    assert Stored(loaded, files', k) == Stored(resident, files, k);
    forall j | j != k
      ensures Stored(resident', files', j) == Stored(resident, files, j)
    {
      assert Stored(loaded, files', j) == Stored(resident, files, j);
    }
  }

  /** After `setBlock` stores a block, reading that position gives the block back. */
  lemma BlockAfterSet(resident': map<RegionIndex, RegionData>, files': Directory,
                      resident: map<RegionIndex, RegionData>, files: Directory, pos: BlockPos, t: BlockType)
    requires Cached(resident') && Cached(resident) && 0 <= pos.y < 256
    requires StoredAfterSet(resident', files', resident, files, pos, t.Value())
    ensures BlockAt(resident', files', pos) == Ok(t)
  {
    WorldAfterSet(resident', files', resident, files, pos, t.Value(), pos);
    GetValue(t);
  }

  /** The model holds contents `datas[h]` for key `keys[h]`, for every h. */
  ghost predicate HoldsAll(resident: map<RegionIndex, RegionData>, files: Directory,
                           keys: seq<RegionIndex>, datas: seq<RegionData>)
    requires Cached(resident)
  {
    |keys| == |datas| && forall h :: 0 <= h < |keys| ==> Stored(resident, files, keys[h]) == Ok(datas[h])
  }

  /** The contents of one more key extend what the keys so far hold. */
  lemma HoldsAllAppend(resident: map<RegionIndex, RegionData>, files: Directory,
                       keys: seq<RegionIndex>, datas: seq<RegionData>, i: int, d: RegionData)
    requires Cached(resident) && 0 <= i < |keys|
    requires HoldsAll(resident, files, keys[..i], datas) && Stored(resident, files, keys[i]) == Ok(d)
    ensures HoldsAll(resident, files, keys[..i + 1], datas + [d])
  {
    assert keys[..i + 1] == keys[..i] + [keys[i]];
  }

  /** Keys that hold contents can all be loaded. */
  lemma HoldsAllOk(resident: map<RegionIndex, RegionData>, files: Directory,
                   keys: seq<RegionIndex>, datas: seq<RegionData>)
    requires Cached(resident) && HoldsAll(resident, files, keys, datas)
    ensures forall k :: k in keys ==> Stored(resident, files, k).Ok?
  {
    forall k | k in keys
      ensures Stored(resident, files, k).Ok?
    {
      var h :| 0 <= h < |keys| && keys[h] == k;
    }
  }

  /** The state of the model's path when the model is opened. */
  datatype ModelPath =
    | Missing(mkdirsSucceeds: bool)        // nothing there yet; whether `mkdirs()` succeeds
    | ExistingFile                         // something that is not a directory
    | ExistingDirectory(files: Directory)  // a directory and its entries

  /**
   * The reading half of `loadRegionFileFromDisk`: a new region stamped
   * `now`; a missing file leaves it empty, a regular file is read into it,
   * and any other entry is an error. What it yields is what `LoadResult`
   * says.
   */
  method ReadRegionFile(files: Directory, key: RegionIndex, now: int) returns (r: Result<Region>)
    ensures r.Ok? <==> LoadResult(files, key).Ok?
    ensures r.Err? ==> r.error == LoadResult(files, key).error
    ensures r.Ok? ==> fresh(r.value) && fresh(r.value.Footprint()) && r.value.lastAccessTime == now
    ensures r.Ok? ==> LineOk(r.value, LoadResult(files, key).value, LoadResult(files, key))
  {
    var name := RegionFileName(key);
    var newRegion := new Region(now);
    if name in files {
      match files[name]
      case Subdirectory(_) =>
        return Err(NotAFile(name));
      case RegularFile(bytes) =>
        var outcome, _ := newRegion.Read(bytes);
        if outcome.Fail? {
          return Err(outcome.error);
        }
    }
    EmptyRegionWellFormed();
    r := Ok(newRegion);
  }

  /**
   * The time source standing in for `Instant.now()`: a logical clock that
   * moves on at every reading, so later stamps are larger.
   */
  class Clock {
    var now: int

    constructor ()
      ensures now == 0
    {
      now := 0;
    }
  }

  class DiskBoundModel {
    /** `regionsByIndex`. */
    const cache: CachedMap<RegionIndex, Region>
    /** The model directory. */
    var files: Directory
    /** The time source the regions are stamped from. */
    const clock: Clock
    /** The contents of the resident regions. */
    ghost var Resident: map<RegionIndex, RegionData>
    /** Every region this model has loaded, and their chunk arrays. */
    ghost var Regions: set<Region>
    ghost var Arrays: set<array<Byte>>

    /** The region cached for k. */
    function RegionAt(k: RegionIndex): Region
      reads cache`lines
      requires k in cache.lines
    {
      cache.lines[k]
    }

    /** Everything but the line budget: the cache is well formed and its lines are good. */
    ghost predicate Consistent()
      reads this, cache`lines, cache`order, Regions, Arrays
    {
      cache.Valid() && cache.lineSizeMB == DISK_REGION_SIZE_MB_APPROX &&
      Good(cache.lines, Resident, files, Regions, Arrays)
    }

    ghost predicate Valid()
      reads this, cache, Regions, Arrays
    {
      Consistent() && |cache.lines| <= cache.MaxLines()
    }

    /** A model with an empty cache over a directory and the default budget. */
    constructor (files: Directory)
      ensures Valid() && fresh(cache) && fresh(clock)
      ensures this.files == files && Resident == map[] && cache.maxCacheSizeMB == DEFAULT_MAX_CACHE_SIZE_MB
    {
      cache := new CachedMap(DEFAULT_MAX_CACHE_SIZE_MB, DISK_REGION_SIZE_MB_APPROX);
      this.files := files;
      clock := new Clock();
      Resident := map[];
      Regions := {};
      Arrays := {};
      new;
      MaxCacheLineCountMeaning(DEFAULT_MAX_CACHE_SIZE_MB, DISK_REGION_SIZE_MB_APPROX);
    }

    /** `ensureRegionFileSavedToDisk`: a changed region is written to its file and is clean afterwards; a clean one is left alone. */
    method EnsureRegionFileSavedToDisk(k: RegionIndex, region: Region)
      requires region.Valid()
      modifies this`files, region`isChangedAfterCreateLoadOrSave
      ensures !region.isChangedAfterCreateLoadOrSave
      ensures files == if old(region.isChangedAfterCreateLoadOrSave)
        then old(files)[RegionFileName(k) := RegularFile(Serialize(region.Data))]
        else old(files)
    {
      if region.isChangedAfterCreateLoadOrSave {
        var bytes := region.Write();
        files := files[RegionFileName(k) := RegularFile(bytes)];
      }
    }

    /**
     * `removeOldestCacheLine`: the line with no older line leaves the cache,
     * the other lines stay as they were, and the dropped region is saved if
     * it changed. (The source removes the line and then saves it; nothing
     * reads the cache in between, so saving first is the same.)
     */
    method RemoveOldestCacheLine() returns (oldest: RegionIndex)
      requires Consistent() && |cache.lines| > 0
      modifies this`files, this`Resident, cache`lines, cache`order, Regions`isChangedAfterCreateLoadOrSave
      ensures Consistent()
      ensures oldest in old(cache.lines) && cache.lines == old(cache.lines) - {oldest}
      ensures forall k :: k in old(cache.lines) ==>
        old(cache.lines[oldest].lastAccessTime) <= old(cache.lines[k].lastAccessTime)
      ensures SameWorld(Resident, files, old(Resident), old(files))
    {
      oldest := OldestLine();
      GoodLine(cache.lines, Resident, files, Regions, Arrays, oldest);
      SaveLine(oldest);
      ForgetLine(oldest);
    }

    /**
     * `maxOfWith(cacheLineAgeComparator)` over the lines: a line no line is
     * older than, the first such line in insertion order.
     */
    method OldestLine() returns (oldest: RegionIndex)
      requires Consistent() && |cache.lines| > 0
      ensures oldest in cache.lines
      ensures forall k :: k in cache.lines ==> cache.lines[oldest].lastAccessTime <= cache.lines[k].lastAccessTime
      ensures exists i :: 0 <= i < |cache.order| && cache.order[i] == oldest &&
                          (forall h :: 0 <= h < i ==>
                             cache.order[h] in cache.lines &&
                             cache.lines[cache.order[h]].lastAccessTime > cache.lines[oldest].lastAccessTime)
    {
      var ages := map k | k in cache.lines :: cache.lines[k].lastAccessTime;
      oldest := cache.OldestKey(ages);
    }

    /**
     * `onDrop` for line `key`: its region is saved if it changed (and is
     * clean afterwards); no other file and no line changes.
     */
    method SaveLine(key: RegionIndex)
      requires Consistent() && key in cache.lines
      modifies this`files, RegionAt(key)`isChangedAfterCreateLoadOrSave
      ensures Consistent()
      ensures !RegionAt(key).isChangedAfterCreateLoadOrSave
      ensures files == if old(RegionAt(key).isChangedAfterCreateLoadOrSave)
        then old(files)[RegionFileName(key) := RegularFile(Serialize(Resident[key]))]
        else old(files)
      ensures LoadResult(files, key) == Ok(Resident[key])
      ensures DirtyKeys(cache.lines) == old(DirtyKeys(cache.lines)) - {key}
      ensures SameWorld(Resident, files, Resident, old(files))
    {
      var region := cache.lines[key];
      GoodLine(cache.lines, Resident, files, Regions, Arrays, key);
      forall k | k in cache.lines && k != key
        ensures RegionAt(k) != region
      {
        assert Apart(cache.lines, k, key);
      }
      ghost var before := files;
      EnsureRegionFileSavedToDisk(key, region);
      SaveKeepsOthers(before, key, Resident[key]);
      Saved(key);
      Cleaned(key);
    }

    /** After line `key` is saved, every line is as good as before. */
    twostate lemma Saved(key: RegionIndex)
      requires old(Consistent()) && key in cache.lines
      requires cache.lines == old(cache.lines) && cache.order == old(cache.order) && Resident == old(Resident)
      requires Regions == old(Regions) && Arrays == old(Arrays)
      requires LoadResult(files, key) == Ok(Resident[key])
      requires forall j :: j != key ==> LoadResult(files, j) == LoadResult(old(files), j)
      requires forall r :: r in Regions && r != RegionAt(key) ==> unchanged(r)
      requires unchanged(RegionAt(key)`Data) && unchanged(Arrays) && !RegionAt(key).isChangedAfterCreateLoadOrSave
      ensures Consistent()
      ensures SameWorld(Resident, files, Resident, old(files))
    {
      var lines := cache.lines;
      forall k | k in lines
        ensures Line(lines, Resident, files, Regions, Arrays, k)
      {
        assert old(Line(lines, Resident, files, Regions, Arrays, k));
        if k != key {
          assert Apart(lines, k, key);
        }
      }
    }

    /** Cleaning line `key` and touching no other line's flag takes `key` out of the dirty lines. */
    twostate lemma Cleaned(key: RegionIndex)
      requires key in cache.lines && cache.lines == old(cache.lines)
      requires forall k :: k in cache.lines && k != key ==> unchanged(RegionAt(k)`isChangedAfterCreateLoadOrSave)
      requires !RegionAt(key).isChangedAfterCreateLoadOrSave
      ensures DirtyKeys(cache.lines) == old(DirtyKeys(cache.lines)) - {key}
    {
    }

    /**
     * `loadedCacheLines.remove(key)` for a line whose file already loads as
     * its contents: the line leaves the cache and the model holds the same.
     */
    method ForgetLine(key: RegionIndex)
      requires Consistent() && key in cache.lines && LoadResult(files, key) == Ok(Resident[key])
      modifies this`Resident, cache`lines, cache`order
      ensures Consistent()
      ensures cache.lines == old(cache.lines) - {key} && cache.order == Without(old(cache.order), key)
      ensures Resident == old(Resident) - {key}
      ensures SameWorld(Resident, files, old(Resident), files)
    {
      GoodWithout(cache.lines, Resident, files, Regions, Arrays, key);
      ForgetKeepsWorld(Resident, files, key);
      cache.Remove(key);
      Resident := Resident - {key};
    }

    /**
     * `reduceCacheSizeIfNecessary`: evict oldest lines until at most the
     * budget's line count (one fewer when making room for a new line)
     * remain, each eviction taking a line with no older line. Only evicted
     * lines leave, the kept lines are untouched, and the model holds the
     * same thing as before.
     */
    method ReduceCacheSizeIfNecessary(enableRoomForNewCacheLine: bool)
      requires Consistent()
      modifies this`files, this`Resident, cache`lines, cache`order, Regions`isChangedAfterCreateLoadOrSave
      ensures Consistent()
      ensures |cache.lines| == Min(|old(cache.lines)|, cache.MaxLines() - if enableRoomForNewCacheLine then 1 else 0)
      ensures KeptLines(cache.lines, old(cache.lines))
      ensures SameWorld(Resident, files, old(Resident), old(files))
      ensures Regions == old(Regions) && Arrays == old(Arrays)
    {
      var maxCacheLineCount: Int32 := Quot(cache.maxCacheSizeMB, cache.lineSizeMB);
      if maxCacheLineCount <= 0 {
        maxCacheLineCount := 1;
      }
      if enableRoomForNewCacheLine {
        maxCacheLineCount := maxCacheLineCount - 1;
      }
      while |cache.lines| > maxCacheLineCount
        invariant Consistent()
        invariant Min(|old(cache.lines)|, maxCacheLineCount) <= |cache.lines| <= |old(cache.lines)|
        invariant KeptLines(cache.lines, old(cache.lines))
        invariant SameWorld(Resident, files, old(Resident), old(files))
        decreases |cache.lines|
      {
        var oldest := RemoveOldestCacheLine();
      }
    }

    /**
     * The `maxCacheSizeMB` setter: store the new budget and evict down to it.
     * It never loads: the lines left are old lines, as many as the new
     * budget allows, and the model holds the same thing as before.
     */
    method SetMaxCacheSizeMB(value: Int32)
      requires Valid()
      modifies this`files, this`Resident, cache`lines, cache`order, cache`maxCacheSizeMB,
        Regions`isChangedAfterCreateLoadOrSave
      ensures Valid() && cache.maxCacheSizeMB == value
      ensures |cache.lines| == Min(|old(cache.lines)|, cache.MaxLines())
      ensures KeptLines(cache.lines, old(cache.lines))
      ensures SameWorld(Resident, files, old(Resident), old(files))
    {
      cache.maxCacheSizeMB := value;
      ReduceCacheSizeIfNecessary(false);
    }

    /** What `flush` has done once it has saved the first `i` lines of the insertion order. */
    ghost predicate FlushedUpTo(i: int, dirty: set<RegionIndex>, start: Directory)
      reads this, cache`lines, cache`order, Regions, Arrays, cache.lines.Values
    {
      0 <= i <= |cache.order| && Consistent() && dirty <= Resident.Keys &&
      DirtyKeys(cache.lines) == dirty - Elems(cache.order[..i]) &&
      files == SaveAll(start, Resident, cache.order[..i], dirty) &&
      Cached(Resident) && SameWorld(Resident, files, Resident, start)
    }

    /** One step of `flush`: save the `i`th line in insertion order. */
    method FlushLine(i: int, ghost dirty: set<RegionIndex>, ghost start: Directory)
      requires FlushedUpTo(i, dirty, start) && i < |cache.order|
      modifies this`files, Regions`isChangedAfterCreateLoadOrSave
      ensures FlushedUpTo(i + 1, dirty, start)
    {
      var key := cache.order[i];
      ElemsContains(cache.order, key);
      DistinctPrefixFresh(cache.order, i);
      ElemsPrefix(cache.order, i);
      GoodLine(cache.lines, Resident, files, Regions, Arrays, key);
      SaveAllStep(start, Resident, cache.order, dirty, i);
      assert key in DirtyKeys(cache.lines) <==> RegionAt(key).isChangedAfterCreateLoadOrSave;
      assert key in dirty <==> key in DirtyKeys(cache.lines);
      SaveLine(key);
    }

    /**
     * `flush`: save every changed line, in insertion order, and nothing
     * else. Afterwards every line is clean, the lines are the same, and the
     * directory alone holds what the model held.
     */
    method Flush()
      requires Valid()
      modifies this`files, Regions`isChangedAfterCreateLoadOrSave
      ensures Valid()
      ensures cache.lines == old(cache.lines) && Resident == old(Resident)
      ensures files == SaveAll(old(files), Resident, cache.order, old(DirtyKeys(cache.lines)))
      ensures DirtyKeys(cache.lines) == {}
      ensures forall k :: LoadResult(files, k) == Stored(Resident, old(files), k)
    {
      ghost var dirty := DirtyKeys(cache.lines);
      var i := 0;
      while i < |cache.order|
        invariant FlushedUpTo(i, dirty, old(files))
        decreases |cache.order| - i
      {
        FlushLine(i, dirty, old(files));
        i := i + 1;
      }
      assert cache.order[..i] == cache.order;
      forall k
        ensures LoadResult(files, k) == Stored(Resident, old(files), k)
      {
        if k in cache.lines {
          GoodLine(cache.lines, Resident, files, Regions, Arrays, k);
        }
      }
    }

    /**
     * `loadRegionFileFromDisk`: a new region stamped with the clock, read
     * from the file of `key`; the clock moves on and nothing else changes.
     */
    method LoadRegionFileFromDisk(key: RegionIndex) returns (r: Result<Region>)
      requires Consistent()
      modifies clock
      ensures Consistent()
      ensures r.Ok? <==> LoadResult(files, key).Ok?
      ensures r.Err? ==> r.error == LoadResult(files, key).error
      ensures r.Ok? ==> fresh(r.value) && fresh(r.value.Footprint()) && r.value.lastAccessTime == old(clock.now)
      ensures r.Ok? ==> LineOk(r.value, LoadResult(files, key).value, LoadResult(files, key))
    {
      r := ReadRegionFile(files, key, clock.now);
      clock.now := clock.now + 1;
    }

    /**
     * `regionsByIndex[key]` (`CachedMap.get` and `loadToCache`): a resident
     * line is returned with nothing changed; otherwise the cache is reduced
     * to make room, the region is loaded once, and on success it becomes a
     * line. Either way the model holds the same thing as before, and the
     * region returned holds what the model holds for `key`.
     */
    method Get(key: RegionIndex) returns (r: Result<Region>)
      requires Valid()
      modifies this`files, this`Resident, this`Regions, this`Arrays, clock, cache`lines, cache`order,
        Regions`isChangedAfterCreateLoadOrSave
      ensures Valid() && fresh(Regions - old(Regions)) && fresh(Arrays - old(Arrays))
      ensures SameWorld(Resident, files, old(Resident), old(files))
      ensures r.Ok? <==> old(Stored(Resident, files, key)).Ok?
      ensures r.Err? ==> r.error == old(Stored(Resident, files, key)).error
      ensures r.Ok? ==> key in cache.lines && r.value == RegionAt(key) && Resident[key] == old(Stored(Resident, files, key)).value
      ensures key in old(cache.lines) ==>
        r == Ok(old(RegionAt(key))) && cache.lines == old(cache.lines) && files == old(files) && Resident == old(Resident)
      ensures key !in old(cache.lines) ==>
        |cache.lines| == Min(|old(cache.lines)|, cache.MaxLines() - 1) + if r.Ok? then 1 else 0
      ensures KeptLines(cache.lines - {key}, old(cache.lines))
      ensures r.Ok? ==> r.value in old(Regions) || fresh(r.value)
    {
      if key in cache.lines {
        GoodLine(cache.lines, Resident, files, Regions, Arrays, key);
        return Ok(cache.lines[key]);
      }
      r := LoadToCache(key);
    }

    /**
     * `loadToCache`: the miss path of `Get`. The cache is reduced to one
     * line below the budget, then the region is read; a failed read leaves
     * the eviction done and adds no line.
     */
    method LoadToCache(key: RegionIndex) returns (r: Result<Region>)
      requires Valid() && key !in cache.lines
      modifies this`files, this`Resident, this`Regions, this`Arrays, clock, cache`lines, cache`order,
        Regions`isChangedAfterCreateLoadOrSave
      ensures Valid()
      ensures Regions == old(Regions) + (if r.Ok? then {r.value} else {})
      ensures Arrays == old(Arrays) + (if r.Ok? then r.value.Footprint() else {})
      ensures r.Ok? ==> fresh(r.value) && fresh(r.value.Footprint())
      ensures SameWorld(Resident, files, old(Resident), old(files))
      ensures r.Ok? <==> old(LoadResult(files, key)).Ok?
      ensures r.Err? ==> r.error == old(LoadResult(files, key)).error
      ensures r.Ok? ==> key in cache.lines && r.value == RegionAt(key) && Resident[key] == old(LoadResult(files, key)).value
      ensures |cache.lines| == Min(|old(cache.lines)|, cache.MaxLines() - 1) + if r.Ok? then 1 else 0
      ensures KeptLines(cache.lines - {key}, old(cache.lines))
    {
      r := ReadAndMakeRoom(key);
      if r.Ok? {
        AddLine(key, r.value);
      }
    }

    /** The first half of `loadToCache`: evict down to one line below the budget, then read the region of `key`. */
    method ReadAndMakeRoom(key: RegionIndex) returns (r: Result<Region>)
      requires Valid() && key !in cache.lines
      modifies this`files, this`Resident, clock, cache`lines, cache`order, Regions`isChangedAfterCreateLoadOrSave
      ensures Consistent() && key !in cache.lines
      ensures cache.MaxLines() == old(cache.MaxLines())
      ensures Regions == old(Regions) && Arrays == old(Arrays)
      ensures SameWorld(Resident, files, old(Resident), old(files))
      ensures LoadResult(files, key) == old(LoadResult(files, key))
      ensures r.Ok? <==> LoadResult(files, key).Ok?
      ensures r.Err? ==> r.error == LoadResult(files, key).error
      ensures r.Ok? ==> fresh(r.value) && fresh(r.value.Footprint())
      ensures r.Ok? ==> LineOk(r.value, LoadResult(files, key).value, LoadResult(files, key))
      ensures |cache.lines| == Min(|old(cache.lines)|, cache.MaxLines() - 1) && |cache.lines| < cache.MaxLines()
      ensures KeptLines(cache.lines, old(cache.lines))
    {
      MakeRoom(key);
      r := LoadRegionFileFromDisk(key);
    }

    /** `reduceCacheSizeIfNecessary(true)` before line `key` is loaded: the file of `key` is not touched. */
    method MakeRoom(key: RegionIndex)
      requires Valid() && key !in cache.lines
      modifies this`files, this`Resident, cache`lines, cache`order, Regions`isChangedAfterCreateLoadOrSave
      ensures Consistent() && key !in cache.lines
      ensures cache.MaxLines() == old(cache.MaxLines())
      ensures Regions == old(Regions) && Arrays == old(Arrays)
      ensures SameWorld(Resident, files, old(Resident), old(files))
      ensures LoadResult(files, key) == old(LoadResult(files, key))
      ensures |cache.lines| == Min(|old(cache.lines)|, cache.MaxLines() - 1) && |cache.lines| < cache.MaxLines()
      ensures KeptLines(cache.lines, old(cache.lines))
    {
      ReduceCacheSizeIfNecessary(true);
      GoodKeys(cache.lines, Resident, files, Regions, Arrays);
      assert Stored(Resident, files, key) == old(Stored(Resident, files, key));
    }

    /** `loadedCacheLines[key] = newCacheLine` for a new region holding what the file of `key` loads as. */
    method AddLine(key: RegionIndex, region: Region)
      requires Consistent() && key !in cache.lines
      requires region !in Regions && region.Footprint() !! Arrays
      requires LoadResult(files, key).Ok? && LineOk(region, LoadResult(files, key).value, LoadResult(files, key))
      modifies this`Resident, this`Regions, this`Arrays, cache`lines, cache`order
      ensures Consistent()
      ensures cache.lines == old(cache.lines)[key := region] && Resident == old(Resident)[key := LoadResult(files, key).value]
      ensures cache.MaxLines() == old(cache.MaxLines())
      ensures Regions == old(Regions) + {region} && Arrays == old(Arrays) + region.Footprint()
      ensures SameWorld(Resident, files, old(Resident), files)
    {
      Admit(key, region);
      cache.Put(key, region);
    }

    /** The model's side of adding line `key`: it owns the new region and holds what its file loads as. */
    ghost method Admit(key: RegionIndex, region: Region)
      requires Consistent() && key !in cache.lines
      requires region !in Regions && region.Footprint() !! Arrays
      requires LoadResult(files, key).Ok? && LineOk(region, LoadResult(files, key).value, LoadResult(files, key))
      modifies this`Resident, this`Regions, this`Arrays
      ensures Good(cache.lines[key := region], Resident, files, Regions, Arrays)
      ensures Resident == old(Resident)[key := LoadResult(files, key).value]
      ensures Regions == old(Regions) + {region} && Arrays == old(Arrays) + region.Footprint()
      ensures SameWorld(Resident, files, old(Resident), files)
    {
      GoodKeys(cache.lines, Resident, files, Regions, Arrays);
      GoodWith(cache.lines, Resident, files, Regions, Arrays, key, region, region.Data);
      LoadKeepsWorld(Resident, files, key, region.Data);
      Resident, Regions, Arrays := Resident[key := region.Data], Regions + {region}, Arrays + region.Footprint();
    }

    /**
     * `getBlock`: the block type of the byte the model holds at `pos`, read
     * from its region through the cache; the model holds the same thing
     * afterwards. A byte that names no block type is an error, as is a
     * region that cannot be loaded.
     */
    method GetBlock(pos: BlockPos) returns (r: Result<BlockType>)
      requires Valid() && 0 <= pos.y < 256
      modifies this`files, this`Resident, this`Regions, this`Arrays, clock, cache`lines, cache`order,
        Regions`isChangedAfterCreateLoadOrSave, Regions`lastAccessTime
      ensures Valid() && fresh(Regions - old(Regions)) && fresh(Arrays - old(Arrays))
      ensures SameWorld(Resident, files, old(Resident), old(files))
      ensures r == old(BlockAt(Resident, files, pos))
    {
      var key := RegionIndexOf(pos);
      var region := Get(key);
      if region.Err? {
        return Err(region.error);
      }
      r := ReadCell(key, pos);
    }

    /** `Region.getBlock` on the line of `key`: it stamps the region and changes nothing the model holds. */
    method ReadCell(key: RegionIndex, pos: BlockPos) returns (r: Result<BlockType>)
      requires Valid() && key in cache.lines && 0 <= pos.y < 256
      modifies RegionAt(key)`lastAccessTime, clock
      ensures Valid()
      ensures r == BlockTypes.Get(RegionCell(Resident[key], pos))
    {
      var region := cache.lines[key];
      GoodLine(cache.lines, Resident, files, Regions, Arrays, key);
      r := region.GetBlock(pos, clock.now);
      clock.now := clock.now + 1;
      Stamped();
    }

    /** Stamping regions and moving the clock leave a valid model valid. */
    twostate lemma Stamped()
      requires old(Valid())
      requires files == old(files) && Resident == old(Resident) && Regions == old(Regions) && Arrays == old(Arrays)
      requires cache.lines == old(cache.lines) && cache.order == old(cache.order) && cache.maxCacheSizeMB == old(cache.maxCacheSizeMB)
      requires forall r :: r in Regions ==> unchanged(r`Data, r`isChangedAfterCreateLoadOrSave)
      requires unchanged(Arrays)
      ensures Valid()
    {
      forall k | k in cache.lines
        ensures Line(cache.lines, Resident, files, Regions, Arrays, k)
      {
        assert old(Line(cache.lines, Resident, files, Regions, Arrays, k));
      }
    }

    /**
     * `getHighestBlockY`: the highest y of the column at `pos` whose byte
     * is not NONE in what the model holds for the column's region, or none
     * when the column has no blocks; the model holds the same thing
     * afterwards.
     */
    method GetHighestBlockY(pos: HorBlockPos) returns (r: Result<Option<Int32>>)
      requires Valid()
      modifies this`files, this`Resident, this`Regions, this`Arrays, clock, cache`lines, cache`order,
        Regions`isChangedAfterCreateLoadOrSave, Regions`lastAccessTime
      ensures Valid() && fresh(Regions - old(Regions)) && fresh(Arrays - old(Arrays))
      ensures SameWorld(Resident, files, old(Resident), old(files))
      ensures r == match old(Stored(Resident, files, ColumnRegionIndex(pos)))
                   case Ok(d) => Ok(HighestNonEmpty(d, pos, 255))
                   case Err(e) => Err(e)
    {
      var key := ColumnRegionIndex(pos);
      var region := Get(key);
      if region.Err? {
        return Err(region.error);
      }
      var y := ReadColumn(key, pos);
      r := Ok(y);
    }

    /** `Region.getHighestBlockY` on the line of `key`: it stamps the region and changes nothing the model holds. */
    method ReadColumn(key: RegionIndex, pos: HorBlockPos) returns (r: Option<Int32>)
      requires Valid() && key in cache.lines
      modifies RegionAt(key)`lastAccessTime, clock
      ensures Valid() && WellFormed(Resident[key])
      ensures r == HighestNonEmpty(Resident[key], pos, 255)
    {
      var region := cache.lines[key];
      GoodLine(cache.lines, Resident, files, Regions, Arrays, key);
      r := region.GetHighestBlockY(pos, clock.now);
      clock.now := clock.now + 1;
      Stamped();
    }

    /**
     * `setBlock`: store the block's byte at `pos` in the region that holds
     * it, through the cache. A position outside the model's limits is only
     * warned about (`warned`); the byte is stored all the same. When the
     * region cannot be loaded nothing the model holds changes.
     */
    method SetBlock(pos: BlockPos, block: BlockType) returns (warned: bool, r: Outcome)
      requires Valid() && 0 <= pos.y < 256
      modifies this`files, this`Resident, this`Regions, this`Arrays, clock, cache`lines, cache`order,
        Regions`isChangedAfterCreateLoadOrSave, Regions`lastAccessTime, Regions`Data, Arrays
      ensures Valid() && fresh(Regions - old(Regions)) && fresh(Arrays - old(Arrays))
      ensures warned <==> !IsWithinLimits(pos)
      ensures r.Fail? <==> old(Stored(Resident, files, RegionIndexOf(pos))).Err?
      ensures r.Fail? ==> r.error == old(Stored(Resident, files, RegionIndexOf(pos))).error &&
                          SameWorld(Resident, files, old(Resident), old(files))
      ensures r.Pass? ==> StoredAfterSet(Resident, files, old(Resident), old(files), pos, block.Value())
    {
      warned := !IsWithinLimits(pos);
      var key := RegionIndexOf(pos);
      var region := Get(key);
      if region.Err? {
        return warned, Fail(region.error);
      }
      GoodLine(cache.lines, Resident, files, Regions, Arrays, key);
      ghost var loaded := Resident;
      StoreCell(key, pos, block);
      SetAfterLoad(Resident, loaded, old(Resident), files, old(files), pos, block.Value());
      r := Pass;
    }

    /** `Region.setBlock` on the line of `key`, stamped with the clock, which moves on. */
    method StoreCell(key: RegionIndex, pos: BlockPos, block: BlockType)
      requires Valid() && key in cache.lines && 0 <= pos.y < 256
      modifies RegionAt(key)`lastAccessTime, RegionAt(key)`isChangedAfterCreateLoadOrSave, RegionAt(key)`Data,
        RegionAt(key).Footprint(), this`Resident, clock
      ensures Valid() && key in old(Resident) && WellFormed(old(Resident[key]))
      ensures Resident == old(Resident)[key := SetCell(old(Resident[key]), pos, block.Value())]
      ensures Regions == old(Regions) && Arrays == old(Arrays) && files == old(files)
    {
      WriteCell(key, pos, block, clock.now);
      clock.now := clock.now + 1;
    }

    /** `Region.setBlock` on the line of `key`: the line's contents take the new byte, nothing else changes. */
    method WriteCell(key: RegionIndex, pos: BlockPos, block: BlockType, now: int)
      requires Valid() && key in cache.lines && 0 <= pos.y < 256
      modifies RegionAt(key)`lastAccessTime, RegionAt(key)`isChangedAfterCreateLoadOrSave, RegionAt(key)`Data,
        RegionAt(key).Footprint(), this`Resident
      ensures Valid() && key in old(Resident) && WellFormed(old(Resident[key]))
      ensures Resident == old(Resident)[key := SetCell(old(Resident[key]), pos, block.Value())]
    {
      var region := cache.lines[key];
      GoodLine(cache.lines, Resident, files, Regions, Arrays, key);
      GoodApart(cache.lines, Resident, files, Regions, Arrays, key);
      ghost var d := Resident[key];
      region.SetBlock(pos, block, now);
      if !region.isChangedAfterCreateLoadOrSave {
        SetSameCell(d, pos, block.Value());
      }
      Rebind(key, region.Data);
    }

    /**
     * Line `key`'s region now holds `d`: with the other lines good without
     * it, the model records `d` for the line and is valid again.
     */
    ghost method Rebind(key: RegionIndex, d: RegionData)
      requires cache.Valid() && cache.lineSizeMB == DISK_REGION_SIZE_MB_APPROX && |cache.lines| <= cache.MaxLines()
      requires key in cache.lines && RegionAt(key) in Regions && RegionAt(key).Footprint() <= Arrays
      requires Good(cache.lines - {key}, Resident - {key}, files, Regions - {RegionAt(key)}, Arrays - RegionAt(key).Footprint())
      requires WellFormed(d) && LineOk(RegionAt(key), d, LoadResult(files, key))
      modifies this`Resident
      ensures Valid() && Resident == old(Resident)[key := d]
    {
      GoodReplace(cache.lines, Resident, files, Regions, Arrays, key, d);
      Resident := Resident[key := d];
      Assembled();
    }

    /** A model whose cache is well formed, whose lines are good and within budget is valid. */
    lemma Assembled()
      requires cache.Valid() && cache.lineSizeMB == DISK_REGION_SIZE_MB_APPROX && |cache.lines| <= cache.MaxLines()
      requires Good(cache.lines, Resident, files, Regions, Arrays)
      ensures Valid()
    {
    }

    /**
     * `getAllModelRegionIndices`: the resident keys together with the key
     * of every file whose name matches the region-file pattern; a matching
     * name whose number does not fit an `Int` is an error.
     */
    method GetAllModelRegionIndices() returns (r: Result<set<RegionIndex>>)
      ensures r.Ok? <==> AllMatchesParse(files)
      ensures r.Ok? ==> r.value == cache.lines.Keys + Discovered(files)
      ensures r.Err? ==> r.error.NumberFormat?
    {
      r := DiscoverRegionIndices(cache.lines.Keys, files);
    }

    /**
     * `iterator()`: every region of the model, resident or on disk, in
     * (x, z) order, each fetched through the cache when the iterator is
     * made, together with what the model held for it. It fails when the
     * keys cannot be listed or a region cannot be loaded. Fetching keeps
     * what the model holds.
     */
    method Iterator() returns (r: Result<ModelIterator>)
      requires Valid()
      modifies this`files, this`Resident, this`Regions, this`Arrays, clock, cache`lines, cache`order,
        Regions`isChangedAfterCreateLoadOrSave
      ensures Valid() && fresh(Regions - old(Regions))
      ensures SameWorld(Resident, files, old(Resident), old(files))
      ensures r.Ok? <==> (AllMatchesParse(old(files)) &&
        forall k :: k in old(cache.lines).Keys + Discovered(old(files)) ==> old(Stored(Resident, files, k)).Ok?)
      ensures r.Ok? ==> fresh(r.value.Repr()) && r.value.Valid() && r.value.CurrentIntact() && r.value.Cursor() == (0, 0)
      ensures r.Ok? ==> (StrictlySorted(r.value.keys) &&
        forall k :: k in r.value.keys <==> k in old(cache.lines).Keys + Discovered(old(files)))
      ensures r.Ok? ==> HoldsAll(old(Resident), old(files), r.value.keys, r.value.Datas)
      ensures r.Ok? ==> Intact(r.value.regions, r.value.Datas)
    {
      var all := GetAllModelRegionIndices();
      if all.Err? {
        return Err(all.error);
      }
      var keys := SortRegionIndices(all.value);
      r := IteratorOver(keys);
    }

    /** An iterator over the regions of the given keys, fetched in their order. */
    method IteratorOver(keys: seq<RegionIndex>) returns (r: Result<ModelIterator>)
      requires Valid()
      modifies this`files, this`Resident, this`Regions, this`Arrays, clock, cache`lines, cache`order,
        Regions`isChangedAfterCreateLoadOrSave
      ensures Valid() && fresh(Regions - old(Regions))
      ensures SameWorld(Resident, files, old(Resident), old(files))
      ensures r.Ok? <==> forall k :: k in keys ==> old(Stored(Resident, files, k)).Ok?
      ensures r.Ok? ==> fresh(r.value.Repr()) && r.value.Valid() && r.value.CurrentIntact() && r.value.Cursor() == (0, 0)
      ensures r.Ok? ==> r.value.keys == keys && HoldsAll(old(Resident), old(files), keys, r.value.Datas)
      ensures r.Ok? ==> Intact(r.value.regions, r.value.Datas)
    {
      var regions, datas := FetchAll(keys);
      if regions.Err? {
        return Err(regions.error);
      }
      var it := NewModelIterator(keys, regions.value, datas);
      r := Ok(it);
    }

    /** `regionsByIndex[key]` for each key in order: the regions, and what the model held for each. */
    method FetchAll(keys: seq<RegionIndex>) returns (r: Result<seq<Region>>, ghost datas: seq<RegionData>)
      requires Valid()
      modifies this`files, this`Resident, this`Regions, this`Arrays, clock, cache`lines, cache`order,
        Regions`isChangedAfterCreateLoadOrSave
      ensures Valid() && fresh(Regions - old(Regions))
      ensures SameWorld(Resident, files, old(Resident), old(files))
      ensures r.Ok? <==> forall k :: k in keys ==> old(Stored(Resident, files, k)).Ok?
      ensures r.Ok? ==> |r.value| == |keys| && HoldsAll(old(Resident), old(files), keys, datas)
      ensures r.Ok? ==> Intact(r.value, datas)
    {
      var regions: seq<Region> := [];
      datas := [];
      var i := 0;
      while i < |keys|
        invariant 0 <= i <= |keys| && |regions| == i
        invariant Valid() && fresh(Regions - old(Regions))
        invariant SameWorld(Resident, files, old(Resident), old(files))
        invariant HoldsAll(old(Resident), old(files), keys[..i], datas)
        invariant Intact(regions, datas)
      {
        assert Stored(Resident, files, keys[i]) == Stored(old(Resident), old(files), keys[i]);
        label before:
        var region, d := Fetch(keys[i], regions, datas);
        assert fresh(Regions - old(Regions)) by {
          forall g | g in Regions - old(Regions)
            ensures !old(allocated(g))
          {
            if g !in old@before(Regions) {
              assert !old@before(allocated(g));
            }
          }
        }
        if region.Err? {
          assert keys[i] in keys;
          return Err(region.error), datas;
        }
        HoldsAllAppend(old(Resident), old(files), keys, datas, i, d);
        regions := regions + [region.value];
        datas := datas + [d];
        i := i + 1;
      }
      assert keys[..i] == keys;
      HoldsAllOk(old(Resident), old(files), keys, datas);
      r := Ok(regions);
    }

    /** One step of `FetchAll`: `Get(key)`, keeping the regions fetched so far intact. */
    method Fetch(key: RegionIndex, ghost regions: seq<Region>, ghost datas: seq<RegionData>)
      returns (r: Result<Region>, ghost d: RegionData)
      requires Valid() && Intact(regions, datas)
      modifies this`files, this`Resident, this`Regions, this`Arrays, clock, cache`lines, cache`order,
        Regions`isChangedAfterCreateLoadOrSave
      ensures Valid() && fresh(Regions - old(Regions)) && fresh(Arrays - old(Arrays))
      ensures SameWorld(Resident, files, old(Resident), old(files))
      ensures r.Ok? <==> old(Stored(Resident, files, key)).Ok?
      ensures r.Err? ==> r.error == old(Stored(Resident, files, key)).error
      ensures r.Ok? ==> old(Stored(Resident, files, key)) == Ok(d) && Intact(regions + [r.value], datas + [d])
      ensures r.Err? ==> Intact(regions, datas)
    {
      r := Get(key);
      IntactKept((regions, datas));
      d := [];
      if r.Ok? {
        GoodLine(cache.lines, Resident, files, Regions, Arrays, key);
        d := Resident[key];
        IntactAppend(regions, datas, r.value, d);
      }
    }
  }

  /**
   * The model's `init`: a path that exists but is not a directory is an
   * error; a missing path is created as an empty directory, and failing to
   * create it is an error; an existing directory is taken as it is, except
   * that with `overwrite` the region files are looked for (a matching name
   * whose number does not fit an `Int` is an error) and every file whose
   * name matches the region pattern is deleted under its listed name,
   * stopping at the first that cannot be deleted. No region file is left,
   * and every other entry stays. The source deletes the canonical name
   * of each discovered key instead (see `DeleteRegionFiles`); the two
   * agree, in outcome and in what is left, on a directory whose region
   * files carry canonical names, and there `Open` is the source's `init`.
   */
  method Open(path: ModelPath, overwrite: bool) returns (r: Result<DiskBoundModel>)
    ensures path.ExistingFile? ==> r == Err(NotADirectory)
    ensures path.Missing? ==> (r.Ok? <==> path.mkdirsSucceeds) && (r.Err? ==> r.error == CannotCreateDirectory)
    ensures path.Missing? && r.Ok? ==> r.value.files == map[]
    ensures path.ExistingDirectory? && !overwrite ==> r.Ok? && r.value.files == path.files
    ensures path.ExistingDirectory? && overwrite ==>
      (r.Ok? <==> (AllMatchesParse(path.files) &&
        forall name :: name in MatchingNames(path.files) ==> Deletable(path.files, name)))
    ensures path.ExistingDirectory? && overwrite && r.Ok? ==>
      r.value.files == path.files - MatchingNames(path.files) &&
      (forall name :: name in r.value.files ==> MatchRegionFileName(name).None?) &&
      (forall name :: name in path.files && MatchRegionFileName(name).None? ==>
        name in r.value.files && r.value.files[name] == path.files[name])
    ensures path.ExistingDirectory? && overwrite && r.Err? ==>
      r.error.NumberFormat? || r.error.CannotDelete?
    ensures path.ExistingDirectory? && overwrite && AllCanonical(path.files) ==>
      (r.Ok? <==> forall name :: name in FileNames(Discovered(path.files)) ==> Deletable(path.files, name)) &&
      (r.Ok? ==> r.value.files == path.files - FileNames(Discovered(path.files)))
    ensures r.Ok? ==> (fresh(r.value) && fresh(r.value.cache) && fresh(r.value.clock) && r.value.Valid() &&
      r.value.Resident == map[] && r.value.cache.maxCacheSizeMB == DEFAULT_MAX_CACHE_SIZE_MB)
  {
    var files: Directory;
    match path {
    case ExistingFile =>
      return Err(NotADirectory);
    case Missing(mkdirsSucceeds) =>
      if !mkdirsSucceeds {
        return Err(CannotCreateDirectory);
      }
      files := map[];
    case ExistingDirectory(listed) =>
      files := listed;
      if overwrite {
        if AllCanonical(listed) {
          WipesAgreeOnCanonicalNames(listed);
        }
        var all := DiscoverRegionIndices({}, files);
        if all.Err? {
          return Err(all.error);
        }
        assert all.value == Discovered(listed);
        var outcome, rest := DeleteMatchingFiles(files);
        if outcome.Fail? {
          return Err(outcome.error);
        }
        MatchingWipeLeavesOthers(files, rest);
        files := rest;
      }
    }
    var model := new DiskBoundModel(files);
    r := Ok(model);
  }
}
