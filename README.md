# mc-raster's disk-bound voxel store, in Dafny

mc-raster turns geographic data into a Minecraft world. This project is a
Dafny model of the store at the core of that pipeline, with proofs about it.
The store is a directory of region files kept behind a bounded cache of
loaded regions. Also modelled are the pieces that feed it: the voxel
builders, the coordinate conversions, the exact rounding, the obj3d format
with the editor that writes it, and the non-geometric parts of the polygon
rasterizer.

The model follows the program's layers.

- **Coordinates.** `HorPositions` and `HorizontalCoordinates` split a 32-bit
  block coordinate into region, local chunk and local block, with floor
  division for negative values. `Blocks` holds positions at the global,
  region-local and chunk-local scales. `Limits` and `CoordinateUtils` hold
  the size constants and the world limits. `KotlinInt` writes Kotlin's
  `Int` arithmetic out explicitly: two's-complement wrap-around (`Wrap`)
  and truncating division (`Quot`).
- **Dense voxel arrays.** These are classes over Dafny arrays:
  `ByteArrays.DimensionalByteArray`, `ByteArrays.ByteVec3`, `Chunks.Chunk`
  (16×16×256 bytes) and `Regions.Region` (32×32 chunks, a last-access stamp
  and a dirty flag). Each comes with its block iterator. Their bytes are
  specified by value functions on the contents: `ChunkElement`,
  `RegionElement`, `SetCell` and `Deserialize`.
- **The cache.** `CachedMaps.CachedMap` owns the resident lines, the
  megabyte budget and the scan for the oldest line. The eviction loop and
  the load path call the model's hooks, so they live in
  `DiskBoundModels.DiskBoundModel`.
- **The model.** `DiskBoundModels.DiskBoundModel` routes gets and sets to
  the region of the position. It saves only changed regions, when a line is
  dropped and on `flush`. `Stored` is what the model holds for a region: the
  resident region if it is cached, otherwise what loading its file gives.
  Every operation except `setBlock` keeps `Stored` unchanged, so the cache
  is invisible to callers. `setBlock` changes exactly one cell.
  - `RegionFiles` and `RegionDiscovery` cover file naming, discovery by the
    name pattern, the overwrite wipe and the (x, z) order of regions.
  - `ModelIterators` gives the iteration over all blocks of the model.
  - Both versions of `DiskBoundModel.kt` are one class. The common
    version's overwrite wipe, soft limit warning and `getHighestBlockY` are
    included.
- **Builders.** `ModelWrites` states what a list of `setBlock` calls leaves
  in each cell. `ModelBuilder` (`DiskBoundModelBuilder`) and
  `WorldBuilders` (the private builders of `WorldBuilder`) are specified by
  the writes their loops issue, and by the block each cell ends up with.
- **Smaller pieces.**
  - `NumberUtils` rounds a `BigDecimal`, modelled as a `real`.
  - `Lest97Blocks` places L-EST97 blocks in the world.
  - `Obj3dReaders` is the obj3d reader, proved against a whole-file scan
    function.
  - `Object3dEditor` holds the 3D object editor's state machine and its
    dump. `Obj3dRoundTrip` proves that reading a dump back yields exactly
    the object's full boxes, in order.
  - `PolygonMasks` covers the mask iterator, the in-place OR merge and the
    canvas checks.
  - `PolygonTiles` covers canvas tiling and the corner-count check, for
    both `Polygon.kt` files. The generator's `PolygonRasterMask` and
    `createRasterMask` are the same code as `PolygonMask` and `rasterize`,
    and the same members model them.

Effects are modelled as values.

- The directory is a `map<string, Entry>`, and gzip is the identity.
- `Instant.now()` is a logical clock that moves on at every stamp.
- Exceptions are `Result`/`Outcome` values (module `Outcomes`).
- Streams are byte sequences, and a written file is the sequence of its
  lines.

## Model

| member | source | states |
|---|---|---|
| HorPositions.HorPos.GlobalChunk | src/main/kotlin/org/mcraster/model/HorPos.kt:14-18 | the chunk is the floor of block / 16 for every Int, negatives included (`r*16 <= block < r*16+16`) |
| HorPositions.HorPos.Region | src/main/kotlin/org/mcraster/model/HorPos.kt:20-24 | the region is the floor of globalChunk / 32 |
| HorPositions.HorPos.LocalChunk | src/main/kotlin/org/mcraster/model/HorPos.kt:26 | the local chunk lies in [0, 32) and region*32 + localChunk is the global chunk |
| HorPositions.HorPos.LocalBlock | src/main/kotlin/org/mcraster/model/HorPos.kt:28 | the local block lies in [0, 16) and globalChunk*16 + localBlock is the block |
| HorPositions.FromParts | src/main/kotlin/org/mcraster/model/HorPos.kt:11-12 | the secondary constructor, with wrapping Int arithmetic, builds (region*32 + localChunk)*16 + localBlock whenever no step overflows |
| HorPositions.RegionIsFloorOfBlock | src/main/kotlin/org/mcraster/model/HorPos.kt:20-28 | the region is also floor(block / 512), and region*512 + localChunk*16 + localBlock == block |
| HorPositions.RoundTrip | src/main/kotlin/org/mcraster/model/HorPos.kt:11-28 | for every Int block, rebuilding from (region, localChunk, localBlock) gives the block back, and no step of the constructor overflows |
| HorPositions.Converse | src/main/kotlin/org/mcraster/model/HorPos.kt:11-28 | building from localChunk in [0,32) and localBlock in [0,16) and decomposing again gives the same triple |
| HorPositions.TablePoints | generator/src/test/kotlin/org/mcraster/model/BlockPosTest.kt:22-77 | table rows 2020194, Int.MAX_VALUE and the negative rows -1, -513, -921443 and Int.MIN_VALUE decompose as the test tables say |
| HorizontalCoordinates.HorizontalCoordinate.GlobalChunk | src/main/kotlin/org/mcraster/model/HorizontalCoordinate.kt:8-11 | the lazy chunk is floor(globalBlock / 16) |
| HorizontalCoordinates.HorizontalCoordinate.Region | src/main/kotlin/org/mcraster/model/HorizontalCoordinate.kt:12-15 | the lazy region is floor(globalChunk / 32) |
| HorizontalCoordinates.HorizontalCoordinate.LocalChunk | src/main/kotlin/org/mcraster/model/HorizontalCoordinate.kt:16 | the local chunk lies in [0, 32) |
| HorizontalCoordinates.HorizontalCoordinate.LocalBlock | src/main/kotlin/org/mcraster/model/HorizontalCoordinate.kt:17 | the local block lies in [0, 16) |
| HorizontalCoordinates.FromParts | src/main/kotlin/org/mcraster/model/HorizontalCoordinate.kt:5-6 | the inverse constructor builds (region*32 + localChunk)*16 + localBlock whenever no step overflows |
| HorizontalCoordinates.AgreesWithHorPos | src/main/kotlin/org/mcraster/model/HorizontalCoordinate.kt:8-17 | the legacy decomposition equals the HorPos one in all four parts, on every Int |
| HorizontalCoordinates.RoundTrip | src/main/kotlin/org/mcraster/model/HorizontalCoordinate.kt:5-17 | the inverse constructor rebuilds every global block from its parts |
| HorizontalCoordinates.MaxValueRow | src/test/kotlin/org/mcraster/model/HorizontalCoordinateTest.kt:29 | Int.MAX_VALUE decomposes to (134217727, 4194303, 31, 15) |
| Limits.DerivedSizes | common/src/main/kotlin/org/mcraster/pos/Limits.kt:5-33 | chunk 65536 blocks, region 1024 chunks and 67108864 blocks, region length 512, a region file of exactly 64 MiB (64 MB approximately), a chunk under 1 MiB and a region under 500 MiB |
| Limits.IsWithinLimits | common/src/main/kotlin/org/mcraster/pos/Limits.kt:36-38 | a position within the limits has a height in [0, 256) and lies in one of 78 272 by 78 142 regions: -39 136*512 <= x < 39 136*512 and -39 071*512 <= z < 39 071*512 |
| Limits.LimitsCentred | common/src/main/kotlin/org/mcraster/pos/Limits.kt:15-27 | a position is within the limits exactly when its mirror through x = z = 0 is, and the inclusive ranges span 40 075 017 blocks along x, 40 007 863 along z and the model height along y, matching the circumference figures |
| Limits.LimitCornerExamples | common/src/main/kotlin/org/mcraster/pos/Limits.kt:18-38 | examples: the two corner positions are within the limits (inclusive) and one step past a bound is not |
| BlockTypes.BlockType.Value | common/src/main/kotlin/org/mcraster/model/BlockType.kt:3-14 | every entry's byte lies in 0..10 |
| BlockTypes.MaxValueOf | common/src/main/kotlin/org/mcraster/model/BlockType.kt:17 | `maxOf`: the result bounds every entry's byte from above and is one of them |
| BlockTypes.MinValueOf | common/src/main/kotlin/org/mcraster/model/BlockType.kt:18 | `minOf`: the result bounds every entry's byte from below and is one of them |
| BlockTypes.Get | common/src/main/kotlin/org/mcraster/model/BlockType.kt:20 | the lookup succeeds iff the byte is in 0..10, then returns the entry with that byte; otherwise it fails with an index-out-of-bounds error, negatives included |
| BlockTypes.ValuesAreDeclarationIndices | common/src/main/kotlin/org/mcraster/model/BlockType.kt:3-14 | entry i of the declaration order carries byte i, every entry is listed, the bytes are distinct, NONE is 0 |
| BlockTypes.BinaryValueRange | common/src/main/kotlin/org/mcraster/model/BlockType.kt:17-18 | MIN_BINARY_VALUE is 0, MAX_BINARY_VALUE is 10, and the entry count is MAX - MIN + 1 |
| BlockTypes.GetValue | common/src/main/kotlin/org/mcraster/model/BlockType.kt:20 | `get(t.value) == t` for every entry |
| LegacyBlockTypes.Get | src/main/kotlin/org/mcraster/model/BlockType.kt:18 | the array lookup succeeds iff the byte is in 0..9 and returns the entry with that byte; otherwise it fails |
| LegacyBlockTypes.ValuesAreDeclarationIndices | src/main/kotlin/org/mcraster/model/BlockType.kt:3-13 | entry i carries byte i, the bytes are distinct, NONE is 0 |
| LegacyBlockTypes.GetBinaryValue | src/main/kotlin/org/mcraster/model/BlockType.kt:16-18 | `get(t.binaryValue) == t` for every entry |
| ByteArrays.CheckDimensions | src/main/kotlin/org/mcraster/util/DimensionalByteArray.kt:11-16 | construction is accepted iff there is at least one dimension, every dimension is positive, and the product wrapped to an Int is not negative, so [46341, 46341] is rejected like the source's allocation |
| ByteArrays.ReducedProductWraps | src/main/kotlin/org/mcraster/util/DimensionalByteArray.kt:11 | the reduce of the dimensions in Int multiplication is the exact product wrapped once |
| ByteArrays.OverflowingProductRejected | src/main/kotlin/org/mcraster/util/DimensionalByteArray.kt:11-16 | 46341 * 46341 wraps to -2147479015, and those dimensions are rejected |
| ByteArrays.ProductMonotone | src/main/kotlin/org/mcraster/util/DimensionalByteArray.kt:11 | with positive dimensions, a longer prefix of dimensions never has a smaller product |
| ByteArrays.RawIndexBounds | src/main/kotlin/org/mcraster/util/DimensionalByteArray.kt:41-48 | in-range indices give a flat index inside the array |
| ByteArrays.RawIndexInjective | src/main/kotlin/org/mcraster/util/DimensionalByteArray.kt:41-48 | two in-range index tuples with the same flat index are equal |
| ByteArrays.ReadFill | src/main/kotlin/org/mcraster/util/DimensionalByteArray.kt:32-33 | after `readNBytes` the array holds the stream's bytes where the stream has them and its old bytes past a short stream |
| ByteArrays.WriteThenRead | src/main/kotlin/org/mcraster/util/DimensionalByteArray.kt:32-39 | reading back what `write` emitted restores the contents, whatever follows in the stream |
| ByteArrays.DimensionalByteArray.constructor | src/main/kotlin/org/mcraster/util/DimensionalByteArray.kt:6-18 | the array has the product of the dimensions as its size and every cell starts at `initialValue` |
| ByteArrays.DimensionalByteArray.Size | src/main/kotlin/org/mcraster/util/DimensionalByteArray.kt:28 | `size()` is the product of the dimensions, at least 1 |
| ByteArrays.DimensionalByteArray.GetRawIndex | src/main/kotlin/org/mcraster/util/DimensionalByteArray.kt:41-48 | the loop computes the row-major flat index (last index fastest) and it lies inside the array, so no step overflows |
| ByteArrays.DimensionalByteArray.Get | src/main/kotlin/org/mcraster/util/DimensionalByteArray.kt:20 | returns the byte at the flat index of the indices |
| ByteArrays.DimensionalByteArray.Set | src/main/kotlin/org/mcraster/util/DimensionalByteArray.kt:21-27 | returns true iff the stored byte differed; afterwards that cell holds the value and every other cell is unchanged |
| ByteArrays.DimensionalByteArray.Iterator | src/main/kotlin/org/mcraster/util/DimensionalByteArray.kt:30 | the iterator starts at flat index 0 of this array |
| ByteArrays.DimensionalByteArray.Read | src/main/kotlin/org/mcraster/util/DimensionalByteArray.kt:32-37 | fills the array from the front of the stream; fails with a short-stream error iff the stream held fewer bytes than the array |
| ByteArrays.DimensionalByteArray.Write | src/main/kotlin/org/mcraster/util/DimensionalByteArray.kt:39 | emits the array's bytes verbatim |
| ByteArrays.ByteArrayIterator.constructor | src/main/kotlin/org/mcraster/util/DimensionalByteArray.kt:30 | the array iterator stands before the first cell of the given storage |
| ByteArrays.ByteArrayIterator.HasNext | src/main/kotlin/org/mcraster/util/DimensionalByteArray.kt:30 | true iff cells remain |
| ByteArrays.ByteArrayIterator.Next | src/main/kotlin/org/mcraster/util/DimensionalByteArray.kt:30 | yields the cells in flat-index order and fails with NoSuchElement when none remain |
| ByteArrays.RawIndex3 | src/main/kotlin/org/mcraster/util/ByteVec3.kt:3-4 | for three dimensions the flat index of (a, b, c) is (a*B + b)*C + c |
| ByteArrays.ByteVec3.constructor | src/main/kotlin/org/mcraster/util/ByteVec3.kt:3-4 | a byte array with exactly the dimensions [a, b, c], a*b*c cells, all `initialValue` |
| ByteArrays.ByteVec3.Get | src/main/kotlin/org/mcraster/util/ByteVec3.kt:6 | delegates to the three-index `get` |
| ByteArrays.ByteVec3.Set | src/main/kotlin/org/mcraster/util/ByteVec3.kt:8 | delegates to `set` and returns its changed flag; that cell alone takes the value |
| Blocks.ToRegionLocalBlock | generator/src/main/kotlin/org/mcraster/model/Block.kt:10-13 | shifts a chunk-local block by localChunk*16 on x and z, keeping y and the type; the result lies in [0, 512) on both axes |
| Blocks.ToBlock | generator/src/main/kotlin/org/mcraster/model/Block.kt:19-22 | shifts a region-local block by region*512 on x and z, keeping y and the type |
| Blocks.LocalToGlobal | generator/src/main/kotlin/org/mcraster/model/Block.kt:6-24 | a position's own chunk-local coordinates, shifted through its chunk and then its region, give the position back |
| Blocks.DecompositionInjective | src/main/kotlin/org/mcraster/model/HorPos.kt:14-28 | two positions with the same region, local chunk, local block and height are the same position |
| Chunks.CellOfInRange | src/main/kotlin/org/mcraster/model/Chunk.kt:24-28 | a position with 0 <= y < 256 addresses a cell of its chunk |
| Chunks.CellPos | src/main/kotlin/org/mcraster/model/Chunk.kt:17-22 | the k-th byte of the x, z, y layout belongs to an in-range cell (x, z, y) whose offset is k |
| Chunks.ChunkElement | src/main/kotlin/org/mcraster/model/Chunk.kt:44-48 | step k yields the k-th cell's position with the type decoded from byte k, and fails exactly when the byte is not a type |
| Chunks.CellOrder | src/main/kotlin/org/mcraster/model/Chunk.kt:49-55 | consecutive steps advance y fastest, then z, then x |
| Chunks.CellIndexInjective | src/main/kotlin/org/mcraster/model/Chunk.kt:17-22 | distinct in-range cells have distinct byte offsets |
| Chunks.Chunk.constructor | src/main/kotlin/org/mcraster/model/Chunk.kt:17-22 | a fresh chunk is 65536 bytes, all NONE |
| Chunks.Chunk.GetBlock | src/main/kotlin/org/mcraster/model/Chunk.kt:24-25 | decodes the byte stored at the position's local cell (x, z, y) |
| Chunks.Chunk.SetBlock | src/main/kotlin/org/mcraster/model/Chunk.kt:27-28 | stores the type's byte at that cell alone and returns true iff the byte differed |
| Chunks.Chunk.Read | src/main/kotlin/org/mcraster/model/Chunk.kt:32 | fills the chunk's bytes from the stream and fails iff the stream is shorter than a chunk |
| Chunks.Chunk.Write | src/main/kotlin/org/mcraster/model/Chunk.kt:34 | emits the chunk's bytes in the same x, z, y layout |
| Chunks.Chunk.Iterator | src/main/kotlin/org/mcraster/model/Chunk.kt:30 | a fresh iterator at step 0 over this chunk |
| Chunks.ChunkIterator.constructor | src/main/kotlin/org/mcraster/model/Chunk.kt:36-40 | the chunk iterator starts at local (0, 0, 0) with no block returned yet |
| Chunks.ChunkIterator.HasNext | src/main/kotlin/org/mcraster/model/Chunk.kt:42 | true iff fewer than 65536 blocks were returned |
| Chunks.ChunkIterator.Next | src/main/kotlin/org/mcraster/model/Chunk.kt:44-57 | step k returns the k-th cell's block (position and decoded byte agree), and fails with NoSuchElement past the end |
| Regions.EmptyRegionWellFormed | src/main/kotlin/org/mcraster/model/Region.kt:16 | a fresh region is 1024 chunks of 65536 bytes |
| Regions.Serialize | src/main/kotlin/org/mcraster/model/Region.kt:37-40 | the byte image `write` emits: the chunks in order, concatenated (a definition; its length and the read-back are stated by SerializeRoundTrip and DeserializeRoundTrip) |
| Regions.Deserialize | src/main/kotlin/org/mcraster/model/Region.kt:42-43 | the region `read` builds from a long enough stream is well formed: chunk c takes bytes c*65536 up to (c+1)*65536 |
| Regions.FlattenAt | src/main/kotlin/org/mcraster/model/Region.kt:37-38 | byte j of the c-th chunk written sits at offset c*65536 + j of the output |
| Regions.SerializeRoundTrip | src/main/kotlin/org/mcraster/model/Region.kt:37-45 | `write` emits exactly 64 MiB, and reading it back, whatever follows, restores the region |
| Regions.DeserializeRoundTrip | src/main/kotlin/org/mcraster/model/Region.kt:37-45 | writing a region that was read gives back the bytes that were consumed |
| Regions.SetCell | src/main/kotlin/org/mcraster/model/Region.kt:29-31 | storing a byte for a position keeps the region well formed |
| Regions.GetAfterSet | src/main/kotlin/org/mcraster/model/Region.kt:24-47 | within one region, get after set returns the value at the written position and the old byte at every other position |
| Regions.ElementOfChunk | src/main/kotlin/org/mcraster/model/Region.kt:56-61 | step c*65536 + j of the region walk is step j of chunk c, shifted by that chunk's place |
| Regions.RegionElementIsStoredBlock | src/main/kotlin/org/mcraster/model/Region.kt:49-76 | step k of the region walk succeeds iff byte k of the serialised region decodes, and it reports the region-local position in [0,512)x[0,256)x[0,512) whose byte that is, with the decoded type |
| Regions.Region.constructor | src/main/kotlin/org/mcraster/model/Region.kt:16-22 | a fresh region is all NONE, not dirty, stamped with the current time |
| Regions.Region.GetBlock | src/main/kotlin/org/mcraster/model/Region.kt:24-27 | refreshes the stamp, returns the decoded byte of the position through chunk [localChunkX][localChunkZ], and never sets the dirty flag |
| Regions.Region.SetBlock | src/main/kotlin/org/mcraster/model/Region.kt:29-33 | refreshes the stamp, stores the byte, and sets the dirty flag iff it was set or the chunk reported a change |
| Regions.Region.Write | src/main/kotlin/org/mcraster/model/Region.kt:37-40 | emits the 1024 chunks chunk-X outer, chunk-Z inner, then clears the dirty flag |
| Regions.Region.Read | src/main/kotlin/org/mcraster/model/Region.kt:42-45 | consumes the same order; succeeds iff the stream holds a whole region, and then the region is what was read and is clean |
| Regions.Region.ReadRow | src/main/kotlin/org/mcraster/model/Region.kt:43 | one chunk-X row of `read`: chunks (cx, 0..31) take the next 32 chunk-sized pieces of the stream |
| Regions.Region.ReadChunk | src/main/kotlin/org/mcraster/model/Region.kt:43 | one chunk of `read`: chunk (cx, cz) takes the next 65536 bytes and no other chunk changes |
| Regions.Region.GetHighestBlockY | common/src/main/kotlin/org/mcraster/model/DiskBoundModel.kt:67-70 | refreshes the stamp and returns the topmost y of the column holding a block, as HighestNonEmpty defines it |
| Regions.HighestNonEmpty | common/src/main/kotlin/org/mcraster/model/DiskBoundModel.kt:67-70 | a found height lies in [0, top] |
| Regions.HighestNonEmptyMeaning | common/src/main/kotlin/org/mcraster/model/DiskBoundModel.kt:67-70 | none iff the column holds no block; otherwise a height holding a block with nothing above it |
| Regions.Region.Iterator | src/main/kotlin/org/mcraster/model/Region.kt:35 | a fresh iterator at step 0 over this region |
| Regions.RegionIterator.constructor | src/main/kotlin/org/mcraster/model/Region.kt:49-52 | the region iterator starts on chunk (0, 0) with no block returned yet |
| Regions.RegionIterator.StepsBound | src/main/kotlin/org/mcraster/model/Region.kt:49-76 | the walk has at most REGION_SIZE_BLOCKS steps and is over exactly when the empty iterator is current |
| Regions.RegionIterator.HasNext | src/main/kotlin/org/mcraster/model/Region.kt:54 | true iff fewer than 67108864 blocks were returned |
| Regions.RegionIterator.Next | src/main/kotlin/org/mcraster/model/Region.kt:56-74 | step k returns RegionElement(k), chunk-X outer and chunk-Z inner, each chunk completed before the next; the region's contents are unchanged |
| Regions.RegionIterator.Take | src/main/kotlin/org/mcraster/model/Region.kt:57-61 | the current chunk's next block, shifted by the chunk's place, is RegionElement of the current step |
| Regions.RegionIterator.NextChunk | src/main/kotlin/org/mcraster/model/Region.kt:62-71 | after an exhausted chunk the iterator moves to the next chunk in z, then x, or to the empty iterator after the last |
| CachedMaps.MaxCacheLineCountMeaning | src/main/kotlin/org/mcraster/util/CachedMap.kt:45-50 | the line budget is at least 1; when the budget holds a line it is the largest whole number of lines that fits, otherwise exactly 1 |
| CachedMaps.ElemsContains | src/main/kotlin/org/mcraster/util/CachedMap.kt:31 | the resident key set is the set of keys in insertion order |
| CachedMaps.DistinctAppend | src/main/kotlin/org/mcraster/util/CachedMap.kt:39 | inserting a key not resident keeps the insertion order free of repeats |
| CachedMaps.DistinctCard | src/main/kotlin/org/mcraster/util/CachedMap.kt:31 | an order without repeats is as long as the resident key set |
| CachedMaps.Without | src/main/kotlin/org/mcraster/util/CachedMap.kt:57 | dropping a key removes that key alone and keeps the order free of repeats |
| CachedMaps.CachedMap.constructor | src/main/kotlin/org/mcraster/util/CachedMap.kt:3-31 | a new cache holds no lines and the given budget |
| CachedMaps.CachedMap.Put | src/main/kotlin/org/mcraster/util/CachedMap.kt:39 | the key maps to the value and every other line is kept; a new key goes to the end of the insertion order |
| CachedMaps.CachedMap.Remove | src/main/kotlin/org/mcraster/util/CachedMap.kt:57 | only the given key leaves; the other lines and their order stay |
| CachedMaps.CachedMap.OldestKey | src/main/kotlin/org/mcraster/util/CachedMap.kt:33-56 | the chosen line is resident, no resident line is strictly older, and every line before it in insertion order is strictly younger (the first of equally old lines) |
| DiskBoundModels.ForgetKeepsWorld | src/main/kotlin/org/mcraster/util/CachedMap.kt:55-58 | dropping a resident region whose file already loads as its contents leaves what the model holds for every region unchanged |
| DiskBoundModels.SaveKeepsOthers | src/main/kotlin/org/mcraster/model/DiskBoundModel.kt:91-99 | once a region's serialised contents are written to its file, that region loads as those contents and every other region loads as before |
| DiskBoundModels.LoadKeepsWorld | src/main/kotlin/org/mcraster/util/CachedMap.kt:36-42 | adding region k to the cache with what its file loads as leaves what the model holds for every region unchanged |
| DiskBoundModels.SetSameCell | src/main/kotlin/org/mcraster/model/Region.kt:29-33 | storing a byte that is already there leaves the region's contents unchanged |
| DiskBoundModels.SaveAllStep | src/main/kotlin/org/mcraster/model/DiskBoundModel.kt:56-57 | flushing one more line in insertion order writes its file exactly when it is dirty |
| DiskBoundModels.SaveAllLoads | src/main/kotlin/org/mcraster/model/DiskBoundModel.kt:56-57 | after a flush a dirty region loads as its resident contents and every other region loads as it did before |
| DiskBoundModels.SaveAllTouchesOnlyDirty | src/main/kotlin/org/mcraster/model/DiskBoundModel.kt:56-57 | a flush adds, removes and changes no directory entry except the files of the dirty regions |
| DiskBoundModels.WorldAfterSet | src/main/kotlin/org/mcraster/model/DiskBoundModel.kt:48-51 | after setBlock stores byte v at pos, pos holds v and every other position, in any region, holds what it held |
| DiskBoundModels.SetAfterLoad | src/main/kotlin/org/mcraster/model/DiskBoundModel.kt:50-51 | storing v in the resident region of pos, after a load that kept what the model holds, is exactly that one-cell update of the model |
| DiskBoundModels.BlockAfterSet | src/main/kotlin/org/mcraster/model/DiskBoundModel.kt:48-51 | getBlock after setBlock(pos, t) yields t |
| DiskBoundModels.HoldsAllAppend | src/main/kotlin/org/mcraster/model/DiskBoundModel.kt:115 | the region fetched for one more key extends the list of contents held for the keys before it |
| DiskBoundModels.HoldsAllOk | src/main/kotlin/org/mcraster/model/DiskBoundModel.kt:115 | every key whose contents are held can be loaded |
| DiskBoundModels.ReadRegionFile | src/main/kotlin/org/mcraster/model/DiskBoundModel.kt:77-89 | a new region stamped now: empty and clean for a missing file, read from a regular file, an error for any other entry; success and error agree with LoadResult |
| DiskBoundModels.DiskBoundModel.constructor | src/main/kotlin/org/mcraster/model/DiskBoundModel.kt:27-38 | an empty cache over the directory with the default 1024 MB budget |
| DiskBoundModels.DiskBoundModel.EnsureRegionFileSavedToDisk | src/main/kotlin/org/mcraster/model/DiskBoundModel.kt:91-99 | a changed region is written, serialised, to its file and is clean afterwards; a clean region writes nothing |
| DiskBoundModels.DiskBoundModel.RemoveOldestCacheLine | src/main/kotlin/org/mcraster/util/CachedMap.kt:55-58 | one line with no older line leaves the cache, the others stay, the dropped region is saved if changed, and the model holds the same |
| DiskBoundModels.DiskBoundModel.OldestLine | src/main/kotlin/org/mcraster/model/DiskBoundModel.kt:32-33 | the line chosen has the earliest access time, and it is the first such line in insertion order |
| DiskBoundModels.DiskBoundModel.SaveLine | src/main/kotlin/org/mcraster/model/DiskBoundModel.kt:37 | onDrop saves the line's region if it changed; afterwards it is clean, its file loads as its contents and no other line is dirty that was not |
| DiskBoundModels.DiskBoundModel.ForgetLine | src/main/kotlin/org/mcraster/util/CachedMap.kt:57 | the line leaves the cache and the insertion order, the others stay, and the model holds the same |
| DiskBoundModels.DiskBoundModel.ReduceCacheSizeIfNecessary | src/main/kotlin/org/mcraster/util/CachedMap.kt:44-53 | evicts until min(lines, budget's line count, one fewer when making room) remain; only evicted lines leave; the model holds the same |
| DiskBoundModels.DiskBoundModel.SetMaxCacheSizeMB | src/main/kotlin/org/mcraster/util/CachedMap.kt:17-21 | stores the new budget and evicts down to it without loading; the model holds the same |
| DiskBoundModels.DiskBoundModel.FlushLine | src/main/kotlin/org/mcraster/model/DiskBoundModel.kt:56-57 | one step of flush: the next line in insertion order is saved if dirty |
| DiskBoundModels.DiskBoundModel.Flush | src/main/kotlin/org/mcraster/model/DiskBoundModel.kt:56-57 | every dirty line is saved and nothing else; afterwards no line is dirty, the lines are the same, and every region loads from the directory as the model held it |
| DiskBoundModels.DiskBoundModel.LoadRegionFileFromDisk | src/main/kotlin/org/mcraster/model/DiskBoundModel.kt:77-89 | a new region read from the file of key, stamped with the clock; success and error as LoadResult says |
| DiskBoundModels.DiskBoundModel.Get | src/main/kotlin/org/mcraster/util/CachedMap.kt:23 | a resident line is returned with nothing changed; otherwise the cache makes room and loads once; either way the model holds the same and the result holds what it held for the key |
| DiskBoundModels.DiskBoundModel.LoadToCache | src/main/kotlin/org/mcraster/util/CachedMap.kt:36-42 | the miss path: reduce to one line below the budget, load, and on success add the line; a failed load adds none |
| DiskBoundModels.DiskBoundModel.ReadAndMakeRoom | src/main/kotlin/org/mcraster/util/CachedMap.kt:37-38 | eviction to one line below the budget followed by the read of key, whose file the eviction does not touch |
| DiskBoundModels.DiskBoundModel.MakeRoom | src/main/kotlin/org/mcraster/util/CachedMap.kt:37 | reduceCacheSizeIfNecessary(true) before a load leaves fewer lines than the budget, keeps the file of key, and keeps what the model holds |
| DiskBoundModels.DiskBoundModel.AddLine | src/main/kotlin/org/mcraster/util/CachedMap.kt:39 | the new line maps key to the region, which holds what the file of key loads as |
| DiskBoundModels.DiskBoundModel.GetBlock | src/main/kotlin/org/mcraster/model/DiskBoundModel.kt:48 | the block type of the byte the model holds at pos, or the load or decode error; the model holds the same afterwards |
| DiskBoundModels.DiskBoundModel.ReadCell | src/main/kotlin/org/mcraster/model/DiskBoundModel.kt:48 | reading a resident region decodes the byte its contents hold at pos |
| DiskBoundModels.DiskBoundModel.GetHighestBlockY | common/src/main/kotlin/org/mcraster/model/DiskBoundModel.kt:67-70 | the highest y whose byte is not NONE in the column's region as the model holds it, none for an empty column, or the load error |
| DiskBoundModels.DiskBoundModel.ReadColumn | common/src/main/kotlin/org/mcraster/model/DiskBoundModel.kt:67-70 | on a resident region, the highest non-NONE y of the column in its contents |
| DiskBoundModels.DiskBoundModel.SetBlock | common/src/main/kotlin/org/mcraster/model/DiskBoundModel.kt:72-77 | warns exactly when pos is outside the limits and stores anyway; fails iff the region cannot be loaded, with nothing changed; otherwise pos holds the block's byte and all else is kept |
| DiskBoundModels.DiskBoundModel.StoreCell | src/main/kotlin/org/mcraster/model/DiskBoundModel.kt:50-51 | the resident contents of key take the block's byte at pos; the directory is unchanged |
| DiskBoundModels.DiskBoundModel.WriteCell | src/main/kotlin/org/mcraster/model/Region.kt:29-33 | the line's contents take the new byte at pos and nothing else changes |
| DiskBoundModels.DiskBoundModel.GetAllModelRegionIndices | src/main/kotlin/org/mcraster/model/DiskBoundModel.kt:61-75 | the resident keys together with the key of every matching file name; an error iff a matching name's number does not fit an Int |
| DiskBoundModels.DiskBoundModel.Iterator | src/main/kotlin/org/mcraster/model/DiskBoundModel.kt:101-117 | every region of the model, resident or on disk, each once in (x, z) order, with the contents the model held for it; fails iff the keys cannot be listed or a region cannot be loaded |
| DiskBoundModels.DiskBoundModel.IteratorOver | src/main/kotlin/org/mcraster/model/DiskBoundModel.kt:107-117 | an iterator over the regions of the given keys, at the first block of the first region |
| DiskBoundModels.DiskBoundModel.FetchAll | src/main/kotlin/org/mcraster/model/DiskBoundModel.kt:115 | the regions of the keys in order, each holding what the model held, unless one cannot be loaded |
| DiskBoundModels.DiskBoundModel.Fetch | src/main/kotlin/org/mcraster/model/DiskBoundModel.kt:115 | one fetch through the cache, keeping the regions fetched before it intact |
| DiskBoundModels.Open | common/src/main/kotlin/org/mcraster/model/DiskBoundModel.kt:46-61 | a path that is a file is an error; a missing path is created empty or is an error; with overwrite a matching name that does not fit an Int is an error, and otherwise the documented wipe deletes every file the region pattern matches under its listed name (stopping at the first that cannot be), after which no region file is left and every other entry is kept; on a directory whose region files all carry canonical names, success and the files left are exactly those of the source's wipe of the discovered keys' canonical names; the model starts with no lines and the default budget |
| RegionFiles.FileNameRoundTrip | src/main/kotlin/org/mcraster/model/DiskBoundModel.kt:141-146 | every region's file name matches the region-file pattern, and parsing its two groups with toInt gives the region back |
| RegionFiles.RegionFileName | common/src/main/kotlin/org/mcraster/model/DiskBoundModel.kt:170-174 | "R", the fixed-length texts of x and z, and ".dat" (a definition; FileNameRoundTrip and FileNameInjective state its meaning) |
| RegionFiles.MatchRegionFileName | common/src/main/kotlin/org/mcraster/model/DiskBoundModel.kt:175 | the regex match as a function: 27 characters, "R", two signed ten-digit groups and ".dat", giving the two groups (a definition; MatchedNameShape states its meaning) |
| RegionFiles.MatchedNameShape | common/src/main/kotlin/org/mcraster/model/DiskBoundModel.kt:175 | a matching name is exactly "R", its first group, its second group and ".dat", and each group is a sign followed by ten digits |
| RegionFiles.ParseRegionFileName | common/src/main/kotlin/org/mcraster/model/DiskBoundModel.kt:91-95 | no result exactly when the name does not match; a failure is the NumberFormat of toInt; a key is the toInt of the two groups |
| RegionFiles.ParsedNameCanonical | common/src/main/kotlin/org/mcraster/model/DiskBoundModel.kt:91-95 | a name that parses is the name the model writes for its key, unless one of its groups is the negative zero -0000000000 |
| RegionFiles.FileNameInjective | src/main/kotlin/org/mcraster/model/DiskBoundModel.kt:141-145 | distinct regions have distinct file names |
| RegionFiles.LoadResult | src/main/kotlin/org/mcraster/model/DiskBoundModel.kt:77-89 | what loading a region from the directory yields: an empty region for a missing file, the file read as a region for a regular file, an error otherwise; every success is a well-formed region |
| RegionFiles.SaveThenLoad | src/main/kotlin/org/mcraster/model/DiskBoundModel.kt:91-99 | writing a region's serialised contents to its file makes that region load as those contents and leaves every other region's load as it was |
| RegionDiscovery.DiscoverRegionIndices | src/main/kotlin/org/mcraster/model/DiskBoundModel.kt:61-75 | succeeds iff every matching name parses, giving the resident keys plus the key of every matching name; otherwise a NumberFormat error |
| RegionDiscovery.DeleteRegionFiles | common/src/main/kotlin/org/mcraster/model/DiskBoundModel.kt:49-58 | the overwrite wipe as written: passes iff the canonical file of every discovered key can be deleted, and then exactly those names are gone; on failure no name is added |
| RegionDiscovery.DeleteMatchingFiles | common/src/main/kotlin/org/mcraster/model/DiskBoundModel.kt:49-58 | the wipe as documented: passes iff every matching name can be deleted, and then exactly the matching names are gone |
| RegionDiscovery.MatchingWipeLeavesOthers | common/src/main/kotlin/org/mcraster/model/DiskBoundModel.kt:26-28 | after the documented wipe no region file is left, and every entry whose name does not match is kept unchanged |
| RegionDiscovery.NonCanonicalNameDefeatsWipe | common/src/main/kotlin/org/mcraster/model/DiskBoundModel.kt:49-58 | a directory holding only R-0000000000+0000000000.dat discovers region (0, 0), whose canonical name is absent so the as-written wipe fails, while the documented wipe deletes the file |
| RegionDiscovery.WipesAgreeOnCanonicalNames | common/src/main/kotlin/org/mcraster/model/DiskBoundModel.kt:51-58 | when every region file carries the name the model writes for its key, every match parses and the as-written wipe deletes exactly the files the documented one does |
| RegionDiscovery.SingleFile | common/src/main/kotlin/org/mcraster/model/DiskBoundModel.kt:49-58 | for any non-canonical matching name of key k, the as-written wipe cannot delete k's file and the documented wipe deletes the name |
| RegionDiscovery.NonCanonicalNameParses | src/main/kotlin/org/mcraster/model/DiskBoundModel.kt:146 | R-0000000000+0000000000.dat matches the pattern and parses as region (0, 0) |
| RegionDiscovery.CanonicalZeroName | src/main/kotlin/org/mcraster/model/DiskBoundModel.kt:141-145 | the file name of region (0, 0) is not R-0000000000+0000000000.dat |
| RegionDiscovery.ZeroDigits | src/main/kotlin/org/mcraster/util/StringUtils.kt:7-11 | -0000000000 and +0000000000 both have the fixed-length shape and both parse as 0 |
| RegionDiscovery.Insert | src/main/kotlin/org/mcraster/model/DiskBoundModel.kt:109-114 | inserting a new key into a strictly (x, z)-sorted sequence keeps it sorted, adds exactly that key and grows it by one |
| RegionDiscovery.SortRegionIndices | src/main/kotlin/org/mcraster/model/DiskBoundModel.kt:108-114 | all the keys, each once, in strictly ascending (x, z) order |
| RegionDiscovery.SortedUnique | src/main/kotlin/org/mcraster/model/DiskBoundModel.kt:109-114 | two strictly sorted sequences with the same keys are equal, so the sorted order of a key set is unique |
| StringUtils.Pow10 | src/main/kotlin/org/mcraster/util/StringUtils.kt:3 | a power of ten is at least 1 |
| StringUtils.DigitChar | src/main/kotlin/org/mcraster/util/StringUtils.kt:7-11 | a digit value below ten gives a decimal digit character |
| StringUtils.PadStart | src/main/kotlin/org/mcraster/util/StringUtils.kt:9 | padStart: as long as the text or the target length, whichever is greater; a shorter text gets fill characters in front, a longer one is unchanged |
| StringUtils.IntToString | src/main/kotlin/org/mcraster/util/StringUtils.kt:8 | Int.toString as "-" for negatives followed by the decimal digits of the magnitude (a definition; DigitsShape states the digits' value) |
| StringUtils.ToFixedLengthString | src/main/kotlin/org/mcraster/util/StringUtils.kt:7-11 | the sign, then the unsigned text padded with zeros to ten characters (a definition; FixedLengthShape, ParseFixedLength and FixedLengthInjective state its meaning) |
| StringUtils.ToInt | src/main/kotlin/org/mcraster/model/DiskBoundModel.kt:68 | String.toInt: fails with NumberFormat on the text itself; succeeds on an optional sign and digits whose value fits an Int |
| StringUtils.DigitsShape | src/main/kotlin/org/mcraster/util/StringUtils.kt:7-11 | the decimal text of n is a non-empty digit string whose value is n |
| StringUtils.DigitsLength | src/main/kotlin/org/mcraster/util/StringUtils.kt:3 | a number below 10^k has at most k decimal digits |
| StringUtils.LeadingZeros | src/main/kotlin/org/mcraster/util/StringUtils.kt:9 | zeros in front do not change the value of a digit string |
| StringUtils.ZerosValue | src/main/kotlin/org/mcraster/util/StringUtils.kt:9 | a string of zeros is a digit string of value 0 |
| StringUtils.Magnitude | src/main/kotlin/org/mcraster/util/StringUtils.kt:7-11 | the fixed-length text carries abs(n) as ten zero-padded digits after the sign, Int.MIN_VALUE included |
| StringUtils.FixedLengthShape | src/main/kotlin/org/mcraster/util/StringUtils.kt:3-11 | eleven characters, '+' iff n >= 0 and '-' iff n < 0, then ten digits of value abs(n); the text fits the fixed-length pattern |
| StringUtils.ParseFixedLength | src/main/kotlin/org/mcraster/util/StringUtils.kt:7-11 | toInt of the fixed-length text gives n back |
| StringUtils.FixedLengthInjective | src/main/kotlin/org/mcraster/util/StringUtils.kt:7-11 | distinct Ints have distinct fixed-length texts |
| StringUtils.ZeroText | src/main/kotlin/org/mcraster/util/StringUtils.kt:7-11 | zero is written +0000000000 |
| StringUtils.DigitsValueInjective | src/main/kotlin/org/mcraster/util/StringUtils.kt:7-11 | two digit strings of one length with one value are equal |
| StringUtils.PaddedDigits | src/main/kotlin/org/mcraster/util/StringUtils.kt:7-11 | the magnitude of an Int, padded to ten, is ten digits whose value is the magnitude |
| StringUtils.FixedLengthCanonical | src/main/kotlin/org/mcraster/util/StringUtils.kt:7-11 | a sign-and-ten-digit text that toInt accepts is the fixed-length text of its value, or the negative zero -0000000000 |
| ModelIterators.AxisOfShifted | generator/src/main/kotlin/org/mcraster/model/Block.kt:19-22 | a region-local coordinate shifted by region r stays an Int and decomposes back into region r, its local chunk and its local block |
| ModelIterators.ShiftedPosition | generator/src/main/kotlin/org/mcraster/model/Block.kt:19-22 | a region-local block moved into region k lies in region k at the same height, in the same local chunk and at the same local block |
| ModelIterators.ModelElementIsStoredBlock | src/main/kotlin/org/mcraster/model/DiskBoundModel.kt:121-130 | block s of region i succeeds iff byte s of the stored region decodes; the block then lies in that region and its type is the byte stored for its position |
| ModelIterators.IntactAppend | src/main/kotlin/org/mcraster/model/DiskBoundModel.kt:115 | one more valid region holding its contents keeps the fetched regions intact |
| ModelIterators.ModelIterator.CursorBound | src/main/kotlin/org/mcraster/model/DiskBoundModel.kt:101-105 | the cursor's region rank is at most the number of regions and its step lies in [0, 512*512*256); at the end the step is 0 |
| ModelIterators.ModelIterator.constructor | src/main/kotlin/org/mcraster/model/DiskBoundModel.kt:101-117 | a new iterator over the fetched regions stands before the first block of the first region |
| ModelIterators.ModelIterator.HasNext | src/main/kotlin/org/mcraster/model/DiskBoundModel.kt:119 | true exactly when the cursor has not passed the last region |
| ModelIterators.ModelIterator.Next | src/main/kotlin/org/mcraster/model/DiskBoundModel.kt:121-130 | the block at the cursor, in world coordinates, or NoSuchElement after the last region, or the decode error; on success the cursor moves on by one block |
| ModelIterators.ModelIterator.EnterRegion | src/main/kotlin/org/mcraster/model/DiskBoundModel.kt:122-127 | an exhausted block iterator gives way to the next region's, at its first block, with the cursor unchanged |
| ModelIterators.ModelIterator.TakeBlock | src/main/kotlin/org/mcraster/model/DiskBoundModel.kt:128-129 | the current region's next block moved to the region's place in the world, matching ModelElement at the cursor |
| ModelIterators.NewModelIterator | src/main/kotlin/org/mcraster/model/DiskBoundModel.kt:107-117 | a fresh iterator at the first block of the first region over intact regions, leaving them intact |
| ModelWrites.LastWriteMeaning | src/main/kotlin/org/mcraster/model/DiskBoundModel.kt:50-51 | LastWrite is none iff no write is at q, otherwise the block of a write at q with no later write at q |
| ModelWrites.LastWriteAppend | src/main/kotlin/org/mcraster/model/DiskBoundModel.kt:50-51 | a later batch of writes overrides an earlier one exactly where it writes |
| ModelWrites.LastWriteUniform | src/main/kotlin/org/mcraster/builder/DiskBoundModelBuilder.kt:51-52 | when every write stores the same block, the last write at q is that block iff some write is at q |
| ModelWrites.PaintStep | src/main/kotlin/org/mcraster/model/DiskBoundModel.kt:50-51 | one more setBlock that stored its block extends the painted state by that write |
| ModelWrites.PaintedAppend | src/main/kotlin/org/mcraster/builder/DiskBoundModelBuilder.kt:34-38 | painting with a and then with b paints with a followed by b |
| ModelWrites.WriteAll | src/main/kotlin/org/mcraster/builder/DiskBoundModelBuilder.kt:34-38 | the writes issued in order: all succeed, or the run stops at the first write whose region cannot be loaded, with its error; the model then holds the last write to each position, or what it held |
| ModelWrites.WriteStep | src/main/kotlin/org/mcraster/model/DiskBoundModel.kt:50-51 | one setBlock on a painted model succeeds iff the write's region could be loaded, then extends the painting; otherwise the painting is kept |
| ModelBuilder.Column | src/main/kotlin/org/mcraster/builder/DiskBoundModelBuilder.kt:46-48 | the heights lo to hi in ascending order at one column, none when lo > hi |
| ModelBuilder.PillarCells | src/main/kotlin/org/mcraster/builder/DiskBoundModelBuilder.kt:44-49 | a terrain column leaves UNBREAKABLE_STONE at height 0 and its fill from 1 up to its top, and writes no other cell |
| ModelBuilder.PillarsCells | src/main/kotlin/org/mcraster/builder/DiskBoundModelBuilder.kt:44-49 | the columns of a height map leave UNBREAKABLE_STONE at the base of every column with a top and the fill above it, up to the highest top of the column |
| ModelBuilder.PillarCoversStep | src/main/kotlin/org/mcraster/builder/DiskBoundModelBuilder.kt:44 | some pillar of a list covers q iff the last one or one before it does |
| ModelBuilder.Obj3dCells | src/main/kotlin/org/mcraster/builder/DiskBoundModelBuilder.kt:51-52 | buildObj3d sets exactly the given positions to its block type |
| ModelBuilder.DownColumn | src/main/kotlin/org/mcraster/builder/DiskBoundModelBuilder.kt:68 | the heights hi down to lo at one column, none when lo > hi |
| ModelBuilder.DownColumnCells | src/main/kotlin/org/mcraster/builder/DiskBoundModelBuilder.kt:68-73 | a descending column writes its block exactly at its cells |
| ModelBuilder.BoxRowCells | src/main/kotlin/org/mcraster/builder/DiskBoundModelBuilder.kt:67-74 | a row of columns that needs no Int wrap-around writes its block exactly at its cells |
| ModelBuilder.BoxRowsCells | src/main/kotlin/org/mcraster/builder/DiskBoundModelBuilder.kt:66-75 | the rows of a box that need no Int wrap-around write its block exactly at their cells |
| ModelBuilder.BoxCells | src/main/kotlin/org/mcraster/builder/DiskBoundModelBuilder.kt:66-75 | a box whose footprint does not wrap writes exactly the cells of its footprint between its bottom and its top |
| ModelBuilder.BoxRowLast | src/main/kotlin/org/mcraster/builder/DiskBoundModelBuilder.kt:68 | the last write of a non-empty row is at its bottom height |
| ModelBuilder.BoxLast | src/main/kotlin/org/mcraster/builder/DiskBoundModelBuilder.kt:66-75 | the last write of a non-empty box is at its bottom height |
| ModelBuilder.PoolCells | src/main/kotlin/org/mcraster/builder/DiskBoundModelBuilder.kt:62-77 | the pools leave WATER in the 10 by 10 footprint from offset -5 to 4 of every centroid, from its height down to four below, and nothing else |
| ModelBuilder.PoolCoversStep | src/main/kotlin/org/mcraster/builder/DiskBoundModelBuilder.kt:65 | some pool covers q iff the last one or one before it does |
| ModelBuilder.IslandCells | src/main/kotlin/org/mcraster/builder/DiskBoundModelBuilder.kt:79-94 | the islands leave SOIL_WITH_GRASS in the 50 by 50 footprint from offset -25 to 24 of every centroid, from height 0 down to -4, and nothing else |
| ModelBuilder.IslandCoversStep | src/main/kotlin/org/mcraster/builder/DiskBoundModelBuilder.kt:82 | some island covers q iff the last one or one before it does |
| ModelBuilder.IslandsBelowGround | src/main/kotlin/org/mcraster/builder/DiskBoundModelBuilder.kt:85 | any island writes at a negative height, which no chunk can hold |
| ModelBuilder.BuildCells | src/main/kotlin/org/mcraster/builder/DiskBoundModelBuilder.kt:34-38 | what build leaves in a cell is the block of the last step that writes it: terrain, then obj3d STONE, marker poles, pools, islands |
| ModelBuilder.Build | src/main/kotlin/org/mcraster/builder/DiskBoundModelBuilder.kt:26-42 | all the steps' writes in order as WriteAll describes; when they all succeed the model is flushed and the directory alone holds what the model holds |
| ModelBuilder.Flushed | src/main/kotlin/org/mcraster/builder/DiskBoundModelBuilder.kt:40 | a directory that loads every region as the model holds it leaves the model holding the same |
| WorldBuilders.Clip | src/main/kotlin/org/mcraster/builder/WorldBuilder.kt:66-71 | with a non-empty range the result lies in [lowIncl, highExcl), and a value already inside is kept |
| WorldBuilders.ClipNearest | common/src/test/kotlin/org/mcraster/util/NumberUtilsTest.kt:110-136 | the clipped value is the value of the range nearest to v |
| WorldBuilders.ClipTable | common/src/test/kotlin/org/mcraster/util/NumberUtilsTest.kt:110-136 | the clipping cases of the number utilities' tests, value, low, high and result, hold |
| WorldBuilders.ClipTerrain | src/main/kotlin/org/mcraster/builder/WorldBuilder.kt:67-71 | a terrain point keeps x and z and has its height clipped into the bounds' heights; a height already inside is kept |
| WorldBuilders.BuildTerrain | src/main/kotlin/org/mcraster/builder/WorldBuilder.kt:156-165 | the terrain writes, UNBREAKABLE_STONE at max(minY, 0) and SOIL up to each top, issued in order up to the first whose region cannot be loaded |
| WorldBuilders.TerrainPainted | src/main/kotlin/org/mcraster/builder/WorldBuilder.kt:156-165 | after the terrain the base of every column with a top holds UNBREAKABLE_STONE, the column above it up to its highest top SOIL, and every other cell what it held |
| WorldBuilders.BuildObj3d | src/main/kotlin/org/mcraster/builder/WorldBuilder.kt:222-225 | one write of the block type per position, in order, up to the first whose region cannot be loaded |
| WorldBuilders.Obj3dPainted | src/main/kotlin/org/mcraster/builder/WorldBuilder.kt:222-225 | after a 3D object its positions hold its block type and every other cell what it held |
| WorldBuilders.ProbeColumn | src/main/kotlin/org/mcraster/builder/WorldBuilder.kt:170-176 | getHighestBlockY then getBlock of that position: the column's highest block, none for an empty column, or the error either raises; the model holds the same |
| WorldBuilders.FoundsMembership | src/main/kotlin/org/mcraster/builder/WorldBuilder.kt:169-174 | a position is among those found iff one of the probes found it |
| WorldBuilders.Probes | src/main/kotlin/org/mcraster/builder/WorldBuilder.kt:169-176 | one probe per column |
| WorldBuilders.ProbesAt | src/main/kotlin/org/mcraster/builder/WorldBuilder.kt:169-176 | the j-th probe of a list is the probe of the j-th column |
| WorldBuilders.ProbeFound | src/main/kotlin/org/mcraster/builder/WorldBuilder.kt:170-176 | a found position is in the probed column at a chunk height, is the column's highest block, and its region and byte can be read |
| WorldBuilders.TopsAreTops | src/main/kotlin/org/mcraster/builder/WorldBuilder.kt:169-176 | every position the probes of a prefix of the columns found is what its own column's probe finds |
| WorldBuilders.HighestSamePattern | common/src/main/kotlin/org/mcraster/model/DiskBoundModel.kt:67-70 | columns that are NONE at the same heights have the same highest block |
| WorldBuilders.ProbeKept | src/main/kotlin/org/mcraster/builder/WorldBuilder.kt:169-181 | laying a block other than NONE on found tops moves no column's highest block, so every probe finds what it found before |
| WorldBuilders.PaintedColumn | src/main/kotlin/org/mcraster/builder/WorldBuilder.kt:175-180 | after b is laid on the tops, a column holds b on each top in it and what it held elsewhere |
| WorldBuilders.TopsNotNone | src/main/kotlin/org/mcraster/builder/WorldBuilder.kt:170-175 | a found top holds a block that is not NONE |
| WorldBuilders.ReplaceTop | src/main/kotlin/org/mcraster/builder/WorldBuilder.kt:170-180 | one column: probed and, when it has a top, b replaces it whatever it was; fails iff the probe fails, with its error |
| WorldBuilders.LayOn | src/main/kotlin/org/mcraster/builder/WorldBuilder.kt:180 | the setBlock of a top whose region could be loaded lays b there |
| WorldBuilders.ReplaceTops | src/main/kotlin/org/mcraster/builder/WorldBuilder.kt:167-182 | for each column in order, b replaces its top block and an empty column is skipped; the loop stops at the first failed probe, with its error; the tops are those before the loop |
| WorldBuilders.BuildWaterBodies | src/main/kotlin/org/mcraster/builder/WorldBuilder.kt:167-182 | WATER replaces the top block of every column, as ReplaceTops says |
| WorldBuilders.BuildRoads | src/main/kotlin/org/mcraster/builder/WorldBuilder.kt:185-200 | STONE replaces the top block of every column, as ReplaceTops says |
| WorldBuilders.BuildingCells | src/main/kotlin/org/mcraster/builder/WorldBuilder.kt:216-218 | one building leaves STONE exactly in its column from just above the top up to height blocks higher |
| WorldBuilders.BuildingsCells | src/main/kotlin/org/mcraster/builder/WorldBuilder.kt:205-219 | the buildings leave STONE exactly where one of them covers |
| WorldBuilders.BuildingWritesAvoid | src/main/kotlin/org/mcraster/builder/WorldBuilder.kt:216-218 | buildings on tops found in other columns write nothing in a given column |
| WorldBuilders.ProbesApart | src/main/kotlin/org/mcraster/builder/WorldBuilder.kt:205-211 | the probes of distinct columns find nothing in a later column |
| WorldBuilders.ProbeUntouched | src/main/kotlin/org/mcraster/builder/WorldBuilder.kt:206-212 | writes that avoid a column change nothing that column's probe finds |
| WorldBuilders.RaiseBuilding | src/main/kotlin/org/mcraster/builder/WorldBuilder.kt:206-218 | one column: probed and, when it has a top, STONE from just above it height blocks up; fails iff the probe fails, with its error |
| WorldBuilders.RaiseOn | src/main/kotlin/org/mcraster/builder/WorldBuilder.kt:216-218 | the inner loop of one building: STONE from just above the top, height blocks up, all in the top's region |
| WorldBuilders.BuildBuildings | src/main/kotlin/org/mcraster/builder/WorldBuilder.kt:203-220 | for each column in order a building on its top, an empty column skipped and the top left as it is; stops at the first failed probe, with its error |
| WorldBuilders.BuildingsPainted | src/main/kotlin/org/mcraster/builder/WorldBuilder.kt:203-220 | after the buildings every covered cell above a found top holds STONE and every other cell, the tops included, what it held |
| WorldBuilders.AdjustSpawn | src/main/kotlin/org/mcraster/builder/WorldBuilder.kt:118-127 | x and z are kept; with no highest block the origin is kept; otherwise the result is 0 to 5 blocks above the ideal spawn height |
| WorldBuilders.SpawnAdjusted | src/main/kotlin/org/mcraster/builder/WorldBuilder.kt:122-126 | the origin is kept exactly when it is 0 to 5 blocks above the ideal height, and otherwise moves to that height |
| WorldBuilders.CheckSpawn | src/main/kotlin/org/mcraster/builder/WorldBuilder.kt:117-127 | getHighestBlockY at the origin's column, then the adjustment, or the load error; the model holds the same |
| NumberUtils.Truncate | src/main/kotlin/org/mcraster/util/NumberUtils.kt:13 | dropping the fraction moves toward zero: t <= x < t + 1 for x >= 0 and t - 1 < x <= t for x < 0 |
| NumberUtils.IntValueExact | src/main/kotlin/org/mcraster/util/NumberUtils.kt:20 | succeeds exactly inside Int range and then keeps the value; otherwise the arithmetic error |
| NumberUtils.RoundDownToIntExact | src/main/kotlin/org/mcraster/util/NumberUtils.kt:11-23 | the result is the floor of x, and it fails exactly when that floor lies outside Int range |
| NumberUtils.RoundToIntHalfUpExact | src/main/kotlin/org/mcraster/util/NumberUtils.kt:25-39 | the result is the floor of x + 0.5 (halves go up), and it fails exactly when that lies outside Int range |
| NumberUtils.RoundDownBrackets | src/main/kotlin/org/mcraster/util/NumberUtils.kt:18-21 | a successful rounding down gives r with r <= x < r + 1 |
| NumberUtils.RoundDownWhole | src/main/kotlin/org/mcraster/util/NumberUtils.kt:14-15 | a whole number rounds down to itself inside Int range and fails outside it |
| NumberUtils.RoundHalfUpChange | src/main/kotlin/org/mcraster/util/NumberUtils.kt:35-37 | a successful half-up rounding moves x by a change in (-0.5, 0.5] |
| NumberUtils.RoundHalfUpWholeAndHalf | src/main/kotlin/org/mcraster/util/NumberUtils.kt:25-39 | a whole number rounds to itself and the half above it to the next integer |
| NumberUtils.RoundDownTable | src/test/kotlin/org/mcraster/util/NumberUtilsTest.kt:11-38 | every input/output pair of the rounding-down test table |
| NumberUtils.RoundHalfUpTable | src/test/kotlin/org/mcraster/util/NumberUtilsTest.kt:41-68 | every input/output pair of the half-up test table |
| NumberUtils.RoundingOverflows | src/main/kotlin/org/mcraster/util/NumberUtils.kt:19-37 | 2^31 fails either way, -2^31 - 0.5 fails rounding down but rounds half up to Int.MIN_VALUE |
| CoordinateUtils.Lest97ToMc | src/main/kotlin/org/mcraster/util/CoordinateUtils.kt:30-38 | L-EST97 y is world x, h + 62 the height and -x world z (Int wrap-around included); the warning is logged exactly when a coordinate leaves its range, and the triple is returned anyway |
| CoordinateUtils.Lest97RoundTrip | src/main/kotlin/org/mcraster/util/CoordinateUtils.kt:30-37 | converting to the world and back gives the L-EST97 triple for every Int input |
| CoordinateUtils.McRoundTrip | src/main/kotlin/org/mcraster/util/CoordinateUtils.kt:30-37 | every world position is the conversion of some triple, so the conversion is a bijection on Int triples |
| Lest97Blocks.ToBlockPos | src/main/kotlin/org/mcraster/converters/BlockPosLEst97.kt:19-23 | world x is y, world z is -x - 1 and the height h + s + 1, in Int arithmetic and with no clamping |
| Lest97Blocks.PlaceRoundTrip | src/main/kotlin/org/mcraster/converters/BlockPosLEst97.kt:19-23 | for one sea level, placing a block and reading it back gives the block: placement is injective |
| Lest97Blocks.PlaceOnto | src/main/kotlin/org/mcraster/converters/BlockPosLEst97.kt:19-23 | for one sea level, every world position is the placement of some block |
| Lest97Blocks.PlaceNearAxis | src/test/kotlin/org/mcraster/converters/BlockPosLEst97Test.kt:10-14 | the block (-2, 3, -1) at sea level -1 is placed at (3, -1, 1) |
| Lest97Blocks.PlaceUnclamped | src/test/kotlin/org/mcraster/converters/BlockPosLEst97Test.kt:46-50 | the block (1, 1, -990) at sea level 30 is placed at (1, -959, -2): heights are not clamped |
| Object3dEditor.Box | src/main/kotlin/org/mcraster/Main.kt:130-135 | the four box kinds are exactly the four pairs of bits (full, box below full) |
| Object3dEditor.BoxBits | src/main/kotlin/org/mcraster/Main.kt:130-135 | a box is determined by its two bits |
| Object3dEditor.Initial | src/main/kotlin/org/mcraster/Main.kt:140-142 | the editor starts on layer 0 of one square layer of boxes that are all empty over empty |
| Object3dEditor.FlipBox | src/main/kotlin/org/mcraster/Main.kt:152-157 | a click swaps full and empty and keeps the bit about the box below |
| Object3dEditor.Flip | src/main/kotlin/org/mcraster/Main.kt:149-160 | a click outside the grid leaves the state as it is; inside, exactly box (x, y) of the current layer is flipped and every other box of every layer is kept |
| Object3dEditor.NextEmptyBox | src/main/kotlin/org/mcraster/Main.kt:194-197 | a box of a new layer is empty, and over a full box exactly when the box below is full |
| Object3dEditor.NextEmptyLayer | src/main/kotlin/org/mcraster/Main.kt:192 | the new layer has the old one's shape, every box empty and marking exactly the full boxes below |
| Object3dEditor.UpdateBox | src/main/kotlin/org/mcraster/Main.kt:205-218 | a box keeps whether it is full and records whether the box below is full |
| Object3dEditor.UpdateRow | src/main/kotlin/org/mcraster/Main.kt:202-203 | the row is zipped with the row below: as long as the shorter, each box updated against the one below it |
| Object3dEditor.UpdateLayer | src/main/kotlin/org/mcraster/Main.kt:199-200 | the layer is zipped row by row with the layer below, as long as the shorter |
| Object3dEditor.UpdateLayers | src/main/kotlin/org/mcraster/Main.kt:184-186 | the layers up to the current index verbatim, each higher layer updated against the layer below it, and a new empty top when the current layer is the top (a definition; UpdateLayersAt and UpdateLayersMeaning state its meaning) |
| Object3dEditor.UpdateLayersAt | src/main/kotlin/org/mcraster/Main.kt:184-186 | layer k after the update is the old layer up to the current index, the old one updated against the layer below above it, and a new empty top exactly when the current layer was the top |
| Object3dEditor.UpdateLayerAgrees | src/main/kotlin/org/mcraster/Main.kt:199-218 | an updated square layer is square, keeps its full boxes and marks exactly the full boxes of the layer below |
| Object3dEditor.UpdateLayersMeaning | src/main/kotlin/org/mcraster/Main.kt:184-186 | after the update every layer is square, the current layer and those below are kept, higher layers keep their full boxes, an added top is empty, and every layer above the current one agrees with the layer below it |
| Object3dEditor.NavLeft | src/main/kotlin/org/mcraster/Main.kt:145 | at layer 0 the state is kept; otherwise the index goes down by one over the updated layers |
| Object3dEditor.NavRight | src/main/kotlin/org/mcraster/Main.kt:147 | the index goes up by one over the updated layers, which gained a layer exactly when the current one was the top |
| Object3dEditor.DumpRow | src/main/kotlin/org/mcraster/Main.kt:170-178 | the line written for a row is four spaces, then X or - and a space for each box |
| Object3dEditor.Dump | src/main/kotlin/org/mcraster/Main.kt:162-182 | the lines written are the dimensions header, then for each layer "Layer i" and one line per row |
| Obj3dReaders.Obj3dFileLinesTransformer.Start | src/main/kotlin/org/mcraster/reader/Obj3dReader.kt:17-18 | the first line is taken and ignored, no row is under way, and nothing is held yet |
| Obj3dReaders.Obj3dFileLinesTransformer.Open | src/main/kotlin/org/mcraster/reader/Obj3dReader.kt:15-19 | opening fails exactly when the file's scan ends in an error before any full box (an empty file included), with that error; otherwise the reader holds the whole scan ahead |
| Obj3dReaders.Obj3dFileLinesTransformer.HasNext | src/main/kotlin/org/mcraster/reader/Obj3dReader.kt:21 | there is a next position exactly when anything is ahead |
| Obj3dReaders.Obj3dFileLinesTransformer.Next | src/main/kotlin/org/mcraster/reader/Obj3dReader.kt:23-27 | with nothing held the orThrow error; when looking further ahead fails, that error and the held position is lost; otherwise the first position ahead, and the rest stays ahead |
| Obj3dReaders.Obj3dFileLinesTransformer.NextInternal | src/main/kotlin/org/mcraster/reader/Obj3dReader.kt:29-49 | the result is the first full box the remaining rows and lines give after prevPos, none exactly when they give nothing, or the unrecognized-line error they end in; what is left gives the rest |
| Obj3dReaders.Obj3dFileLinesTransformer.NextCurrentLine | src/main/kotlin/org/mcraster/reader/Obj3dReader.kt:51-60 | the result is the column of the first 'X' in the rest of the row, two characters per box, none exactly when there is none (the row is then used up), or the error of a character left without its space |
| Obj3dReaders.ReadAll | src/main/kotlin/org/mcraster/reader/Obj3dReader.kt:10-13 | consuming the reader yields the file's full boxes in order, less a position lost to a look-ahead error, and ends with the file's error, if any |
| Obj3dRoundTrip.RowBoxesMembership | src/main/kotlin/org/mcraster/Main.kt:171-177 | a position is among a row's full boxes exactly when it is on that row and layer and its box is full |
| Obj3dRoundTrip.LayerBoxesMembership | src/main/kotlin/org/mcraster/Main.kt:169-179 | a position is among a layer's full boxes exactly when it is in that layer and its box is full |
| Obj3dRoundTrip.FullBoxesMembership | src/main/kotlin/org/mcraster/Main.kt:166-180 | the positions are exactly the (column, layer, row) triples whose box is full |
| Obj3dRoundTrip.FullBoxesAscending | src/main/kotlin/org/mcraster/Main.kt:166-180 | the positions come layer by layer, row by row, column by column, each once |
| Obj3dRoundTrip.RowScanAppend | src/main/kotlin/org/mcraster/reader/Obj3dReader.kt:51-60 | reading a row of whole boxes and then more characters is reading the boxes, then the rest from the column they end at |
| Obj3dRoundTrip.LinesScanAppend | src/main/kotlin/org/mcraster/reader/Obj3dReader.kt:29-49 | reading two runs of lines is reading the first, then the second from the layer and row the first end at |
| Obj3dRoundTrip.RowReadsBack | src/main/kotlin/org/mcraster/reader/Obj3dReader.kt:51-60 | a dumped row reads back as exactly its full boxes, with no error, ending at the last column |
| Obj3dRoundTrip.RowsReadBack | src/main/kotlin/org/mcraster/reader/Obj3dReader.kt:39-47 | the dumped rows of a layer read back as exactly its full boxes, with no error, ending at the last row |
| Obj3dRoundTrip.LayersReadBack | src/main/kotlin/org/mcraster/reader/Obj3dReader.kt:29-49 | the dumped layers read back as exactly the full boxes, with no error |
| Obj3dRoundTrip.DumpReadsBack | src/main/kotlin/org/mcraster/reader/Obj3dReader.kt:10-19 | reading back a dump yields exactly the full boxes of the object, in order, and ends without an error |
| Obj3dRoundTrip.RowScanAscending | src/main/kotlin/org/mcraster/reader/Obj3dReader.kt:51-60 | the boxes of one row come in increasing columns past the starting column, all in that row and layer, while the column count cannot wrap |
| Obj3dRoundTrip.LinesScanAscending | src/main/kotlin/org/mcraster/reader/Obj3dReader.kt:29-49 | for any lines, the positions come in strictly ascending (layer, row, column) order, all after the starting row of the starting layer, while no count can wrap |
| Obj3dRoundTrip.ReadAscending | src/main/kotlin/org/mcraster/reader/Obj3dReader.kt:10-49 | for any file of fewer than 2^31 lines, each shorter than 2^32 characters, the positions scanned and those a consumer sees are strictly ascending in (layer, row, column), so each comes once |
| PolygonMasks.CellsFromMembership | src/main/kotlin/org/mcraster/converters/Polygon.kt:27-42 | the cells the walk from (z, x) reaches are exactly the true cells at or after (z, x) |
| PolygonMasks.CellsFromAscending | src/main/kotlin/org/mcraster/converters/Polygon.kt:27-42 | the walk reaches the cells rows in order and columns in order within a row, each once |
| PolygonMasks.Positions | src/main/kotlin/org/mcraster/converters/Polygon.kt:42 | the position of cell (z, x) is the origin offset by x and z |
| PolygonMasks.PolygonMask.constructor | src/main/kotlin/org/mcraster/converters/Polygon.kt:23-25 | the iterator starts at (0, 0) with every true cell of the mask still to come |
| PolygonMasks.PolygonMask.HasNext | src/main/kotlin/org/mcraster/converters/Polygon.kt:27-38 | skipping false cells does not change what is to come; the result is whether anything is, and then the cursor stands on a true cell |
| PolygonMasks.PolygonMask.Next | src/main/kotlin/org/mcraster/converters/Polygon.kt:40-43 | with nothing to come the "No next element" error; otherwise the first position to come, which is then dropped |
| PolygonMasks.MaskPositions | src/main/kotlin/org/mcraster/converters/Polygon.kt:23-44 | consuming the iterator yields the positions of the mask's true cells, rows in order and columns in order |
| PolygonMasks.OrRow | src/main/kotlin/org/mcraster/converters/Polygon.kt:250-252 | a merged row is as long as the rows and holds the OR of each pair of cells |
| PolygonMasks.FirstRowMismatch | src/main/kotlin/org/mcraster/converters/Polygon.kt:248-249 | the first row from z whose lengths differ, and every row before it matches |
| PolygonMasks.MergedRows | src/main/kotlin/org/mcraster/converters/Polygon.kt:247-253 | the rows merged before a failure (all rows on success) all match in length |
| PolygonMasks.MergeMasks | src/main/kotlin/org/mcraster/converters/Polygon.kt:246-255 | the merge succeeds exactly when the row counts and every row length agree, giving the cell-wise OR; a row-count mismatch is the canvas-size error |
| PolygonMasks.OrInto | src/main/kotlin/org/mcraster/converters/Polygon.kt:250-252 | the target row becomes the OR of its old cells and the source row's |
| PolygonMasks.Merge | src/main/kotlin/org/mcraster/converters/Polygon.kt:246-255 | the in-place merge fails exactly when the value merge does, with its error; on success a holds the OR; rows before a failing row are already merged and the rest kept; b is not changed |
| PolygonMasks.MergedCells | src/main/kotlin/org/mcraster/converters/Polygon.kt:246-255 | the true cells of a merged mask are those of either mask |
| PolygonMasks.MergeAll | src/main/kotlin/org/mcraster/converters/Polygon.kt:61-63 | `reduceOrNull` by merge over one or more masks, left to right, stopping at the first merge error (a definition; MergeAllUnion states its meaning) |
| PolygonMasks.Rasterize | src/main/kotlin/org/mcraster/converters/Polygon.kt:54-66 | a canvas whose wrapped width or depth is not positive fails, no pieces give no mask, and otherwise the merged pieces; the generator's `createRasterMask` is the same (a definition; RasterizeUnion and RasterizeRejectsCanvas state its meaning) |
| PolygonMasks.MergeAllUnion | src/main/kotlin/org/mcraster/converters/Polygon.kt:61-63 | reducing masks of one shape by merge gives that shape, a cell being true exactly when it is true in some piece |
| PolygonMasks.RasterizeUnion | src/main/kotlin/org/mcraster/converters/Polygon.kt:54-66 | on a canvas of positive size, no pieces give no mask, and otherwise one canvas-sized mask whose true cells are those of any piece |
| PolygonMasks.RasterizeRejectsCanvas | src/main/kotlin/org/mcraster/converters/Polygon.kt:54-66 | rasterizing fails exactly when the canvas has no positive width or depth or merging the pieces fails |
| PolygonTiles.Starts | src/main/kotlin/org/mcraster/converters/Polygon.kt:104 | the starts of a stepped range lie in [lo, hi), begin at lo, and there are some exactly when lo < hi |
| PolygonTiles.Tile | generator/src/main/kotlin/org/mcraster/converters/Polygon.kt:112-120 | the canvas from a start pair: the end is the start plus the size in wrapped `Int` arithmetic, capped by the area's end with `min` when clamped (a definition; CanvasTilesInside, SquareTilesSquare and TileContains state its meaning) |
| PolygonTiles.Tiles | src/main/kotlin/org/mcraster/converters/Polygon.kt:102-118 | a size of zero or less fails; otherwise the canvases of the x starts outer and the z starts inner (a definition; TilesRejectSize, TilesOfMembership, TilesCover and TilesDisjoint state its meaning) |
| PolygonTiles.CanvasTiles | generator/src/main/kotlin/org/mcraster/converters/Polygon.kt:104-121 | `createRasterMasks`' canvases, clamped to the area (a definition; TilesCover, TilesDisjoint and CanvasTilesInside state its meaning) |
| PolygonTiles.SquareTiles | src/main/kotlin/org/mcraster/converters/Polygon.kt:102-118 | `rasterizeMulti`'s canvases, each size by size and not clamped (a definition; TilesCover, TilesDisjoint, SquareTilesSquare and SquareTilesOverhang state its meaning) |
| PolygonTiles.RasterizeEach | src/main/kotlin/org/mcraster/converters/Polygon.kt:111-119 | the rasterized canvases consumed in order with the empty ones dropped, ending at the first failing canvas (a definition; RasterizeEachFails and RasterizeEachMasks state its meaning) |
| PolygonTiles.RasterizeEachFails | src/main/kotlin/org/mcraster/converters/Polygon.kt:111-119 | the walk ends in an error exactly when some canvas fails to rasterize, and that error is the canvas's |
| PolygonTiles.RasterizeEachMasks | src/main/kotlin/org/mcraster/converters/Polygon.kt:111-119 | when every canvas has positive size and pieces of its size, no error, one mask per canvas with pieces in canvas order (`filterNotNull`), each the union of that canvas's pieces |
| PolygonTiles.StartsSpaced | src/main/kotlin/org/mcraster/converters/Polygon.kt:104 | consecutive starts are at least a step apart |
| PolygonTiles.StartsCover | src/main/kotlin/org/mcraster/converters/Polygon.kt:104-109 | every point of [lo, hi) lies within a step after some start |
| PolygonTiles.StartsUnique | src/main/kotlin/org/mcraster/converters/Polygon.kt:104-109 | at most one start has a given point within the step after it |
| PolygonTiles.TilesOfMembership | src/main/kotlin/org/mcraster/converters/Polygon.kt:106-110 | a canvas is produced exactly when it is the canvas of some pair of x and z starts |
| PolygonTiles.TilesRejectSize | src/main/kotlin/org/mcraster/converters/Polygon.kt:102-103 | both versions fail with an `IllegalArgument` error exactly when the size is zero or less, and tile otherwise |
| PolygonTiles.TileContains | generator/src/main/kotlin/org/mcraster/converters/Polygon.kt:112-119 | the canvas from a start holds a point exactly when the point is within a step after the start, and also inside the area when clamped |
| PolygonTiles.TilesCover | src/main/kotlin/org/mcraster/converters/Polygon.kt:102-119 | every point of the area lies in some canvas, in both versions |
| PolygonTiles.TileIndex | src/main/kotlin/org/mcraster/converters/Polygon.kt:104-110 | every canvas produced comes from a pair of starts |
| PolygonTiles.TilesDisjoint | src/main/kotlin/org/mcraster/converters/Polygon.kt:102-119 | no point lies in two different canvases |
| PolygonTiles.CanvasTilesInside | generator/src/main/kotlin/org/mcraster/converters/Polygon.kt:104-122 | the generator's canvases are inside the area, at most size by size and of positive size, so their rasterizing never fails for the canvas |
| PolygonTiles.SquareTilesSquare | src/main/kotlin/org/mcraster/converters/Polygon.kt:110-118 | rasterizeMulti's canvases start inside the area and are all size by size |
| PolygonTiles.SquareTilesOverhang | generator/src/main/kotlin/org/mcraster/converters/Polygon.kt:113-116 | on a 5 by 5 area with size 4 the last square canvas reaches past the area and the clamped one stops at it |
| PolygonTiles.RingsCornered | generator/src/main/kotlin/org/mcraster/converters/Polygon.kt:157-165 | the rings pass exactly when each has at least three corners |
| PolygonTiles.CheckCorners | generator/src/main/kotlin/org/mcraster/converters/Polygon.kt:157-165 | the polygon passes the corner check exactly when the shell and every hole have at least three corners |
| PolygonTiles.CornerCountTable | src/test/kotlin/org/mcraster/converters/PolygonTest.kt:16-77 | shells of zero, one and two corners fail; a square shell passes, and holes of zero, one and two corners fail |

## Left out

- File I/O, streams and compression. The directory is a map from names to entries. A region file holds the serialised region directly (gzip is the identity). `directory.list()` returning null is not modelled.
- Wall-clock time. `lastAccessTime` comes from a logical clock that increases at every stamp. The age comparison for eviction compares those stamps.
- Console and error-stream logging. The soft limit warning in `setBlock` and the out-of-range warning of `lest97ToMc` are returned as a flag. The other messages are not modelled.
- ByteArrays.DimensionalByteArray.constructor: requires dimensions the constructor accepts, and a product that fits an `Int`. The source's own failure on bad dimensions is modelled separately as `CheckDimensions`. An overflowing product is not modelled.
- ByteArrays.ByteVec3.constructor: the same preconditions as the array it wraps.
- ByteArrays.CheckDimensions: every rejection is `IllegalArgument`. The source fails in three ways: `reduce` throws UnsupportedOperationException on no dimensions, the allocation throws NegativeArraySizeException on a negative product, and the explicit check throws RuntimeException otherwise. The model keeps which inputs fail, including all-positive dimensions whose Int product wraps negative, not which exception.
- Chunks.Chunk.GetBlock: requires 0 <= y < 256. The byte array checks no individual index, so an out-of-range height reads another cell or fails on the flat index; that is not modelled.
- Chunks.Chunk.SetBlock: requires 0 <= y < 256, as for `GetBlock`.
- Regions.Region.GetBlock: requires 0 <= y < 256, as for the chunk.
- Regions.Region.SetBlock: requires 0 <= y < 256, as for the chunk.
- DiskBoundModels.DiskBoundModel.GetBlock: requires 0 <= y < 256, passed on to the region.
- DiskBoundModels.DiskBoundModel.SetBlock: requires 0 <= y < 256. A position outside the world limits but within that height range is still written, and the warning is modelled.
- ModelWrites.WriteAll: requires every write to have a height in [0, 256).
- ModelBuilder.Build: requires every write of the build to have a height in [0, 256). Islands write y = 0 down to -4, so a build with islands is excluded (`ModelBuilder.IslandsBelowGround` shows their writes leave the range). So are pools whose depth goes below 0. The default island source is empty.
- WorldBuilders.BuildTerrain: requires the terrain writes to have heights in [0, 256).
- WorldBuilders.BuildObj3d: requires the object's positions to have heights in [0, 256).
- WorldBuilders.ReplaceTops: requires a block other than NONE. The callers pass WATER and STONE.
- WorldBuilders.BuildBuildings: requires distinct columns and buildings that fit under the height limit. Two buildings on the same column, where the second would stand on the first, are not modelled.
- WorldBuilders.Clip: the bounds check of the origin sits in the `buildWithJ2Blocks` orchestration, which is not part of this model.
- CachedMaps.CachedMap.constructor: requires a positive line size. The model's line size is the constant 64.
- DiskBoundModels.Open: uses the documented wipe, which deletes each matching file under its listed name. The source deletes the canonical name of each discovered key. It therefore throws where `Open` succeeds when a matching name is not canonical, such as `R-0000000000+0000000000.dat` (see Findings). `Open` states the source's outcome only for directories whose region files all carry canonical names. When a delete fails part-way, `Open` returns only the error; the files the source has already deleted by then are not modelled.
- Object3dEditor.Flip: requires a state the editor can reach: the index names a layer, and every layer is 40 by 40. The same holds for `NavLeft`, `NavRight`, `UpdateLayersAt` and `UpdateLayersMeaning`. An index past the last layer is not modelled.
- Obj3dRoundTrip.DumpReadsBack: requires fewer than 2^31 layers, so that the reader's `Int` counters cannot wrap.
- Obj3dRoundTrip.ReadAscending: requires fewer than 2^31 lines, each shorter than 2^32 characters, so that no counter wraps. The same holds for `LinesScanAscending` and `RowScanAscending`. A file long enough to wrap a counter is not modelled.
- PolygonMasks.Merge: requires the rows of the two masks to be distinct arrays. Merging a mask into itself, or masks that share a row, is not modelled.
- PolygonTiles.TilesCover: requires that no canvas end passes the largest `Int`. The same holds for `TileContains`, `TilesDisjoint`, `CanvasTilesInside` and `SquareTilesSquare`. Tiling near the top of the `Int` range, where the source's `Int` additions wrap, is not modelled.
- The rasterizer itself: `rasterizeNoCrop`, `createRasterMaskNoCrop`, `crop`, JTS validity and `getBoundingRectCenter` use java.awt and JTS with doubles. The masks of a polygon's pieces are a parameter of `Rasterize`.
- The laziness of `rasterizeMulti` and `createRasterMasks`. Their sequences are modelled as consumed to the end: the list of canvases (`Tiles`), then `RasterizeEach` over it. How far a consumer reads, and when each canvas is rasterized, is not modelled.
- Floating-point conversions: `lest97XyhToMc`, `fromPointOnBlock*`, `toBoxIndex` and the `Double` heights the builders receive.
- The Compose GUI of the editor. Only `Object3dState` and its dump are modelled.
- `orThrow` is modelled as an `IllegalArgument` error.
- `Region.getHighestBlockY` is not part of this model: its source is not shown. It is taken as the highest y whose byte is not NONE, scanning 255 down to 0, with the stamp refreshed as `getBlock` does.
- StringUtils.ToInt: accepts ASCII digits only, while Kotlin's `toInt` also accepts other Unicode decimal digits. Its only inputs are groups of the region pattern, which are ASCII.
- `intFixedLengthRegex` is not part of this model. It is taken as a sign followed by ten digits, parsed with `String.toInt`.
- The data holders in `BlockPos.kt` (`BlockPos`, `HorPos`, `HorPosRect`, `HorBlockPos` and friends) are not part of this model. They are taken as tuples of `Int`s, with the region and local accessors defined through the `HorPos.kt` decomposition.
- Also not part of this model: the legacy `Binary*` store, the J2Blocks writers, the file readers, the configuration classes and the build scripts.

## Findings

| source | as written | input that shows it | evidently intended | confidence | as-written member | corrected member |
|---|---|---|---|---|---|---|
| common/src/main/kotlin/org/mcraster/model/DiskBoundModel.kt:49-58 | the overwrite wipe deletes the canonical file name of each discovered key, not the name the file was listed under | a directory holding only `R-0000000000+0000000000.dat`: it matches the pattern and parses as region (0, 0), but the canonical name of (0, 0) is `R+0000000000+0000000000.dat`, so `delete()` fails and the constructor throws (`NonCanonicalNameDefeatsWipe`) | every file whose name matches the region pattern is deleted and every other file is kept, as the class documentation says (`MatchingWipeLeavesOthers`); the two agree when all names are canonical (`WipesAgreeOnCanonicalNames`) | not executed; the regex is not shown and is taken as a sign and ten digits | RegionDiscovery.DeleteRegionFiles | RegionDiscovery.DeleteMatchingFiles |
