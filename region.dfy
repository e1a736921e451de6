/**
 * A 32×32 grid of chunks with a last-access stamp and a dirty flag, its
 * serialised form and its block iterator.
 */
module Regions {
  import opened KotlinInt
  import opened Outcomes
  import opened BlockPositions
  import opened BlockTypes
  import opened Blocks
  import opened ByteArrays
  import opened Chunks

  const REGION_CHUNKS: int := 1024
  /** REGION_CHUNKS * CHUNK_BYTES. */
  const REGION_BYTES: int := 67_108_864

  /** A region's contents: the bytes of its 1024 chunks, chunk (cx, cz) at position cx*32 + cz. */
  type RegionData = seq<seq<Byte>>

  ghost predicate WellFormed(d: RegionData) {
    |d| == REGION_CHUNKS && forall c :: 0 <= c < REGION_CHUNKS ==> |d[c]| == CHUNK_BYTES
  }

  /** Chunk-X outer, chunk-Z inner. */
  function ChunkIndex(cx: int, cz: int): int {
    cx * 32 + cz
  }

  /** A fresh region: every chunk all NONE. */
  function EmptyRegion(): RegionData {
    seq(REGION_CHUNKS, _ => EMPTY_CHUNK)
  }

  lemma EmptyRegionWellFormed()
    ensures WellFormed(EmptyRegion())
  {
  }

  /** The concatenation of a sequence of chunks' bytes. */
  function Flatten(d: seq<seq<Byte>>): seq<Byte> {
    if |d| == 0 then [] else Flatten(d[..|d| - 1]) + d[|d| - 1]
  }

  /** The region's bytes as `write` emits them. */
  function Serialize(d: RegionData): seq<Byte> {
    Flatten(d)
  }

  /** The region `read` builds from the front of a stream. */
  function Deserialize(b: seq<Byte>): (d: RegionData)
    requires |b| >= REGION_BYTES
    ensures WellFormed(d)
  {
    seq(REGION_CHUNKS, c requires 0 <= c < REGION_CHUNKS => b[c * CHUNK_BYTES .. (c + 1) * CHUNK_BYTES])
  }

  /** Byte j of the c-th chunk sits at offset c*65536 + j of the concatenation. */
  lemma {:induction false} FlattenAt(d: seq<seq<Byte>>, c: int, j: int)
    requires forall i :: 0 <= i < |d| ==> |d[i]| == CHUNK_BYTES
    requires 0 <= c < |d| && 0 <= j < CHUNK_BYTES
    ensures |Flatten(d)| == |d| * CHUNK_BYTES
    ensures Flatten(d)[c * CHUNK_BYTES + j] == d[c][j]
  {
    var n := |d|;
    var init := d[..n - 1];
    FlattenLength(init);
    if c < n - 1 {
      FlattenAt(init, c, j);
    }
  }

  lemma {:induction false} FlattenLength(d: seq<seq<Byte>>)
    requires forall i :: 0 <= i < |d| ==> |d[i]| == CHUNK_BYTES
    ensures |Flatten(d)| == |d| * CHUNK_BYTES
  {
    if |d| > 0 {
      FlattenLength(d[..|d| - 1]);
    }
  }

  /** Reading back what `write` emitted restores the region, whatever follows it in the stream. */
  lemma SerializeRoundTrip(d: RegionData, tail: seq<Byte>)
    requires WellFormed(d)
    ensures |Serialize(d)| == REGION_BYTES
    ensures Deserialize(Serialize(d) + tail) == d
  {
    FlattenLength(d);
    var b := Serialize(d) + tail;
    forall c | 0 <= c < REGION_CHUNKS
      ensures b[c * CHUNK_BYTES .. (c + 1) * CHUNK_BYTES] == d[c]
    {
      forall j | 0 <= j < CHUNK_BYTES
        ensures b[c * CHUNK_BYTES + j] == d[c][j]
      {
        FlattenAt(d, c, j);
      }
    }
  }

  /** Serializing what `read` built gives back the bytes it consumed. */
  lemma DeserializeRoundTrip(b: seq<Byte>)
    requires |b| >= REGION_BYTES
    ensures Serialize(Deserialize(b)) == b[..REGION_BYTES]
  {
    var d := Deserialize(b);
    FlattenLength(d);
    forall k | 0 <= k < REGION_BYTES
      ensures Serialize(d)[k] == b[k]
    {
      var c, j := k / CHUNK_BYTES, k % CHUNK_BYTES;
      FlattenAt(d, c, j);
    }
  }

  lemma SuffixSlices(s: seq<Byte>, a: int, len: int)
    requires 0 <= a && 0 <= len && a + len <= |s|
    ensures s[a..][..len] == s[a..a + len] && s[a..][len..] == s[a + len..]
  {
  }

  /** The byte stored for a global position in its region. */
  function RegionCell(d: RegionData, pos: BlockPos): Byte
    requires WellFormed(d) && 0 <= pos.y < 256
  {
    d[ChunkIndex(LocalChunkX(pos), LocalChunkZ(pos))][CellOf(pos)]
  }

  /** The region after storing byte v for a position. */
  function SetCell(d: RegionData, pos: BlockPos, v: Byte): (r: RegionData)
    requires WellFormed(d) && 0 <= pos.y < 256
    ensures WellFormed(r)
  {
    var c := ChunkIndex(LocalChunkX(pos), LocalChunkZ(pos));
    var chunk: seq<Byte> := d[c][CellOf(pos) := v];
    d[c := chunk]
  }

  /**
   * Get after set, for two positions of the same region: the stored value at
   * the written position, the old value everywhere else.
   */
  lemma GetAfterSet(d: RegionData, p: BlockPos, q: BlockPos, v: Byte)
    requires WellFormed(d) && 0 <= p.y < 256 && 0 <= q.y < 256
    requires RegionX(p) == RegionX(q) && RegionZ(p) == RegionZ(q)
    ensures RegionCell(SetCell(d, p, v), q) == if p == q then v else RegionCell(d, q)
  {
    if ChunkIndex(LocalChunkX(p), LocalChunkZ(p)) == ChunkIndex(LocalChunkX(q), LocalChunkZ(q)) &&
       CellOf(p) == CellOf(q) {
      DigitUnique(LocalChunkX(p), LocalChunkZ(p), LocalChunkX(q), LocalChunkZ(q), 32);
      CellIndexInjective(LocalBlockX(p), LocalBlockZ(p), p.y, LocalBlockX(q), LocalBlockZ(q), q.y);
      DecompositionInjective(p, q);
    }
  }

  /** The chunk and offset of step k of a region walk. */
  lemma StepSplit(c: int, j: int)
    requires 0 <= c < REGION_CHUNKS && 0 <= j < CHUNK_BYTES
    ensures (c * CHUNK_BYTES + j) / CHUNK_BYTES == c && (c * CHUNK_BYTES + j) % CHUNK_BYTES == j
  {
    var k := c * CHUNK_BYTES + j;
    DigitUnique(k / CHUNK_BYTES, k % CHUNK_BYTES, c, j, CHUNK_BYTES);
  }

  lemma ChunkIndexInjective(cx: int, cz: int, cx': int, cz': int)
    requires 0 <= cz < 32 && 0 <= cz' < 32
    ensures ChunkIndex(cx, cz) == ChunkIndex(cx', cz') ==> cx == cx' && cz == cz'
  {
    if ChunkIndex(cx, cz) == ChunkIndex(cx', cz') {
      DigitUnique(cx, cz, cx', cz', 32);
    }
  }

  /** Step c*65536 + j of a region walk is step j of chunk c, placed at that chunk. */
  lemma ElementOfChunk(d: RegionData, cx: int, cz: int, j: int, k: int)
    requires WellFormed(d) && 0 <= cx < 32 && 0 <= cz < 32 && 0 <= j < CHUNK_BYTES
    requires k == ChunkIndex(cx, cz) * CHUNK_BYTES + j
    ensures 0 <= k < REGION_BYTES
    ensures RegionElement(d, k) ==
      var e := ChunkElement(d[ChunkIndex(cx, cz)], j);
      if e.Ok? then Ok(ToRegionLocalBlock(e.value, cx, cz)) else Err(e.error)
  {
    var c := ChunkIndex(cx, cz);
    StepSplit(c, j);
    ChunkSplit(cx, cz);
    assert k / CHUNK_BYTES == c && k % CHUNK_BYTES == j;
    assert c / 32 == cx && c % 32 == cz;
  }

  lemma ChunkSplit(cx: int, cz: int)
    requires 0 <= cx < 32 && 0 <= cz < 32
    ensures ChunkIndex(cx, cz) / 32 == cx && ChunkIndex(cx, cz) % 32 == cz
  {
    var c := ChunkIndex(cx, cz);
    DigitUnique(c / 32, c % 32, cx, cz, 32);
  }

  /**
   * The block the region iterator returns at step k: step k % 65536 of chunk
   * k / 65536, shifted by that chunk's place in the region.
   */
  function RegionElement(d: RegionData, k: int): Result<RegionLocalBlock>
    requires WellFormed(d) && 0 <= k < REGION_BYTES
  {
    var c := k / CHUNK_BYTES;
    match ChunkElement(d[c], k % CHUNK_BYTES)
    case Ok(b) => Ok(ToRegionLocalBlock(b, c / 32, c % 32))
    case Err(e) => Err(e)
  }

  /**
   * Step k of the region walk succeeds exactly when byte k of the
   * serialised region decodes, and it reports the region-local position
   * whose byte that is (chunk k / 65536, cell k % 65536) with the decoded
   * type.
   */
  lemma RegionElementIsStoredBlock(d: RegionData, k: int)
    requires WellFormed(d) && 0 <= k < REGION_BYTES
    ensures RegionElement(d, k).Ok? <==> BlockTypes.Get(d[k / CHUNK_BYTES][k % CHUNK_BYTES]).Ok?
    ensures RegionElement(d, k).Ok? ==>
      var p := RegionElement(d, k).value.pos;
      0 <= p.x < 512 && 0 <= p.z < 512 && 0 <= p.y < 256 &&
      ChunkIndex(p.x / 16, p.z / 16) == k / CHUNK_BYTES &&
      CellIndex(p.x % 16, p.z % 16, p.y) == k % CHUNK_BYTES &&
      RegionElement(d, k).value.blockType.Value() == d[k / CHUNK_BYTES][k % CHUNK_BYTES]
  {
    var c := k / CHUNK_BYTES;
    var e := ChunkElement(d[c], k % CHUNK_BYTES);
    if e.Ok? {
      var r := ToRegionLocalBlock(e.value, c / 32, c % 32);
      DigitUnique(r.pos.x / 16, r.pos.x % 16, c / 32, e.value.pos.x, 16);
      DigitUnique(r.pos.z / 16, r.pos.z % 16, c % 32, e.value.pos.z, 16);
    }
  }

  class Region {
    const chunksXz: seq<seq<Chunk>>
    var lastAccessTime: int
    var isChangedAfterCreateLoadOrSave: bool
    /** The contents of the chunks, as `RegionData`. */
    ghost var Data: RegionData
    /** Each chunk's byte array, mapped to the chunk's position in `Data`. */
    ghost const IndexOf: map<array<Byte>, int>

    /** The chunks' byte arrays. */
    ghost function Footprint(): set<array<Byte>> {
      IndexOf.Keys
    }

    /** 32 rows of 32 chunks. */
    ghost predicate Shaped() {
      |chunksXz| == 32 && forall cx :: 0 <= cx < 32 ==> |chunksXz[cx]| == 32
    }

    ghost predicate Valid()
      reads this`Data, Footprint()
    {
      Shaped() &&
      (forall cx, cz :: 0 <= cx < 32 && 0 <= cz < 32 ==>
        chunksXz[cx][cz].Valid() && chunksXz[cx][cz].Cells() in IndexOf &&
        IndexOf[chunksXz[cx][cz].Cells()] == ChunkIndex(cx, cz)) &&
      |Data| == REGION_CHUNKS &&
      (forall cx, cz :: 0 <= cx < 32 && 0 <= cz < 32 ==> Data[ChunkIndex(cx, cz)] == chunksXz[cx][cz].Cells()[..])
    }

    lemma DataWellFormed()
      requires Valid()
      ensures WellFormed(Data)
    {
      forall c | 0 <= c < REGION_CHUNKS
        ensures |Data[c]| == CHUNK_BYTES
      {
        ChunkSplit(c / 32, c % 32);
      }
    }

    /** A fresh region: all NONE, clean, stamped `now`. */
    constructor (now: int)
      ensures Valid() && fresh(Footprint())
      ensures Data == EmptyRegion() && lastAccessTime == now && !isChangedAfterCreateLoadOrSave
    {
      var rows: seq<seq<Chunk>> := [];
      ghost var m: map<array<Byte>, int> := map[];
      var cx := 0;
      while cx < 32
        invariant 0 <= cx <= 32 && |rows| == cx
        invariant forall x :: 0 <= x < cx ==> |rows[x]| == 32
        invariant forall x, z :: 0 <= x < cx && 0 <= z < 32 ==>
          rows[x][z].Valid() && rows[x][z].Cells() in m && m[rows[x][z].Cells()] == ChunkIndex(x, z) &&
          rows[x][z].Cells()[..] == EMPTY_CHUNK
        invariant fresh(m.Keys)
      {
        var row: seq<Chunk> := [];
        var cz := 0;
        while cz < 32
          invariant 0 <= cz <= 32 && |row| == cz
          invariant forall x, z :: 0 <= x < cx && 0 <= z < 32 ==>
            rows[x][z].Valid() && rows[x][z].Cells() in m && m[rows[x][z].Cells()] == ChunkIndex(x, z) &&
            rows[x][z].Cells()[..] == EMPTY_CHUNK
          invariant forall z :: 0 <= z < cz ==>
            row[z].Valid() && row[z].Cells() in m && m[row[z].Cells()] == ChunkIndex(cx, z) &&
            row[z].Cells()[..] == EMPTY_CHUNK
          invariant fresh(m.Keys)
        {
          var chunk := new Chunk();
          row := row + [chunk];
          m := m[chunk.Cells() := ChunkIndex(cx, cz)];
          cz := cz + 1;
        }
        rows := rows + [row];
        cx := cx + 1;
      }
      chunksXz := rows;
      IndexOf := m;
      lastAccessTime := now;
      isChangedAfterCreateLoadOrSave := false;
      Data := EmptyRegion();
    }

    /** `getBlock`: refreshes the stamp and decodes the position's byte. */
    method GetBlock(pos: BlockPos, now: int) returns (r: Result<BlockType>)
      requires Valid() && 0 <= pos.y < 256
      modifies this`lastAccessTime
      ensures WellFormed(Data)
      ensures r == BlockTypes.Get(RegionCell(Data, pos))
      ensures lastAccessTime == now
    {
      DataWellFormed();
      lastAccessTime := now;
      var chunk := chunksXz[LocalChunkX(pos)][LocalChunkZ(pos)];
      r := chunk.GetBlock(pos);
    }

    /** `setBlock`: refreshes the stamp, stores the byte, and marks the region dirty if the byte changed. */
    method SetBlock(pos: BlockPos, value: BlockType, now: int)
      requires Valid() && 0 <= pos.y < 256
      modifies this`lastAccessTime, this`isChangedAfterCreateLoadOrSave, this`Data,
        chunksXz[LocalChunkX(pos)][LocalChunkZ(pos)].Cells()
      ensures Valid() && WellFormed(old(Data))
      ensures Data == SetCell(old(Data), pos, value.Value())
      ensures isChangedAfterCreateLoadOrSave == (old(isChangedAfterCreateLoadOrSave) || old(RegionCell(Data, pos)) != value.Value())
      ensures lastAccessTime == now
    {
      DataWellFormed();
      lastAccessTime := now;
      var cx, cz := LocalChunkX(pos), LocalChunkZ(pos);
      var chunk := chunksXz[cx][cz];
      var changed := chunk.SetBlock(pos, value);
      Data := Data[ChunkIndex(cx, cz) := chunk.Cells()[..]];
      if changed {
        isChangedAfterCreateLoadOrSave := true;
      }
      forall x, z | 0 <= x < 32 && 0 <= z < 32
        ensures Data[ChunkIndex(x, z)] == chunksXz[x][z].Cells()[..]
      {
        ChunkIndexInjective(x, z, cx, cz);
      }
    }

    /** `write`: the chunks' bytes, chunk-X outer and chunk-Z inner; the region is clean afterwards. */
    method Write() returns (out: seq<Byte>)
      requires Valid()
      modifies this`isChangedAfterCreateLoadOrSave
      ensures out == Serialize(Data)
      ensures !isChangedAfterCreateLoadOrSave
    {
      out := [];
      var cx := 0;
      while cx < 32
        invariant 0 <= cx <= 32
        invariant out == Flatten(Data[..ChunkIndex(cx, 0)])
      {
        var cz := 0;
        while cz < 32
          invariant 0 <= cz <= 32
          invariant out == Flatten(Data[..ChunkIndex(cx, cz)])
        {
          var bytes := chunksXz[cx][cz].Write();
          var n := ChunkIndex(cx, cz);
          assert Data[..n + 1][..n] == Data[..n];
          out := out + bytes;
          cz := cz + 1;
        }
        cx := cx + 1;
      }
      assert Data[..REGION_CHUNKS] == Data;
      isChangedAfterCreateLoadOrSave := false;
    }

    /**
     * `read`: fills the chunks in `write` order from the stream. A short
     * stream fails part-way, leaving the chunks read so far filled.
     */
    method Read(stream: seq<Byte>) returns (r: Outcome, rest: seq<Byte>)
      requires Valid()
      modifies this`Data, this`isChangedAfterCreateLoadOrSave, Footprint()
      ensures Valid()
      ensures r.Pass? <==> |stream| >= REGION_BYTES
      ensures r.Pass? ==> Data == Deserialize(stream) && rest == stream[REGION_BYTES..] && !isChangedAfterCreateLoadOrSave
      ensures r.Fail? ==> r.error == ShortStream && isChangedAfterCreateLoadOrSave == old(isChangedAfterCreateLoadOrSave)
    {
      rest := stream;
      var cx := 0;
      while cx < 32
        invariant 0 <= cx <= 32 && Valid()
        invariant |stream| >= ChunkIndex(cx, 0) * CHUNK_BYTES && rest == stream[ChunkIndex(cx, 0) * CHUNK_BYTES..]
        invariant forall c :: 0 <= c < ChunkIndex(cx, 0) ==> Data[c] == stream[c * CHUNK_BYTES .. (c + 1) * CHUNK_BYTES]
        invariant isChangedAfterCreateLoadOrSave == old(isChangedAfterCreateLoadOrSave)
      {
        r, rest := ReadRow(cx, stream, rest);
        if r.Fail? {
          return r, [];
        }
        cx := cx + 1;
      }
      isChangedAfterCreateLoadOrSave := false;
      r := Pass;
      DataWellFormed();
      forall c | 0 <= c < REGION_CHUNKS
        ensures Data[c] == Deserialize(stream)[c]
      {
      }
    }

    /**
     * One row of `read`: chunks (cx, 0) to (cx, 31) read their bytes from
     * `rest`, the part of `stream` after the rows before.
     */
    method ReadRow(cx: int, ghost stream: seq<Byte>, rest: seq<Byte>) returns (r: Outcome, next: seq<Byte>)
      requires Valid() && 0 <= cx < 32
      requires |stream| >= ChunkIndex(cx, 0) * CHUNK_BYTES && rest == stream[ChunkIndex(cx, 0) * CHUNK_BYTES..]
      modifies this`Data, Footprint()
      ensures Valid()
      ensures r.Pass? <==> |stream| >= ChunkIndex(cx + 1, 0) * CHUNK_BYTES
      ensures r.Fail? ==> r.error == ShortStream
      ensures r.Pass? ==> next == stream[ChunkIndex(cx + 1, 0) * CHUNK_BYTES..]
      ensures r.Pass? ==> forall c :: 0 <= c < ChunkIndex(cx, 0) ==> Data[c] == old(Data)[c]
      ensures r.Pass? ==> forall c :: ChunkIndex(cx, 0) <= c < ChunkIndex(cx + 1, 0) ==>
        Data[c] == stream[c * CHUNK_BYTES .. (c + 1) * CHUNK_BYTES]
    {
      next := rest;
      var cz := 0;
      while cz < 32
        invariant 0 <= cz <= 32 && Valid()
        invariant |stream| >= ChunkIndex(cx, cz) * CHUNK_BYTES && next == stream[ChunkIndex(cx, cz) * CHUNK_BYTES..]
        invariant forall c :: 0 <= c < ChunkIndex(cx, 0) ==> Data[c] == old(Data)[c]
        invariant forall c :: ChunkIndex(cx, 0) <= c < ChunkIndex(cx, cz) ==>
          Data[c] == stream[c * CHUNK_BYTES .. (c + 1) * CHUNK_BYTES]
      {
        var n := ChunkIndex(cx, cz);
        r, next := ReadChunk(cx, cz, next);
        if r.Fail? {
          return;
        }
        SuffixSlices(stream, n * CHUNK_BYTES, CHUNK_BYTES);
        cz := cz + 1;
      }
      r := Pass;
    }

    /** One step of `read`: chunk (cx, cz) reads its bytes from the front of the stream. */
    method ReadChunk(cx: int, cz: int, stream: seq<Byte>) returns (r: Outcome, rest: seq<Byte>)
      requires Valid() && 0 <= cx < 32 && 0 <= cz < 32
      modifies this`Data, Footprint()
      ensures Valid() && |old(Data)| == REGION_CHUNKS
      ensures r.Pass? <==> |stream| >= CHUNK_BYTES
      ensures r.Pass? ==> Data == old(Data)[ChunkIndex(cx, cz) := stream[..CHUNK_BYTES]]
      ensures r.Fail? ==> r.error == ShortStream
      ensures rest == if r.Pass? then stream[CHUNK_BYTES..] else []
    {
      var chunk := chunksXz[cx][cz];
      r, rest := chunk.Read(stream);
      Data := Data[ChunkIndex(cx, cz) := chunk.Cells()[..]];
      forall x, z | 0 <= x < 32 && 0 <= z < 32
        ensures Data[ChunkIndex(x, z)] == chunksXz[x][z].Cells()[..]
      {
        ChunkIndexInjective(x, z, cx, cz);
      }
    }

    /**
     * The highest y of the column (x, z) whose byte is not NONE. The source of
     * `Region.getHighestBlockY` is not part of this model; this is the
     * behaviour its caller relies on, refreshing the stamp like `getBlock`.
     */
    method GetHighestBlockY(pos: HorBlockPos, now: int) returns (r: Option<Int32>)
      requires Valid()
      modifies this`lastAccessTime
      ensures WellFormed(Data)
      ensures r == HighestNonEmpty(Data, pos, 255)
      ensures lastAccessTime == now
    {
      DataWellFormed();
      lastAccessTime := now;
      var column := BlockPos(pos.x, 0, pos.z);
      var chunk := chunksXz[LocalChunkX(column)][LocalChunkZ(column)];
      var y: Int32 := 255;
      while y >= 0
        invariant -1 <= y <= 255
        invariant HighestNonEmpty(Data, pos, 255) == HighestNonEmpty(Data, pos, y)
      {
        if chunk.Cells()[CellIndex(LocalBlockX(column), LocalBlockZ(column), y)] != NONE.Value() {
          return Some(y);
        }
        y := y - 1;
      }
      return None;
    }

    method Iterator() returns (it: RegionIterator)
      requires Valid()
      ensures fresh(it.Repr) && it.Valid() && it.region == this && it.steps == 0
    {
      it := new RegionIterator(this);
    }
  }

  /** The highest y ≤ top in column `pos` whose byte is not NONE, if any. */
  ghost function HighestNonEmpty(d: RegionData, pos: HorBlockPos, top: int): (r: Option<Int32>)
    requires WellFormed(d) && top <= 255
    ensures r.Some? ==> 0 <= r.value <= top
    decreases top + 1
  {
    if top < 0 then None
    else if RegionCell(d, BlockPos(pos.x, top, pos.z)) != NONE.Value() then Some(top)
    else HighestNonEmpty(d, pos, top - 1)
  }

  /**
   * `HighestNonEmpty` is none exactly when no y ≤ top holds a block;
   * otherwise it is a y ≤ top holding a block with no block above it.
   */
  lemma {:induction false} HighestNonEmptyMeaning(d: RegionData, pos: HorBlockPos, top: int)
    requires WellFormed(d) && top <= 255
    decreases top + 1
    ensures var r := HighestNonEmpty(d, pos, top);
      (r.None? <==> forall y :: 0 <= y <= top ==> RegionCell(d, BlockPos(pos.x, y, pos.z)) == NONE.Value()) &&
      (r.Some? ==> 0 <= r.value <= top && RegionCell(d, BlockPos(pos.x, r.value, pos.z)) != NONE.Value() &&
                   forall y :: r.value < y <= top ==> RegionCell(d, BlockPos(pos.x, y, pos.z)) == NONE.Value())
  {
    if top >= 0 && RegionCell(d, BlockPos(pos.x, top, pos.z)) == NONE.Value() {
      HighestNonEmptyMeaning(d, pos, top - 1);
    }
  }

  /** The region iterator: chunk-X outer, chunk-Z inner, each chunk walked completely before the next. */
  class RegionIterator {
    const region: Region
    var localChunkX: Int32
    var localChunkZ: Int32
    /** The current chunk's iterator; null stands for the empty iterator after the last chunk. */
    var chunkIterator: ChunkIterator?
    /** The iterator's objects: itself and the current chunk iterator with its byte-array iterator. */
    ghost var Repr: set<object>
    /** The number of blocks returned so far. */
    ghost var steps: int

    /** The counters name a chunk whose iterator is current; that iterator may be exhausted. */
    ghost predicate Positioned()
      reads this, Repr
    {
      this in Repr && region.Shaped() &&
      0 <= localChunkX <= 32 && 0 <= localChunkZ < 32 &&
      (localChunkX < 32 ==>
        chunkIterator != null && chunkIterator in Repr && chunkIterator.arrayIterator in Repr &&
        chunkIterator.Valid() && chunkIterator.chunk == region.chunksXz[localChunkX][localChunkZ] &&
        steps == ChunkIndex(localChunkX, localChunkZ) * CHUNK_BYTES + chunkIterator.Steps()) &&
      (localChunkX == 32 ==> localChunkZ == 0 && chunkIterator == null && steps == REGION_BYTES)
    }

    ghost predicate Valid()
      reads this, Repr
    {
      Positioned() && (chunkIterator != null ==> chunkIterator.Steps() < CHUNK_BYTES)
    }

    /** The walk is over exactly when the chunk iterator is the empty one. */
    lemma StepsBound()
      requires Valid()
      ensures 0 <= steps <= REGION_BYTES
      ensures chunkIterator == null <==> steps == REGION_BYTES
    {
    }

    constructor (region: Region)
      requires region.Valid()
      ensures fresh(Repr) && Valid() && this.region == region && steps == 0
    {
      this.region := region;
      localChunkX, localChunkZ := 0, 0;
      var it := region.chunksXz[0][0].Iterator();
      chunkIterator := it;
      Repr, steps := {this, it, it.arrayIterator}, 0;
    }

    method HasNext() returns (b: bool)
      requires Valid()
      ensures b <==> steps < REGION_BYTES
    {
      if chunkIterator == null {
        return false;
      }
      b := chunkIterator.HasNext();
    }

    /** `next`: the block at step `steps`, or the error the chunk iterator raises. */
    method Next() returns (r: Result<RegionLocalBlock>)
      requires Valid() && region.Valid()
      modifies Repr
      ensures fresh(Repr - old(Repr))
      ensures region.Valid() && region.Data == old(region.Data) && WellFormed(region.Data)
      ensures old(steps) == REGION_BYTES ==> r == Err(NoSuchElement)
      ensures old(steps) < REGION_BYTES ==> r == RegionElement(region.Data, old(steps))
      ensures r.Ok? ==> Valid() && steps == old(steps) + 1
    {
      region.DataWellFormed();
      if chunkIterator == null {
        return Err(NoSuchElement);
      }
      r := Take();
      if r.Err? {
        return;
      }
      Advance();
    }

    /** After a block is taken: an exhausted chunk iterator gives way to the next chunk's. */
    method Advance()
      requires Positioned() && region.Valid() && chunkIterator != null
      modifies this
      ensures Valid() && steps == old(steps) && fresh(Repr - old(Repr))
      ensures region.Valid() && region.Data == old(region.Data)
    {
      var more := chunkIterator.HasNext();
      if !more {
        NextChunk();
      }
    }

    /** The current chunk's next block, placed in the region. */
    method Take() returns (r: Result<RegionLocalBlock>)
      requires Valid() && region.Valid() && chunkIterator != null
      modifies this`steps, chunkIterator, chunkIterator.arrayIterator
      ensures region.Valid() && region.Data == old(region.Data)
      ensures WellFormed(region.Data) && old(steps) < REGION_BYTES
      ensures r == RegionElement(region.Data, old(steps))
      ensures r.Ok? ==> Positioned() && steps == old(steps) + 1
    {
      ElementAhead();
      var b := chunkIterator.Next();
      if b.Ok? {
        r := Ok(ToRegionLocalBlock(b.value, localChunkX, localChunkZ));
        steps := steps + 1;
        Took();
      } else {
        r := Err(b.error);
      }
    }

    /** The region's element at the current step is the current chunk's element, placed in the region. */
    lemma ElementAhead()
      requires Valid() && region.Valid() && chunkIterator != null
      ensures WellFormed(region.Data) && steps < REGION_BYTES && chunkIterator.Steps() < CHUNK_BYTES
      ensures RegionElement(region.Data, steps) ==
        var e := ChunkElement(chunkIterator.chunk.Cells()[..], chunkIterator.Steps());
        if e.Ok? then Ok(ToRegionLocalBlock(e.value, localChunkX, localChunkZ)) else Err(e.error)
    {
      region.DataWellFormed();
      var c, j := ChunkIndex(localChunkX, localChunkZ), chunkIterator.Steps();
      ElementOfChunk(region.Data, localChunkX, localChunkZ, j, steps);
      assert region.Data[c] == chunkIterator.chunk.Cells()[..];
    }

    /** A block taken from the current chunk moves the walk on by one step, at the same chunk. */
    twostate lemma Took()
      requires old(Valid()) && old(chunkIterator) != null
      requires unchanged(this`localChunkX, this`localChunkZ, this`chunkIterator, this`Repr)
      requires chunkIterator.Valid() && chunkIterator.Steps() == old(chunkIterator.Steps()) + 1
      requires steps == old(steps) + 1
      ensures Positioned()
    {
    }

    /** Moves from an exhausted chunk iterator to the next chunk's, or to the empty iterator after the last chunk. */
    method NextChunk()
      requires Positioned() && region.Valid() && chunkIterator != null && chunkIterator.Steps() == CHUNK_BYTES
      modifies this
      ensures Valid() && steps == old(steps) && fresh(Repr - old(Repr))
      ensures region.Valid() && region.Data == old(region.Data)
    {
      var x, z := localChunkX, localChunkZ + 1;
      if z >= 32 {
        x, z := x + 1, 0;
      }
      if x < 32 {
        var it := region.chunksXz[x][z].Iterator();
        localChunkX, localChunkZ, chunkIterator, Repr := x, z, it, {this, it, it.arrayIterator};
      } else {
        localChunkX, localChunkZ, chunkIterator, Repr := x, z, null, {this};
      }
    }
  }
}
