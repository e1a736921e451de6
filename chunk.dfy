/** A 16×16×256 grid of block-type bytes, stored x-major, then z, then y. */
module Chunks {
  import opened KotlinInt
  import opened Outcomes
  import opened BlockPositions
  import opened BlockTypes
  import opened Blocks
  import opened ByteArrays

  const CHUNK_BYTES: int := 65_536

  /** A fresh chunk's bytes: every cell NONE. */
  const EMPTY_CHUNK: seq<Byte> := seq(CHUNK_BYTES, _ => 0)

  /** The byte offset of chunk-local cell (x, z, y). */
  function CellIndex(x: int, z: int, y: int): int {
    (x * 16 + z) * 256 + y
  }

  /** The byte offset a global position occupies inside its chunk. */
  function CellOf(pos: BlockPos): int {
    CellIndex(LocalBlockX(pos), LocalBlockZ(pos), pos.y)
  }

  lemma CellOfInRange(pos: BlockPos)
    requires 0 <= pos.y < 256
    ensures 0 <= CellOf(pos) < CHUNK_BYTES
  {
  }

  /** The position of the k-th cell in storage order. */
  function CellPos(k: int): (p: ChunkLocalBlockPos)
    requires 0 <= k < CHUNK_BYTES
    ensures 0 <= p.x < 16 && 0 <= p.z < 16 && 0 <= p.y < 256
    ensures CellIndex(p.x, p.z, p.y) == k
  {
    ChunkLocalBlockPos(k / 4096, (k / 256) % 16, k % 256)
  }

  /**
   * The block the chunk iterator returns at step k: the k-th cell's position
   * together with the type decoded from the byte stored there.
   */
  function ChunkElement(bytes: seq<Byte>, k: int): (r: Result<ChunkLocalBlock>)
    requires |bytes| == CHUNK_BYTES && 0 <= k < CHUNK_BYTES
    ensures r.Ok? <==> BlockTypes.Get(bytes[k]).Ok?
    ensures r.Ok? ==> CellIndex(r.value.pos.x, r.value.pos.z, r.value.pos.y) == k &&
                      r.value.blockType.Value() == bytes[k]
  {
    match BlockTypes.Get(bytes[k])
    case Ok(t) => Ok(ChunkLocalBlock(CellPos(k), t))
    case Err(e) => Err(e)
  }

  /** Consecutive steps: y fastest, then z, then x. */
  lemma CellOrder(k: int)
    requires 0 <= k < CHUNK_BYTES - 1
    ensures var p, q := CellPos(k), CellPos(k + 1);
      if p.y < 255 then q == ChunkLocalBlockPos(p.x, p.z, p.y + 1)
      else if p.z < 15 then q == ChunkLocalBlockPos(p.x, p.z + 1, 0)
      else q == ChunkLocalBlockPos(p.x + 1, 0, 0)
  {
    var p, q := CellPos(k), CellPos(k + 1);
    if p.y < 255 {
      CellIndexInjective(q.x, q.z, q.y, p.x, p.z, p.y + 1);
    } else if p.z < 15 {
      CellIndexInjective(q.x, q.z, q.y, p.x, p.z + 1, 0);
    } else {
      CellIndexInjective(q.x, q.z, q.y, p.x + 1, 0, 0);
    }
  }

  /** Distinct in-range cells have distinct offsets. */
  lemma CellIndexInjective(x1: int, z1: int, y1: int, x2: int, z2: int, y2: int)
    requires 0 <= z1 < 16 && 0 <= y1 < 256 && 0 <= z2 < 16 && 0 <= y2 < 256
    requires CellIndex(x1, z1, y1) == CellIndex(x2, z2, y2)
    ensures x1 == x2 && z1 == z2 && y1 == y2
  {
    DigitUnique(x1 * 16 + z1, y1, x2 * 16 + z2, y2, 256);
    DigitUnique(x1, z1, x2, z2, 16);
  }

  class Chunk {
    const blocksXzy: ByteVec3

    ghost predicate Valid() {
      blocksXzy.Valid() && blocksXzy.base.dimensions == [16, 16, 256] &&
      blocksXzy.base.cells.Length == CHUNK_BYTES
    }

    /** The chunk's byte storage. */
    function Cells(): array<Byte> {
      blocksXzy.base.cells
    }

    constructor ()
      ensures Valid() && fresh(Cells())
      ensures Cells()[..] == EMPTY_CHUNK
    {
      assert Product([16, 16, 256], 1) == 16;
      assert Product([16, 16, 256], 3) == 65536;
      blocksXzy := new ByteVec3(16, 16, 256, NONE.Value());
      new;
      assert Cells()[..] == EMPTY_CHUNK;
    }

    /** `getBlock`: decodes the byte at the position's chunk-local cell. */
    method GetBlock(pos: BlockPos) returns (r: Result<BlockType>)
      requires Valid() && 0 <= pos.y < 256
      ensures 0 <= CellOf(pos) < Cells().Length
      ensures r == BlockTypes.Get(Cells()[CellOf(pos)])
    {
      var b := blocksXzy.Get(LocalBlockX(pos), LocalBlockZ(pos), pos.y);
      RawIndex3(blocksXzy.base.dimensions, [LocalBlockX(pos), LocalBlockZ(pos), pos.y]);
      r := BlockTypes.Get(b);
    }

    /** `setBlock`: stores the type's byte and reports whether the cell changed. */
    method SetBlock(pos: BlockPos, value: BlockType) returns (changed: bool)
      requires Valid() && 0 <= pos.y < 256
      modifies Cells()
      ensures 0 <= CellOf(pos) < Cells().Length
      ensures Cells()[..] == old(Cells()[..])[CellOf(pos) := value.Value()]
      ensures changed <==> old(Cells()[CellOf(pos)]) != value.Value()
    {
      RawIndex3(blocksXzy.base.dimensions, [LocalBlockX(pos), LocalBlockZ(pos), pos.y]);
      changed := blocksXzy.Set(LocalBlockX(pos), LocalBlockZ(pos), pos.y, value.Value());
    }

    method Read(stream: seq<Byte>) returns (r: Outcome, rest: seq<Byte>)
      requires Valid()
      modifies Cells()
      ensures Cells()[..] == ReadFill(old(Cells()[..]), stream)
      ensures r.Pass? <==> |stream| >= CHUNK_BYTES
      ensures r.Fail? ==> r.error == ShortStream
      ensures rest == if r.Pass? then stream[CHUNK_BYTES..] else []
    {
      r, rest := blocksXzy.base.Read(stream);
    }

    method Write() returns (out: seq<Byte>)
      ensures out == Cells()[..]
    {
      out := blocksXzy.base.Write();
    }

    method Iterator() returns (it: ChunkIterator)
      requires Valid()
      ensures fresh(it) && fresh(it.arrayIterator)
      ensures it.Valid() && it.chunk == this && it.Steps() == 0
    {
      it := new ChunkIterator(this);
    }
  }

  /**
   * The chunk iterator: walks the byte array in storage order while counting
   * the cell's (x, z, y) alongside.
   */
  class ChunkIterator {
    var localX: Int32
    var localZ: Int32
    var y: Int32
    const arrayIterator: ByteArrayIterator
    ghost const chunk: Chunk

    ghost predicate Valid()
      reads this, arrayIterator
    {
      chunk.Valid() && arrayIterator.cells == chunk.Cells() &&
      0 <= localX <= 16 && 0 <= localZ < 16 && 0 <= y < 256 &&
      (localX == 16 ==> localZ == 0 && y == 0) &&
      arrayIterator.index == CellIndex(localX, localZ, y)
    }

    /** The number of blocks returned so far. */
    ghost function Steps(): nat
      reads arrayIterator
    {
      arrayIterator.index
    }

    constructor (chunk: Chunk)
      requires chunk.Valid()
      ensures fresh(arrayIterator) && Valid() && this.chunk == chunk && Steps() == 0
    {
      localX, localZ, y := 0, 0, 0;
      this.chunk := chunk;
      arrayIterator := new ByteArrayIterator(chunk.Cells());
    }

    method HasNext() returns (b: bool)
      requires Valid()
      ensures b <==> Steps() < CHUNK_BYTES
    {
      b := arrayIterator.HasNext();
    }

    /**
     * `next`: the block at step Steps(). Past the end it fails with no state
     * change; on an undecodable byte it fails after consuming the byte,
     * without advancing the counters, as the code does.
     */
    method Next() returns (r: Result<ChunkLocalBlock>)
      requires Valid()
      modifies arrayIterator, this
      ensures old(Steps()) == CHUNK_BYTES ==> r == Err(NoSuchElement) && Steps() == old(Steps())
      ensures old(Steps()) < CHUNK_BYTES ==>
        r == ChunkElement(chunk.Cells()[..], old(Steps())) && Steps() == old(Steps()) + 1
      ensures r.Ok? ==> Valid()
    {
      var pos := ChunkLocalBlockPos(localX, localZ, y);
      ghost var k := arrayIterator.index;
      var b := arrayIterator.Next();
      if b.Err? {
        return Err(b.error);
      }
      var t := BlockTypes.Get(b.value);
      if t.Err? {
        return Err(t.error);
      }
      CellIndexInjective(pos.x, pos.z, pos.y, CellPos(k).x, CellPos(k).z, CellPos(k).y);
      r := Ok(ChunkLocalBlock(pos, t.value));
      y := y + 1;
      if y >= 256 {
        y := 0;
        localZ := localZ + 1;
        if localZ >= 16 {
          localZ := 0;
          localX := localX + 1;
        }
      }
    }
  }
}
