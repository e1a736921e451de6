/** The older byte-coded block type enumeration (ten entries, bytes 0..9). */
module LegacyBlockTypes {
  import opened KotlinInt
  import opened Outcomes

  datatype BlockType =
    | NONE | STONE | DIRT | WATER | WOOD | GRASS | SAND | GRAVEL | GLASS | AIR
  {
    function BinaryValue(): Byte {
      match this
      case NONE => 0
      case STONE => 1
      case DIRT => 2
      case WATER => 3
      case WOOD => 4
      case GRASS => 5
      case SAND => 6
      case GRAVEL => 7
      case GLASS => 8
      case AIR => 9
    }
  }

  /** `BlockType.values()`, in declaration order. */
  const BLOCK_TYPES: seq<BlockType> := [NONE, STONE, DIRT, WATER, WOOD, GRASS, SAND, GRAVEL, GLASS, AIR]

  /** `BlockType[index]`: an array lookup that throws outside 0..9. */
  function Get(index: Byte): (r: Result<BlockType>)
    ensures r.Ok? <==> 0 <= index <= 9
    ensures r.Ok? ==> r.value.BinaryValue() == index
    ensures r.Err? ==> r.error == IndexOutOfBounds(index)
  {
    if 0 <= index < |BLOCK_TYPES| then Ok(BLOCK_TYPES[index]) else Err(IndexOutOfBounds(index))
  }

  /** Entry i carries byte i; the bytes are distinct and NONE is 0. */
  lemma ValuesAreDeclarationIndices()
    ensures |BLOCK_TYPES| == 10
    ensures forall i :: 0 <= i < |BLOCK_TYPES| ==> BLOCK_TYPES[i].BinaryValue() == i
    ensures forall s: BlockType, t: BlockType :: s.BinaryValue() == t.BinaryValue() ==> s == t
    ensures NONE.BinaryValue() == 0
  {
  }

  lemma GetBinaryValue(t: BlockType)
    ensures Get(t.BinaryValue()) == Ok(t)
  {
    ValuesAreDeclarationIndices();
  }
}
