/** The byte-coded block types of the store (eleven entries, bytes 0..10). */
module BlockTypes {
  import opened KotlinInt
  import opened Outcomes

  datatype BlockType =
    | NONE | STONE | SOIL | WATER | WOOD | SOIL_WITH_GRASS
    | SAND | GRAVEL | GLASS | AIR | UNBREAKABLE_STONE
  {
    /** The byte the entry is stored as. */
    function Value(): (v: Byte)
      ensures 0 <= v <= 10
    {
      match this
      case NONE => 0
      case STONE => 1
      case SOIL => 2
      case WATER => 3
      case WOOD => 4
      case SOIL_WITH_GRASS => 5
      case SAND => 6
      case GRAVEL => 7
      case GLASS => 8
      case AIR => 9
      case UNBREAKABLE_STONE => 10
    }
  }

  /** The entries in declaration order. */
  const Entries: seq<BlockType> :=
    [NONE, STONE, SOIL, WATER, WOOD, SOIL_WITH_GRASS, SAND, GRAVEL, GLASS, AIR, UNBREAKABLE_STONE]

  /** The largest stored byte over a non-empty list of entries. */
  function MaxValueOf(s: seq<BlockType>): (m: Byte)
    requires |s| > 0
    ensures forall i :: 0 <= i < |s| ==> s[i].Value() <= m
    ensures exists i :: 0 <= i < |s| && s[i].Value() == m
    ensures 0 <= m <= 10
  {
    if |s| == 1 then s[0].Value()
    else
      var rest := MaxValueOf(s[1..]);
      assert forall i :: 1 <= i < |s| ==> s[i] == s[1..][i - 1];
      if s[0].Value() >= rest then s[0].Value() else rest
  }

  /** The smallest stored byte over a non-empty list of entries. */
  function MinValueOf(s: seq<BlockType>): (m: Byte)
    requires |s| > 0
    ensures forall i :: 0 <= i < |s| ==> m <= s[i].Value()
    ensures exists i :: 0 <= i < |s| && s[i].Value() == m
    ensures 0 <= m <= 10
  {
    if |s| == 1 then s[0].Value()
    else
      var rest := MinValueOf(s[1..]);
      assert forall i :: 1 <= i < |s| ==> s[i] == s[1..][i - 1];
      if s[0].Value() <= rest then s[0].Value() else rest
  }

  function MaxBinaryValue(): Byte { MaxValueOf(Entries) }
  function MinBinaryValue(): Byte { MinValueOf(Entries) }

  /** `BlockType[index]`: the entry at position `index`, or the out-of-bounds exception. */
  function Get(index: Byte): (r: Result<BlockType>)
    ensures r.Ok? <==> 0 <= index <= 10
    ensures r.Ok? ==> r.value.Value() == index
    ensures r.Err? ==> r.error == IndexOutOfBounds(index)
  {
    if 0 <= index < |Entries| then Ok(Entries[index]) else Err(IndexOutOfBounds(index))
  }

  /** Entry i of the declaration order carries byte i, so the bytes are distinct. */
  lemma ValuesAreDeclarationIndices()
    ensures |Entries| == 11
    ensures forall i :: 0 <= i < |Entries| ==> Entries[i].Value() == i
    ensures forall t: BlockType :: t in Entries
    ensures forall s: BlockType, t: BlockType :: s.Value() == t.Value() ==> s == t
    ensures NONE.Value() == 0
  {
    forall t: BlockType ensures t in Entries {
      assert Entries[t.Value()] == t;
    }
  }

  /** The minimum is 0, the maximum 10, and there are no gaps in between. */
  lemma BinaryValueRange()
    ensures MinBinaryValue() == 0 && MaxBinaryValue() == 10
    ensures |Entries| == MaxBinaryValue() - MinBinaryValue() + 1
  {
    EntryValues();
    assert Entries[10].Value() == 10 && Entries[0].Value() == 0;
  }

  lemma EntryValues()
    ensures |Entries| == 11 && forall i :: 0 <= i < |Entries| ==> Entries[i].Value() == i
  {
  }

  /** Looking up an entry's own byte gives the entry back. */
  lemma GetValue(t: BlockType)
    ensures Get(t.Value()) == Ok(t)
  {
    ValuesAreDeclarationIndices();
  }
}
