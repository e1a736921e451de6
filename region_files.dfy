/**
 * The model directory: region keys, region file names and what loading a
 * region file yields. Compression is the identity here, so a region file
 * holds the serialised region directly.
 */
module RegionFiles {
  import opened KotlinInt
  import opened Outcomes
  import opened BlockPositions
  import opened Blocks
  import opened StringUtils
  import opened Regions

  /** The key of a region: its region coordinates. */
  datatype RegionIndex = RegionIndex(x: Int32, z: Int32)

  /** `BlockPos.regionIndex`. */
  function RegionIndexOf(pos: BlockPos): RegionIndex {
    var rx := RegionX(pos);
    var rz := RegionZ(pos);
    RegionIndex(rx, rz)
  }

  /** `HorBlockPos.regionIndex`: the region of a column. */
  function ColumnRegionIndex(pos: HorBlockPos): RegionIndex {
    RegionIndexOf(BlockPos(pos.x, 0, pos.z))
  }

  /** A directory entry: a regular file with its bytes, or a directory (only whether it is empty is modelled). */
  datatype Entry = RegularFile(bytes: seq<Byte>) | Subdirectory(isEmpty: bool)

  /** The model directory: its entries by name. */
  type Directory = map<string, Entry>

  /** `getRegionFileName`: "R" + fixed(x) + fixed(z) + ".dat". */
  function RegionFileName(k: RegionIndex): string {
    "R" + ToFixedLengthString(k.x) + ToFixedLengthString(k.z) + ".dat"
  }

  /** `regionFileNameRegex.matchEntire`: the two signed ten-digit groups of a matching name. */
  function MatchRegionFileName(name: string): Option<(string, string)> {
    if |name| == 27 && name[0] == 'R' && name[23..] == ".dat" &&
       IsFixedLengthInt(name[1..12]) && IsFixedLengthInt(name[12..23])
    then Some((name[1..12], name[12..23]))
    else None
  }

  /** A matching name is "R", its two groups and ".dat", and each group is a signed ten-digit text. */
  lemma MatchedNameShape(name: string)
    requires MatchRegionFileName(name).Some?
    ensures var groups := MatchRegionFileName(name).value;
      IsFixedLengthInt(groups.0) && IsFixedLengthInt(groups.1) && name == "R" + groups.0 + groups.1 + ".dat"
  {
    assert name == "R" + name[1..12] + name[12..23] + ".dat";
  }

  /**
   * Region discovery for one file name: None when the name does not match,
   * otherwise the key from `toInt` of both groups, or the `toInt` failure
   * (x is converted first).
   */
  function ParseRegionFileName(name: string): (p: Option<Result<RegionIndex>>)
    ensures p.Some? <==> MatchRegionFileName(name).Some?
    ensures p.Some? && p.value.Err? ==> p.value.error.NumberFormat?
    ensures p.Some? && p.value.Ok? ==>
      ToInt(MatchRegionFileName(name).value.0) == Ok(p.value.value.x) &&
      ToInt(MatchRegionFileName(name).value.1) == Ok(p.value.value.z)
  {
    match MatchRegionFileName(name)
    case None => None
    case Some(groups) =>
      var x := ToInt(groups.0);
      var z := ToInt(groups.1);
      if x.Err? then Some(Err(x.error))
      else if z.Err? then Some(Err(z.error))
      else Some(Ok(RegionIndex(x.value, z.value)))
  }

  /** Every region's file name matches the pattern, and parsing it gives the key back. */
  lemma FileNameRoundTrip(k: RegionIndex)
    ensures MatchRegionFileName(RegionFileName(k)) == Some((ToFixedLengthString(k.x), ToFixedLengthString(k.z)))
    ensures ParseRegionFileName(RegionFileName(k)) == Some(Ok(k))
  {
    var name := RegionFileName(k);
    var xs, zs := ToFixedLengthString(k.x), ToFixedLengthString(k.z);
    FixedLengthShape(k.x);
    FixedLengthShape(k.z);
    ParseFixedLength(k.x);
    ParseFixedLength(k.z);
    assert name[1..12] == xs && name[12..23] == zs && name[23..] == ".dat";
  }

  /**
   * A name that parses is the one the model writes for its key, unless a
   * group is the negative zero "-0000000000": the only matching names that
   * no region is saved under.
   */
  lemma ParsedNameCanonical(name: string)
    requires ParseRegionFileName(name).Some? && ParseRegionFileName(name).value.Ok?
    ensures var groups := MatchRegionFileName(name).value;
      RegionFileName(ParseRegionFileName(name).value.value) == name ||
      groups.0 == "-0000000000" || groups.1 == "-0000000000"
  {
    var groups := MatchRegionFileName(name).value;
    var k := ParseRegionFileName(name).value.value;
    MatchedNameShape(name);
    FixedLengthCanonical(groups.0, k.x);
    FixedLengthCanonical(groups.1, k.z);
  }

  /** Distinct regions have distinct files. */
  lemma FileNameInjective(k: RegionIndex, j: RegionIndex)
    ensures RegionFileName(k) == RegionFileName(j) ==> k == j
  {
    FileNameRoundTrip(k);
    FileNameRoundTrip(j);
  }

  /**
   * `loadRegionFileFromDisk` as a value: a missing file gives a fresh
   * region; an entry that is not a regular file is an error; a regular
   * file is read as a region, and one too short for a whole region fails.
   */
  ghost function LoadResult(files: Directory, k: RegionIndex): (r: Result<RegionData>)
    ensures r.Ok? ==> WellFormed(r.value)
  {
    var name := RegionFileName(k);
    if name !in files then Ok(EmptyRegion())
    else match files[name]
      case Subdirectory(_) => Err(NotAFile(name))
      case RegularFile(bytes) => if |bytes| >= REGION_BYTES then Ok(Deserialize(bytes)) else Err(ShortStream)
  }

  /**
   * Writing a region's serialised form to its file makes loading that
   * region give the data back, and leaves every other region's load as it was.
   */
  lemma SaveThenLoad(files: Directory, k: RegionIndex, d: RegionData, j: RegionIndex)
    requires WellFormed(d)
    ensures var saved := files[RegionFileName(k) := RegularFile(Serialize(d))];
      LoadResult(saved, j) == if j == k then Ok(d) else LoadResult(files, j)
  {
    FileNameInjective(k, j);
    FlattenLength(d);
    SerializeRoundTrip(d, []);
    assert Serialize(d) + [] == Serialize(d);
  }
}
