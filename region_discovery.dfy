/**
 * Region discovery over the model directory, the overwrite wipe, and the
 * (x, z) ordering the model iterator visits regions in.
 */
module RegionDiscovery {
  import opened KotlinInt
  import opened Outcomes
  import opened RegionFiles

  /** The keys parsed from the names that match the region pattern. */
  ghost function Discovered(files: Directory): set<RegionIndex> {
    set name | name in files && ParseRegionFileName(name).Some? && ParseRegionFileName(name).value.Ok? ::
      ParseRegionFileName(name).value.value
  }

  /** No matching name has a group `toInt` rejects. */
  ghost predicate AllMatchesParse(files: Directory) {
    forall name :: name in files && ParseRegionFileName(name).Some? ==> ParseRegionFileName(name).value.Ok?
  }

  /**
   * The name loop of `getAllModelRegionIndices`: starting from the resident
   * keys, add the key of every matching name and skip the others; a
   * matching name whose number does not fit an `Int` aborts the discovery.
   */
  method DiscoverRegionIndices(resident: set<RegionIndex>, files: Directory) returns (r: Result<set<RegionIndex>>)
    ensures r.Ok? <==> AllMatchesParse(files)
    ensures r.Ok? ==> r.value == resident + Discovered(files)
    ensures r.Err? ==> r.error.NumberFormat?
  {
    var indices := resident;
    var remaining := files.Keys;
    while remaining != {}
      invariant remaining <= files.Keys
      invariant forall name :: name in files.Keys - remaining && ParseRegionFileName(name).Some? ==>
        ParseRegionFileName(name).value.Ok?
      invariant indices == resident +
        set name | name in files.Keys - remaining && ParseRegionFileName(name).Some? &&
          ParseRegionFileName(name).value.Ok? :: ParseRegionFileName(name).value.value
      decreases |remaining|
    {
      var name :| name in remaining;
      var parsed := ParseRegionFileName(name);
      if parsed.Some? {
        if parsed.value.Err? {
          assert parsed.value.error.NumberFormat?;
          return Err(parsed.value.error);
        }
        indices := indices + {parsed.value.value};
      }
      remaining := remaining - {name};
    }
    assert files.Keys - remaining == files.Keys;
    r := Ok(indices);
  }

  /** `File.delete()` succeeds for a regular file and for an empty directory. */
  predicate Deletable(files: Directory, name: string) {
    name in files && (files[name].RegularFile? || files[name].isEmpty)
  }

  /** The file names of a set of keys. */
  ghost function FileNames(keys: set<RegionIndex>): set<string> {
    set k | k in keys :: RegionFileName(k)
  }

  /**
   * The overwrite wipe as written: delete the file named after each
   * discovered key, stopping with an error at the first delete that fails.
   */
  method DeleteRegionFiles(files: Directory, keys: set<RegionIndex>) returns (r: Outcome, rest: Directory)
    ensures r.Pass? <==> forall k :: k in keys ==> Deletable(files, RegionFileName(k))
    ensures r.Pass? ==> rest == files - FileNames(keys)
    ensures r.Fail? ==> r.error.CannotDelete? && rest.Keys <= files.Keys
  {
    rest := files;
    var remaining := keys;
    while remaining != {}
      invariant remaining <= keys
      invariant forall k :: k in keys - remaining ==> Deletable(files, RegionFileName(k))
      invariant rest == files - FileNames(keys - remaining)
      decreases |remaining|
    {
      var k :| k in remaining;
      var name := RegionFileName(k);
      DeleteStep(files, keys, remaining, k);
      if !Deletable(rest, name) {
        return Fail(CannotDelete(name)), rest;
      }
      rest := rest - {name};
      remaining := remaining - {k};
    }
    assert keys - remaining == keys;
    r := Pass;
  }

  /** One step of the as-written wipe: the next key's file is still listed as it was, and deleting it extends what is deleted. */
  lemma DeleteStep(files: Directory, keys: set<RegionIndex>, remaining: set<RegionIndex>, k: RegionIndex)
    requires remaining <= keys && k in remaining
    ensures var rest, name := files - FileNames(keys - remaining), RegionFileName(k);
      (Deletable(rest, name) <==> Deletable(files, name)) &&
      rest - {name} == files - FileNames(keys - (remaining - {k}))
  {
    var done := keys - remaining;
    assert keys - (remaining - {k}) == done + {k};
    FileNamesAdd(done, k);
    FileNameFresh(done, k);
  }

  lemma FileNamesAdd(done: set<RegionIndex>, k: RegionIndex)
    ensures FileNames(done + {k}) == FileNames(done) + {RegionFileName(k)}
  {
  }

  lemma FileNameFresh(done: set<RegionIndex>, k: RegionIndex)
    requires k !in done
    ensures RegionFileName(k) !in FileNames(done)
  {
    if RegionFileName(k) in FileNames(done) {
      var j :| j in done && RegionFileName(j) == RegionFileName(k);
      FileNameInjective(j, k);
    }
  }

  /** The names the region pattern matches. */
  ghost function MatchingNames(files: Directory): set<string> {
    set name | name in files && MatchRegionFileName(name).Some?
  }

  /**
   * The wipe the documentation describes: delete every file whose name
   * matches the region pattern, under the name it was listed with.
   */
  method DeleteMatchingFiles(files: Directory) returns (r: Outcome, rest: Directory)
    ensures r.Pass? <==> forall name :: name in MatchingNames(files) ==> Deletable(files, name)
    ensures r.Pass? ==> rest == files - MatchingNames(files)
    ensures r.Fail? ==> r.error.CannotDelete? && rest.Keys <= files.Keys
  {
    rest := files;
    var remaining := files.Keys;
    while remaining != {}
      invariant remaining <= files.Keys
      invariant forall name :: name in MatchingNames(files) - remaining ==> Deletable(files, name)
      invariant rest == files - (MatchingNames(files) - remaining)
      decreases |remaining|
    {
      var name :| name in remaining;
      if MatchRegionFileName(name).Some? {
        if !Deletable(rest, name) {
          assert name in MatchingNames(files) && name !in MatchingNames(files) - remaining;
          assert !Deletable(files, name);
          return Fail(CannotDelete(name)), rest;
        }
        rest := rest - {name};
      }
      remaining := remaining - {name};
    }
    r := Pass;
  }

  /** After the documented wipe no region file is left, and every other entry is kept as it was. */
  lemma MatchingWipeLeavesOthers(files: Directory, rest: Directory)
    requires rest == files - MatchingNames(files)
    ensures forall name :: name in rest ==> MatchRegionFileName(name).None?
    ensures forall name :: name in files && MatchRegionFileName(name).None? ==> name in rest && rest[name] == files[name]
  {
  }

  /** A matching name that parses, and is the name the model writes for its key. */
  predicate Canonical(name: string) {
    var p := ParseRegionFileName(name);
    p.Some? && p.value.Ok? && RegionFileName(p.value.value) == name
  }

  /** Every region file carries the name the model writes for its key. */
  ghost predicate AllCanonical(files: Directory) {
    forall name :: name in MatchingNames(files) ==> Canonical(name)
  }

  /**
   * In a directory whose region files all carry the names the model writes,
   * every match parses and the as-written wipe deletes exactly the files
   * the documented wipe does.
   */
  lemma WipesAgreeOnCanonicalNames(files: Directory)
    requires AllCanonical(files)
    ensures AllMatchesParse(files)
    ensures FileNames(Discovered(files)) == MatchingNames(files)
  {
    forall name | name in files && ParseRegionFileName(name).Some?
      ensures ParseRegionFileName(name).value.Ok?
    {
      assert name in MatchingNames(files);
    }
    forall name | name in FileNames(Discovered(files))
      ensures name in MatchingNames(files)
    {
      var k :| k in Discovered(files) && RegionFileName(k) == name;
      var listed :| listed in files && ParseRegionFileName(listed).Some? && ParseRegionFileName(listed).value.Ok? &&
        ParseRegionFileName(listed).value.value == k;
      assert listed in MatchingNames(files);
      assert RegionFileName(k) == listed;
    }
    forall name | name in MatchingNames(files)
      ensures name in FileNames(Discovered(files))
    {
      var k := ParseRegionFileName(name).value.value;
      assert k in Discovered(files);
    }
  }

  /**
   * A name the pattern matches but `toFixedLengthString` never produces
   * ("-0000000000" for zero) is discovered as key (0, 0); the as-written
   * wipe then deletes the canonical name of (0, 0), which is absent, so it
   * fails, while the documented wipe deletes the listed file.
   */
  lemma NonCanonicalNameDefeatsWipe()
    ensures var name := "R-0000000000+0000000000.dat";
      var files: Directory := map[name := RegularFile([])];
      Discovered(files) == {RegionIndex(0, 0)} &&
      !Deletable(files, RegionFileName(RegionIndex(0, 0))) &&
      MatchingNames(files) == {name} && Deletable(files, name)
  {
    var name := "R-0000000000+0000000000.dat";
    NonCanonicalNameParses();
    CanonicalZeroName();
    SingleFile(name, RegularFile([]), RegionIndex(0, 0));
  }

  /** A directory holding one file whose name parses as key k. */
  lemma SingleFile(name: string, e: Entry, k: RegionIndex)
    requires ParseRegionFileName(name) == Some(Ok(k)) && RegionFileName(k) != name && e.RegularFile?
    ensures var files: Directory := map[name := e];
      Discovered(files) == {k} && !Deletable(files, RegionFileName(k)) &&
      MatchingNames(files) == {name} && Deletable(files, name)
  {
    var files: Directory := map[name := e];
    assert files.Keys == {name};
    assert Discovered(files) == {k} by {
      assert k in Discovered(files) by { assert name in files; }
      forall j | j in Discovered(files)
        ensures j == k
      {
        var n :| n in files && ParseRegionFileName(n).Some? && ParseRegionFileName(n).value.Ok? &&
          ParseRegionFileName(n).value.value == j;
        assert n == name;
      }
    }
    assert MatchingNames(files) == {name} by {
      assert name in MatchingNames(files);
    }
    assert RegionFileName(k) !in files;
  }

  lemma NonCanonicalNameParses()
    ensures MatchRegionFileName("R-0000000000+0000000000.dat").Some?
    ensures ParseRegionFileName("R-0000000000+0000000000.dat") == Some(Ok(RegionIndex(0, 0)))
  {
    var name := "R-0000000000+0000000000.dat";
    var x, z := "-0000000000", "+0000000000";
    assert name == "R" + x + z + ".dat";
    assert name[1..12] == x && name[12..23] == z && name[23..] == ".dat";
    ZeroDigits();
  }

  lemma CanonicalZeroName()
    ensures RegionFileName(RegionIndex(0, 0)) != "R-0000000000+0000000000.dat"
  {
    StringUtils.ZeroText();
    assert RegionFileName(RegionIndex(0, 0))[1] == '+';
  }

  lemma ZeroDigits()
    ensures StringUtils.IsFixedLengthInt("-0000000000") && StringUtils.IsFixedLengthInt("+0000000000")
    ensures StringUtils.ToInt("-0000000000") == Ok(0) && StringUtils.ToInt("+0000000000") == Ok(0)
  {
    StringUtils.ZerosValue(10);
    assert seq(10, _ => '0') == "0000000000";
    assert "-0000000000"[1..] == "0000000000";
    assert "+0000000000"[1..] == "0000000000";
  }

  // The iteration order of the model: x ascending, then z ascending.

  predicate Before(a: RegionIndex, b: RegionIndex) {
    a.x < b.x || (a.x == b.x && a.z < b.z)
  }

  predicate StrictlySorted(s: seq<RegionIndex>) {
    forall i, j :: 0 <= i < j < |s| ==> Before(s[i], s[j])
  }

  /** Inserts a key into a strictly sorted sequence that does not hold it. */
  function Insert(s: seq<RegionIndex>, k: RegionIndex): (r: seq<RegionIndex>)
    requires StrictlySorted(s) && k !in s
    ensures StrictlySorted(r) && |r| == |s| + 1
    ensures forall j :: j in r <==> j in s || j == k
  {
    if |s| == 0 then [k]
    else if Before(k, s[0]) then [k] + s
    else
      var rest := Insert(s[1..], k);
      assert forall j :: j in rest ==> Before(s[0], j);
      [s[0]] + rest
  }

  /** `sortedWith` on the discovered keys: all of them, each once, in (x, z) order. */
  method SortRegionIndices(keys: set<RegionIndex>) returns (s: seq<RegionIndex>)
    ensures StrictlySorted(s) && |s| == |keys|
    ensures forall k :: k in s <==> k in keys
  {
    s := [];
    var remaining := keys;
    while remaining != {}
      invariant remaining <= keys && StrictlySorted(s) && |s| + |remaining| == |keys|
      invariant forall k :: k in s <==> k in keys - remaining
      decreases |remaining|
    {
      var k :| k in remaining;
      s := Insert(s, k);
      remaining := remaining - {k};
    }
  }

  /** Lexicographic order is total on distinct keys, so the sorted order of a set is unique. */
  lemma SortedUnique(s: seq<RegionIndex>, t: seq<RegionIndex>)
    requires StrictlySorted(s) && StrictlySorted(t)
    requires forall k :: k in s <==> k in t
    ensures s == t
    decreases |s|
  {
    assert |s| > 0 ==> s[0] in t;
    assert |t| > 0 ==> t[0] in s;
    if |s| > 0 && |t| > 0 {
      var i :| 0 <= i < |t| && t[i] == s[0];
      var j :| 0 <= j < |s| && s[j] == t[0];
      assert s[0] == t[0];
      forall k
        ensures k in s[1..] <==> k in t[1..]
      {
        assert s == [s[0]] + s[1..] && t == [t[0]] + t[1..];
        if k in s[1..] {
          var i :| 0 <= i < |s[1..]| && s[1..][i] == k;
          assert Before(s[0], s[i + 1]);
          assert k in t && k != t[0];
        }
        if k in t[1..] {
          var i :| 0 <= i < |t[1..]| && t[1..][i] == k;
          assert Before(t[0], t[i + 1]);
          assert k in s && k != s[0];
        }
      }
      SortedUnique(s[1..], t[1..]);
      assert s == [s[0]] + s[1..] && t == [t[0]] + t[1..];
    }
  }
}
