/**
 * The obj3d file reader: it turns the lines of a 3D object dump into the
 * block positions of its full boxes, one at a time, holding the next
 * position ahead so that `hasNext` can answer.
 *
 * The whole-file meaning is the function `LinesScan`: positions in the
 * order the reader yields them, and the error that ends the read, if any.
 * The iterator's methods are proved against it.
 */
module Obj3dReaders {
  import opened KotlinInt
  import opened Outcomes
  import opened BlockPositions

  /** What is left to read: the positions, in order, then the error that ends the read, if any. */
  datatype Scan = Scan(found: seq<BlockPos>, error: Option<Error>)

  /** Reading a, then, unless a ended in an error, reading b. */
  function Then(a: Scan, b: Scan): Scan {
    if a.error.Some? then a else Scan(a.found + b.found, b.error)
  }

  predicate StartsWith(s: string, prefix: string) {
    |prefix| <= |s| && s[..|prefix|] == prefix
  }

  const LAYER_PREFIX: string := "Layer "
  const ROW_PREFIX: string := "    "

  /**
   * The rest of a row: each pair of characters is one box, counted from
   * x + 1; an 'X' is a full box at (x', y, z). A character left without
   * its following space ends the read with NoSuchElement.
   */
  function RowScan(chars: seq<char>, x: Int32, y: Int32, z: Int32): Scan
    decreases |chars|
  {
    if |chars| == 0 then Scan([], None)
    else if |chars| == 1 then Scan([], Some(NoSuchElement))
    else
      var x' := Wrap(x + 1);
      var rest := RowScan(chars[2..], x', y, z);
      if chars[0] == 'X' then Scan([BlockPos(x', y, z)] + rest.found, rest.error) else rest
  }

  /**
   * The rest of the lines, in layer y at row z: a "Layer " line moves to
   * the next layer and before its first row, a line indented by four
   * spaces is the next row, and any other line ends the read with
   * UnrecognizedLine.
   */
  function LinesScan(lines: seq<string>, y: Int32, z: Int32): Scan
    decreases |lines|
  {
    if |lines| == 0 then Scan([], None)
    else if StartsWith(lines[0], LAYER_PREFIX) then LinesScan(lines[1..], Wrap(y + 1), -1)
    else if !StartsWith(lines[0], ROW_PREFIX) then Scan([], Some(UnrecognizedLine(lines[0])))
    else
      var z' := Wrap(z + 1);
      Then(RowScan(lines[0][4..], -1, y, z'), LinesScan(lines[1..], y, z'))
  }

  /** What is left when the reader stands after box x of row z of layer y, with chars left on that row. */
  function Rest(chars: seq<char>, lines: seq<string>, x: Int32, y: Int32, z: Int32): Scan {
    Then(RowScan(chars, x, y, z), LinesScan(lines, y, z))
  }

  /** A whole file: its first line (the dimensions) is skipped; an empty file has none to skip. */
  function FileScan(fileLines: seq<string>): Scan {
    if |fileLines| == 0 then Scan([], Some(NoSuchElement)) else LinesScan(fileLines[1..], -1, -1)
  }

  /** The positions a consumer of the iterator sees: an error met while looking ahead loses the position held. */
  function Yielded(s: Scan): seq<BlockPos> {
    if s.error.Some? && |s.found| > 0 then s.found[..|s.found| - 1] else s.found
  }

  /**
   * `Obj3dFileLinesTransformer`: an iterator over the lines of a file.
   * `lineIter` is the lines not yet taken, `charIter` the characters of
   * the current row not yet taken, `optionalNext` the position held ahead;
   * `ahead` is what the iterator will produce from now on.
   */
  class Obj3dFileLinesTransformer {
    var lineIter: seq<string>
    var line: string
    var charIter: seq<char>
    var optionalNext: Option<BlockPos>
    ghost var ahead: Scan

    /** The position held is the first of what is ahead, and the rest is what the lines left give from there. */
    ghost predicate Valid()
      reads this
    {
      match optionalNext
      case None => ahead == Scan([], None)
      case Some(p) =>
        |ahead.found| > 0 && ahead.found[0] == p &&
        Rest(charIter, lineIter, p.x, p.y, p.z) == Scan(ahead.found[1..], ahead.error)
    }

    /** The first line is taken (and ignored); no row is under way yet. */
    constructor Start(first: string, lines: seq<string>)
      ensures lineIter == lines && line == first && charIter == [] && optionalNext == None
      ensures ahead == Scan([], None)
    {
      lineIter := lines;
      line := first;
      charIter := [];
      optionalNext := None;
      ahead := Scan([], None);
    }

    /**
     * The reader over a file: taking the first line fails on an empty
     * file, and looking ahead for the first position fails when the file
     * ends in an error before any full box.
     */
    static method Open(fileLines: seq<string>) returns (r: Result<Obj3dFileLinesTransformer>)
      ensures var s := FileScan(fileLines);
        (r.Err? <==> s.found == [] && s.error.Some?) &&
        (r.Err? ==> r.error == s.error.value) &&
        (r.Ok? ==> fresh(r.value) && r.value.Valid() && r.value.ahead == s)
    {
      if |fileLines| == 0 {
        return Err(NoSuchElement);
      }
      var it := new Obj3dFileLinesTransformer.Start(fileLines[0], fileLines[1..]);
      var n := it.NextInternal(BlockPos(-1, -1, -1));
      if n.Err? {
        return Err(n.error);
      }
      it.optionalNext := n.value;
      it.ahead := FileScan(fileLines);
      return Ok(it);
    }

    /** `hasNext`: whether a position is held, that is, whether anything is ahead. */
    method HasNext() returns (b: bool)
      requires Valid()
      ensures b <==> |ahead.found| > 0
    {
      return optionalNext.Some?;
    }

    /**
     * `next`: the position held, after looking ahead for the one after it.
     * With nothing held it fails; when looking ahead fails, that error is
     * raised instead and the position held is lost.
     */
    method Next() returns (r: Result<BlockPos>)
      requires Valid()
      modifies this
      ensures old(ahead.found) == [] ==> r == Err(IllegalArgument)
      ensures |old(ahead.found)| == 1 && old(ahead.error).Some? ==> r == Err(old(ahead.error).value)
      ensures |old(ahead.found)| > 1 || (|old(ahead.found)| == 1 && old(ahead.error).None?) ==>
        r == Ok(old(ahead.found)[0]) && Valid() && ahead == Scan(old(ahead.found)[1..], old(ahead.error))
    {
      if optionalNext.None? {
        return Err(IllegalArgument);
      }
      var returnVal := optionalNext.value;
      var n := NextInternal(returnVal);
      if n.Err? {
        return Err(n.error);
      }
      optionalNext := n.value;
      ahead := Scan(ahead.found[1..], ahead.error);
      return Ok(returnVal);
    }

    /**
     * `nextInternal`: the next full box after prevPos, taking rows and
     * layer headers as needed; none when the lines run out.
     */
    method NextInternal(prevPos: BlockPos) returns (r: Result<Option<BlockPos>>)
      modifies this`charIter, this`lineIter, this`line
      ensures var s := Rest(old(charIter), old(lineIter), prevPos.x, prevPos.y, prevPos.z);
        (r.Err? <==> s.found == [] && s.error.Some?) &&
        (r.Err? ==> r.error == s.error.value) &&
        (r == Ok(None) <==> s == Scan([], None)) &&
        (r.Ok? && r.value.Some? ==>
          |s.found| > 0 && s.found[0] == r.value.value &&
          Rest(charIter, lineIter, r.value.value.x, r.value.value.y, r.value.value.z) == Scan(s.found[1..], s.error))
    {
      var y, z, x := prevPos.y, prevPos.z, prevPos.x;
      while true
        invariant Rest(old(charIter), old(lineIter), prevPos.x, prevPos.y, prevPos.z) == Rest(charIter, lineIter, x, y, z)
        decreases |lineIter|
      {
        var nextX := NextCurrentLine(x, y, z);
        if nextX.Err? {
          return Err(nextX.error);
        }
        if nextX.value.Some? {
          return Ok(Some(BlockPos(nextX.value.value, y, z)));
        }
        if |lineIter| == 0 {
          return Ok(None);
        }
        line := lineIter[0];
        lineIter := lineIter[1..];
        if StartsWith(line, LAYER_PREFIX) {
          y := Wrap(y as int + 1);
          z := -1;
          continue;
        }
        if !StartsWith(line, ROW_PREFIX) {
          return Err(UnrecognizedLine(line));
        }
        z := Wrap(z as int + 1);
        x := -1;
        charIter := line[4..];
      }
    }

    /**
     * `nextCurrentLine`: the column of the next full box on the current
     * row after prevIndex, taking two characters per box; none when the
     * row runs out. y and z only name the row for the statement.
     */
    method NextCurrentLine(prevIndex: Int32, ghost y: Int32, ghost z: Int32) returns (r: Result<Option<Int32>>)
      modifies this`charIter
      ensures var s := RowScan(old(charIter), prevIndex, y, z);
        (r.Err? <==> s.found == [] && s.error.Some?) &&
        (r.Err? ==> r.error == s.error.value) &&
        (r == Ok(None) <==> s == Scan([], None)) &&
        (r == Ok(None) ==> charIter == []) &&
        (r.Ok? && r.value.Some? ==>
          |s.found| > 0 && s.found[0] == BlockPos(r.value.value, y, z) &&
          RowScan(charIter, r.value.value, y, z) == Scan(s.found[1..], s.error))
    {
      var x := prevIndex;
      while |charIter| > 0
        invariant RowScan(old(charIter), prevIndex, y, z) == RowScan(charIter, x, y, z)
        decreases |charIter|
      {
        x := Wrap(x as int + 1);
        var found := charIter[0] == 'X';
        charIter := charIter[1..];
        if |charIter| == 0 {
          return Err(NoSuchElement);
        }
        charIter := charIter[1..];
        if found {
          return Ok(Some(x));
        }
      }
      return Ok(None);
    }
  }

  /**
   * Consuming the reader over a file, as `readFile` hands it on: the
   * positions yielded are those of the file in order, and the read ends
   * with the file's error, if any.
   */
  method ReadAll(fileLines: seq<string>) returns (ps: seq<BlockPos>, err: Option<Error>)
    ensures ps == Yielded(FileScan(fileLines))
    ensures err == FileScan(fileLines).error
  {
    var s := FileScan(fileLines);
    var o := Obj3dFileLinesTransformer.Open(fileLines);
    if o.Err? {
      return [], Some(o.error);
    }
    var it := o.value;
    ps := [];
    var more := it.HasNext();
    while more
      invariant fresh(it) && it.Valid()
      invariant more <==> |it.ahead.found| > 0
      invariant ps + it.ahead.found == s.found && it.ahead.error == s.error
      decreases |it.ahead.found|
    {
      ghost var before := it.ahead;
      var p := it.Next();
      if p.Err? {
        assert |before.found| == 1;
        assert ps == s.found[..|s.found| - 1];
        return ps, Some(p.error);
      }
      TakeFirst(ps, before.found, p.value, it.ahead.found);
      ps := ps + [p.value];
      more := it.HasNext();
    }
    return ps, s.error;
  }

  /** Moving the first position found onto the positions yielded keeps their concatenation. */
  lemma TakeFirst(ps: seq<BlockPos>, f: seq<BlockPos>, p: BlockPos, rest: seq<BlockPos>)
    requires |f| > 0 && p == f[0] && rest == f[1..]
    ensures (ps + [p]) + rest == ps + f
  {
    assert [p] + rest == f;
  }
}
