/**
 * The editor's dump read back by the obj3d reader: the reader yields the
 * full boxes of the object, layer by layer, row by row, column by
 * column, as block positions (column, layer, row), and ends without an
 * error.
 */
module Obj3dRoundTrip {
  import opened KotlinInt
  import opened Outcomes
  import opened BlockPositions
  import opened StringUtils
  import opened Object3dEditor
  import opened Obj3dReaders

  /** Every count of a layer is an `Int`. */
  predicate LayerCountable(l: Layer) {
    |l| <= INT_MAX && forall r :: 0 <= r < |l| ==> |l[r]| <= INT_MAX
  }

  /** Every count of the object is an `Int`. */
  predicate Countable(ls: seq<Layer>) {
    |ls| <= INT_MAX && forall k :: 0 <= k < |ls| ==> LayerCountable(ls[k])
  }

  lemma CountablePrefix(ls: seq<Layer>, n: int)
    requires Countable(ls) && 0 <= n <= |ls|
    ensures Countable(ls[..n])
  {
    assert forall k :: 0 <= k < n ==> ls[..n][k] == ls[k];
  }

  /** The full boxes of row z of layer y, by column. */
  function RowBoxes(row: Row, y: Int32, z: Int32): seq<BlockPos>
    requires |row| <= INT_MAX
  {
    if |row| == 0 then []
    else RowBoxes(row[..|row| - 1], y, z) + (if IsFull(row[|row| - 1]) then [BlockPos(|row| - 1, y, z)] else [])
  }

  /** The full boxes of layer y, row by row. */
  function LayerBoxes(l: Layer, y: Int32): seq<BlockPos>
    requires LayerCountable(l)
  {
    if |l| == 0 then []
    else LayerBoxes(l[..|l| - 1], y) + RowBoxes(l[|l| - 1], y, |l| - 1)
  }

  /** The full boxes of the object, layer by layer. */
  function FullBoxes(ls: seq<Layer>): seq<BlockPos>
    requires Countable(ls)
  {
    if |ls| == 0 then []
    else
      CountablePrefix(ls, |ls| - 1);
      FullBoxes(ls[..|ls| - 1]) + LayerBoxes(ls[|ls| - 1], |ls| - 1)
  }

  /** Box p is a full box of row z of layer y. */
  lemma {:induction false} RowBoxesMembership(row: Row, y: Int32, z: Int32, p: BlockPos)
    requires |row| <= INT_MAX
    ensures p in RowBoxes(row, y, z) <==> p.y == y && p.z == z && 0 <= p.x < |row| && IsFull(row[p.x])
    decreases |row|
  {
    if |row| > 0 {
      RowBoxesMembership(row[..|row| - 1], y, z, p);
    }
  }

  /** Box p is a full box of layer y. */
  lemma {:induction false} LayerBoxesMembership(l: Layer, y: Int32, p: BlockPos)
    requires LayerCountable(l)
    ensures p in LayerBoxes(l, y) <==>
      p.y == y && 0 <= p.z < |l| && 0 <= p.x < |l[p.z]| && IsFull(l[p.z][p.x])
    decreases |l|
  {
    if |l| > 0 {
      var init := l[..|l| - 1];
      LayerBoxesMembership(init, y, p);
      RowBoxesMembership(l[|l| - 1], y, |l| - 1, p);
      if 0 <= p.z < |l| - 1 {
        assert init[p.z] == l[p.z];
      }
    }
  }

  /** The positions are exactly those (column, layer, row) whose box is full. */
  lemma {:induction false} FullBoxesMembership(ls: seq<Layer>, p: BlockPos)
    requires Countable(ls)
    ensures p in FullBoxes(ls) <==>
      0 <= p.y < |ls| && 0 <= p.z < |ls[p.y]| && 0 <= p.x < |ls[p.y][p.z]| && IsFull(ls[p.y][p.z][p.x])
    decreases |ls|
  {
    if |ls| > 0 {
      var init := ls[..|ls| - 1];
      CountablePrefix(ls, |ls| - 1);
      FullBoxesMembership(init, p);
      LayerBoxesMembership(ls[|ls| - 1], |ls| - 1, p);
      if 0 <= p.y < |ls| - 1 {
        assert init[p.y] == ls[p.y];
      }
    }
  }

  /** p comes before q: an earlier layer, or an earlier row of the same layer, or an earlier column of the same row. */
  predicate Before(p: BlockPos, q: BlockPos) {
    p.y < q.y || (p.y == q.y && (p.z < q.z || (p.z == q.z && p.x < q.x)))
  }

  predicate Ascending(ps: seq<BlockPos>) {
    forall i, j :: 0 <= i < j < |ps| ==> Before(ps[i], ps[j])
  }

  lemma AscendingAppend(a: seq<BlockPos>, b: seq<BlockPos>)
    requires Ascending(a) && Ascending(b)
    requires forall p, q :: p in a && q in b ==> Before(p, q)
    ensures Ascending(a + b)
  {
    forall i, j | 0 <= i < j < |a + b|
      ensures Before((a + b)[i], (a + b)[j])
    {
      if j < |a| {
      } else if i >= |a| {
        assert (a + b)[i] == b[i - |a|] && (a + b)[j] == b[j - |a|];
      } else {
        assert (a + b)[i] in a && (a + b)[j] in b;
      }
    }
  }

  lemma {:induction false} RowBoxesAscending(row: Row, y: Int32, z: Int32)
    requires |row| <= INT_MAX
    ensures Ascending(RowBoxes(row, y, z))
    decreases |row|
  {
    if |row| > 0 {
      var n := |row|;
      RowBoxesAscending(row[..n - 1], y, z);
      forall p | p in RowBoxes(row[..n - 1], y, z)
        ensures p.y == y && p.z == z && p.x < n - 1
      {
        RowBoxesMembership(row[..n - 1], y, z, p);
      }
      AscendingAppend(RowBoxes(row[..n - 1], y, z), if IsFull(row[n - 1]) then [BlockPos(n - 1, y, z)] else []);
    }
  }

  lemma {:induction false} LayerBoxesAscending(l: Layer, y: Int32)
    requires LayerCountable(l)
    ensures Ascending(LayerBoxes(l, y))
    decreases |l|
  {
    if |l| > 0 {
      var n := |l|;
      LayerBoxesAscending(l[..n - 1], y);
      RowBoxesAscending(l[n - 1], y, n - 1);
      forall p, q | p in LayerBoxes(l[..n - 1], y) && q in RowBoxes(l[n - 1], y, n - 1)
        ensures Before(p, q)
      {
        LayerBoxesMembership(l[..n - 1], y, p);
        RowBoxesMembership(l[n - 1], y, n - 1, q);
      }
      AscendingAppend(LayerBoxes(l[..n - 1], y), RowBoxes(l[n - 1], y, n - 1));
    }
  }

  /** The positions come layer by layer, row by row, column by column, each once. */
  lemma {:induction false} FullBoxesAscending(ls: seq<Layer>)
    requires Countable(ls)
    ensures Ascending(FullBoxes(ls))
    decreases |ls|
  {
    if |ls| > 0 {
      var n := |ls|;
      CountablePrefix(ls, n - 1);
      FullBoxesAscending(ls[..n - 1]);
      LayerBoxesAscending(ls[n - 1], n - 1);
      forall p, q | p in FullBoxes(ls[..n - 1]) && q in LayerBoxes(ls[n - 1], n - 1)
        ensures Before(p, q)
      {
        FullBoxesMembership(ls[..n - 1], p);
        LayerBoxesMembership(ls[n - 1], n - 1, q);
      }
      AscendingAppend(FullBoxes(ls[..n - 1]), LayerBoxes(ls[n - 1], n - 1));
    }
  }

  /** Where a row of characters leaves the column count. */
  function RowEnd(chars: seq<char>, x: Int32): Int32
    decreases |chars|
  {
    if |chars| < 2 then x else RowEnd(chars[2..], Wrap(x + 1))
  }

  /** Where lines leave the layer and row counts (up to an unrecognized line). */
  function LinesEnd(lines: seq<string>, y: Int32, z: Int32): (Int32, Int32)
    decreases |lines|
  {
    if |lines| == 0 then (y, z)
    else if StartsWith(lines[0], LAYER_PREFIX) then LinesEnd(lines[1..], Wrap(y + 1), -1)
    else if !StartsWith(lines[0], ROW_PREFIX) then (y, z)
    else LinesEnd(lines[1..], y, Wrap(z + 1))
  }

  lemma ThenAssociative(a: Scan, b: Scan, c: Scan)
    ensures Then(Then(a, b), c) == Then(a, Then(b, c))
  {
  }

  /** A row of whole boxes followed by more characters reads as the boxes, then the rest from where they end. */
  lemma {:induction false} RowScanAppend(t1: seq<char>, t2: seq<char>, x: Int32, y: Int32, z: Int32)
    requires |t1| % 2 == 0
    ensures RowScan(t1, x, y, z).error == None
    ensures RowScan(t1 + t2, x, y, z) == Then(RowScan(t1, x, y, z), RowScan(t2, RowEnd(t1, x), y, z))
    decreases |t1|
  {
    if |t1| == 0 {
      assert t1 + t2 == t2;
    } else {
      assert (t1 + t2)[2..] == t1[2..] + t2;
      assert (t1 + t2)[0] == t1[0];
      RowScanAppend(t1[2..], t2, Wrap(x + 1), y, z);
    }
  }

  /** Lines followed by more lines read as the first, then the rest from where the first leave the counts. */
  lemma {:induction false} LinesScanAppend(l1: seq<string>, l2: seq<string>, y: Int32, z: Int32)
    ensures LinesScan(l1 + l2, y, z) == Then(LinesScan(l1, y, z), LinesScan(l2, LinesEnd(l1, y, z).0, LinesEnd(l1, y, z).1))
    decreases |l1|
  {
    if |l1| == 0 {
      assert l1 + l2 == l2;
    } else {
      assert (l1 + l2)[1..] == l1[1..] + l2;
      assert (l1 + l2)[0] == l1[0];
      if StartsWith(l1[0], LAYER_PREFIX) {
        LinesScanAppend(l1[1..], l2, Wrap(y + 1), -1);
      } else if StartsWith(l1[0], ROW_PREFIX) {
        var z' := Wrap(z + 1);
        LinesScanAppend(l1[1..], l2, y, z');
        ThenAssociative(RowScan(l1[0][4..], -1, y, z'), LinesScan(l1[1..], y, z'),
          LinesScan(l2, LinesEnd(l1, y, z).0, LinesEnd(l1, y, z).1));
      }
    }
  }

  lemma {:induction false} RowCellsLength(row: Row)
    ensures |RowCells(row)| == 2 * |row|
    decreases |row|
  {
    if |row| > 0 {
      RowCellsLength(row[..|row| - 1]);
    }
  }

  /** The boxes of a row, as dumped, read back as its full boxes, and leave the column count at the last column. */
  lemma {:induction false} RowReadsBack(row: Row, y: Int32, z: Int32)
    requires |row| <= INT_MAX
    ensures RowScan(RowCells(row), -1, y, z) == Scan(RowBoxes(row, y, z), None)
    ensures RowEnd(RowCells(row), -1) == |row| - 1
    decreases |row|
  {
    if |row| > 0 {
      var n := |row|;
      var init := row[..n - 1];
      RowReadsBack(init, y, z);
      RowCellsLength(init);
      var t := BoxText(row[n - 1]);
      RowScanAppend(RowCells(init), t, -1, y, z);
      RowEndAppend(RowCells(init), t, -1);
      assert t[2..] == [];
      assert RowScan(t, n - 2, y, z) == Scan(if IsFull(row[n - 1]) then [BlockPos(n - 1, y, z)] else [], None);
    }
  }

  lemma {:induction false} RowEndAppend(t1: seq<char>, t2: seq<char>, x: Int32)
    requires |t1| % 2 == 0
    ensures RowEnd(t1 + t2, x) == RowEnd(t2, RowEnd(t1, x))
    decreases |t1|
  {
    if |t1| == 0 {
      assert t1 + t2 == t2;
    } else {
      assert (t1 + t2)[2..] == t1[2..] + t2;
      RowEndAppend(t1[2..], t2, Wrap(x + 1));
    }
  }

  lemma {:induction false} LinesEndAppend(l1: seq<string>, l2: seq<string>, y: Int32, z: Int32)
    requires LinesScan(l1, y, z).error == None
    ensures LinesEnd(l1 + l2, y, z) == LinesEnd(l2, LinesEnd(l1, y, z).0, LinesEnd(l1, y, z).1)
    decreases |l1|
  {
    if |l1| == 0 {
      assert l1 + l2 == l2;
    } else {
      assert (l1 + l2)[1..] == l1[1..] + l2;
      assert (l1 + l2)[0] == l1[0];
      if StartsWith(l1[0], LAYER_PREFIX) {
        LinesEndAppend(l1[1..], l2, Wrap(y + 1), -1);
      } else {
        LinesEndAppend(l1[1..], l2, y, Wrap(z + 1));
      }
    }
  }

  /** A row line is indented and is not a layer header. */
  lemma RowLineShape(row: Row)
    ensures StartsWith(RowLine(row), ROW_PREFIX) && !StartsWith(RowLine(row), LAYER_PREFIX)
    ensures RowLine(row)[4..] == RowCells(row)
  {
    assert RowLine(row)[0] == ' ';
    assert RowLine(row)[..4] == ROW_PREFIX;
  }

  /** The rows of a layer, as dumped, read back as its full boxes, and leave the row count at the last row. */
  lemma {:induction false} RowsReadBack(l: Layer, y: Int32)
    requires LayerCountable(l)
    ensures LinesScan(RowsText(l), y, -1) == Scan(LayerBoxes(l, y), None)
    ensures LinesEnd(RowsText(l), y, -1) == (y, |l| - 1)
    decreases |l|
  {
    if |l| > 0 {
      var n := |l|;
      var init := l[..n - 1];
      RowsReadBack(init, y);
      var line := RowLine(l[n - 1]);
      assert RowsText(l) == RowsText(init) + [line];
      LinesScanAppend(RowsText(init), [line], y, -1);
      LinesEndAppend(RowsText(init), [line], y, -1);
      RowLineShape(l[n - 1]);
      RowReadsBack(l[n - 1], y, n - 1);
      assert [line][1..] == [];
    }
  }

  /** A layer header starts with "Layer ". */
  lemma HeaderShape(k: int)
    ensures StartsWith("Layer " + IntToString(k), LAYER_PREFIX)
  {
    assert ("Layer " + IntToString(k))[..6] == LAYER_PREFIX;
  }

  /** The layers, as dumped, read back as the full boxes, and leave the counts at the last row of the last layer. */
  lemma {:induction false} LayersReadBack(ls: seq<Layer>)
    requires Countable(ls)
    ensures LinesScan(LayersText(ls), -1, -1) == Scan(FullBoxes(ls), None)
    ensures LinesEnd(LayersText(ls), -1, -1) == (|ls| - 1, if |ls| == 0 then -1 else |ls[|ls| - 1]| - 1)
    decreases |ls|
  {
    if |ls| > 0 {
      var n := |ls|;
      var init := ls[..n - 1];
      CountablePrefix(ls, n - 1);
      LayersReadBack(init);
      var last := ls[n - 1];
      var block := LayerText(n - 1, last);
      LinesScanAppend(LayersText(init), block, -1, -1);
      LinesEndAppend(LayersText(init), block, -1, -1);
      var ends := LinesEnd(LayersText(init), -1, -1);
      HeaderShape(n - 1);
      assert block[0] == "Layer " + IntToString(n - 1);
      assert block[1..] == RowsText(last);
      RowsReadBack(last, n - 1);
      assert LinesScan(block, ends.0, ends.1) == LinesScan(RowsText(last), n - 1, -1);
      assert LinesEnd(block, ends.0, ends.1) == LinesEnd(RowsText(last), n - 1, -1);
    }
  }

  /**
   * Reading back a dump: the reader yields exactly the full boxes of the
   * object, in order, and ends without an error.
   */
  lemma DumpReadsBack(s: Object3dState)
    requires Valid(s) && |s.layers| <= INT_MAX
    ensures Countable(s.layers)
    ensures FileScan(DumpLines(s.layers)) == Scan(FullBoxes(s.layers), None)
    ensures Yielded(FileScan(DumpLines(s.layers))) == FullBoxes(s.layers)
  {
    assert DumpLines(s.layers)[1..] == LayersText(s.layers);
    LayersReadBack(s.layers);
  }

  /** Each row of a row scan is one row of one layer, with columns increasing from x, in order. */
  lemma {:induction false} RowScanAscending(chars: seq<char>, x: Int32, y: Int32, z: Int32)
    requires x + |chars| / 2 <= INT_MAX
    ensures Ascending(RowScan(chars, x, y, z).found)
    ensures forall p :: p in RowScan(chars, x, y, z).found ==> p.y == y && p.z == z && x < p.x
    decreases |chars|
  {
    if |chars| >= 2 {
      var x' := Wrap(x + 1);
      assert x' == x + 1;
      assert |chars[2..]| / 2 == |chars| / 2 - 1;
      RowScanAscending(chars[2..], x', y, z);
      var rest := RowScan(chars[2..], x', y, z).found;
      if chars[0] == 'X' {
        AscendingAppend([BlockPos(x', y, z)], rest);
      }
    }
  }

  /**
   * Any lines, read from layer y at row z, give positions in ascending
   * order, all past row z of layer y, as long as no count can wrap.
   */
  lemma {:induction false} LinesScanAscending(lines: seq<string>, y: Int32, z: Int32)
    requires |lines| <= INT_MAX && y + |lines| <= INT_MAX && z + |lines| <= INT_MAX
    requires forall i :: 0 <= i < |lines| ==> |lines[i]| < 0x1_0000_0000
    ensures Ascending(LinesScan(lines, y, z).found)
    ensures forall p :: p in LinesScan(lines, y, z).found ==> y < p.y || (y == p.y && z < p.z)
    decreases |lines|
  {
    if |lines| > 0 {
      assert forall i :: 0 <= i < |lines[1..]| ==> lines[1..][i] == lines[i + 1];
      if StartsWith(lines[0], LAYER_PREFIX) {
        assert Wrap(y + 1) == y + 1;
        LinesScanAscending(lines[1..], y + 1, -1);
      } else if StartsWith(lines[0], ROW_PREFIX) {
        var z' := Wrap(z + 1);
        assert z' == z + 1;
        var row := RowScan(lines[0][4..], -1, y, z');
        var rest := LinesScan(lines[1..], y, z');
        RowScanAscending(lines[0][4..], -1, y, z');
        LinesScanAscending(lines[1..], y, z');
        if row.error.None? {
          forall p, q | p in row.found && q in rest.found
            ensures Before(p, q)
          {
          }
          AscendingAppend(row.found, rest.found);
        }
      }
    }
  }

  /**
   * For any file whose counts cannot wrap, the reader yields positions
   * layer by layer, row by row, column by column, each once.
   */
  lemma ReadAscending(fileLines: seq<string>)
    requires |fileLines| < 0x8000_0000
    requires forall i :: 0 <= i < |fileLines| ==> |fileLines[i]| < 0x1_0000_0000
    ensures Ascending(FileScan(fileLines).found)
    ensures Ascending(Yielded(FileScan(fileLines)))
  {
    if |fileLines| > 0 {
      assert forall i :: 0 <= i < |fileLines[1..]| ==> fileLines[1..][i] == fileLines[i + 1];
      LinesScanAscending(fileLines[1..], -1, -1);
    }
  }
}
