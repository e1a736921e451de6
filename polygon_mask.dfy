/**
 * Polygon raster masks: a mask is a grid of booleans indexed [z][x]
 * whose cell (0, 0) is the canvas origin. The mask iterator walks the
 * true cells; `merge` ORs one mask into another in place; `rasterize`
 * checks the canvas and ORs together the masks of the pieces of a
 * polygon.
 */
module PolygonMasks {
  import opened KotlinInt
  import opened Outcomes
  import opened BlockPositions

  type Mask = seq<seq<bool>>

  /** The canvas a mask covers: min inclusive, max exclusive. */
  datatype HorRect = HorRect(min: HorBlockPos, max: HorBlockPos)

  /**
   * The true cells (z, x) at or after (z, x), rows in order and columns
   * in order within a row.
   */
  function CellsFrom(m: Mask, z: nat, x: nat): seq<(int, int)>
    decreases |m| - z, if z < |m| then |m[z]| - x else 0
  {
    if z >= |m| then []
    else if x >= |m[z]| then CellsFrom(m, z + 1, 0)
    else (if m[z][x] then [(z, x)] else []) + CellsFrom(m, z, x + 1)
  }

  /** (z, x) comes before (z', x'): an earlier row, or an earlier column of the same row. */
  predicate Before(c: (int, int), d: (int, int)) {
    c.0 < d.0 || (c.0 == d.0 && c.1 < d.1)
  }

  /** The cells from (z, x) are the true cells at or after it. */
  lemma {:induction false} CellsFromMembership(m: Mask, z: nat, x: nat, c: (int, int))
    ensures c in CellsFrom(m, z, x) <==> TrueCellFrom(m, z, x, c)
    decreases |m| - z, if z < |m| then |m[z]| - x else 0
  {
    if z >= |m| {
    } else if x >= |m[z]| {
      CellsFromMembership(m, z + 1, 0, c);
      assert TrueCellFrom(m, z, x, c) <==> TrueCellFrom(m, z + 1, 0, c);
    } else {
      CellsFromMembership(m, z, x + 1, c);
      var head, rest := if m[z][x] then [(z, x)] else [], CellsFrom(m, z, x + 1);
      assert CellsFrom(m, z, x) == head + rest;
      assert c in head + rest <==> c in head || c in rest;
      assert c in head <==> c == (z, x) && m[z][x];
      assert TrueCellFrom(m, z, x, c) <==> (c == (z, x) && m[z][x]) || TrueCellFrom(m, z, x + 1, c);
    }
  }

  /** c is a true cell of m at or after (z, x). */
  predicate TrueCellFrom(m: Mask, z: nat, x: nat, c: (int, int)) {
    0 <= c.0 < |m| && 0 <= c.1 < |m[c.0]| && m[c.0][c.1] && (c.0 > z || (c.0 == z && c.1 >= x))
  }

  /** The cells come in order, each once. */
  lemma {:induction false} CellsFromAscending(m: Mask, z: nat, x: nat)
    ensures forall i, j :: 0 <= i < j < |CellsFrom(m, z, x)| ==> Before(CellsFrom(m, z, x)[i], CellsFrom(m, z, x)[j])
    decreases |m| - z, if z < |m| then |m[z]| - x else 0
  {
    if z >= |m| {
    } else if x >= |m[z]| {
      CellsFromAscending(m, z + 1, 0);
    } else {
      CellsFromAscending(m, z, x + 1);
      var rest := CellsFrom(m, z, x + 1);
      forall c | c in rest
        ensures Before((z, x), c)
      {
        CellsFromMembership(m, z, x + 1, c);
      }
    }
  }

  /** The block position of cell (z, x) on a canvas at origin. */
  function At(origin: HorBlockPos, c: (int, int)): HorBlockPos {
    HorBlockPos(Wrap(origin.x + c.1), Wrap(origin.z + c.0))
  }

  function Positions(origin: HorBlockPos, cells: seq<(int, int)>): (ps: seq<HorBlockPos>)
    ensures |ps| == |cells| && forall i :: 0 <= i < |cells| ==> ps[i] == At(origin, cells[i])
  {
    seq(|cells|, i requires 0 <= i < |cells| => At(origin, cells[i]))
  }

  /** The contents of a mask held as an array of rows. */
  ghost function Contents(a: array<array<bool>>): Mask
    reads a, set z | 0 <= z < a.Length :: a[z]
  {
    seq(a.Length, z requires 0 <= z < a.Length reads a, set w | 0 <= w < a.Length :: a[w] => a[z][..])
  }

  /**
   * `PolygonMask` (`PolygonRasterMask` in the generator): an iterator
   * over the true cells of a mask, as block positions from the origin.
   * (nextZ, nextX) is the next cell to look at.
   */
  class PolygonMask {
    const origin: HorBlockPos
    const maskZx: array<array<bool>>
    var nextZ: int
    var nextX: int

    ghost predicate Valid()
      reads this, maskZx
    {
      0 <= nextZ <= maskZx.Length && 0 <= nextX && (nextZ < maskZx.Length ==> nextX <= maskZx[nextZ].Length)
    }

    /** The positions still to come. */
    ghost function Pending(): seq<HorBlockPos>
      requires Valid()
      reads this, maskZx, set z | 0 <= z < maskZx.Length :: maskZx[z]
    {
      Positions(origin, CellsFrom(Contents(maskZx), nextZ, nextX))
    }

    constructor (origin: HorBlockPos, maskZx: array<array<bool>>)
      ensures this.origin == origin && this.maskZx == maskZx
      ensures Valid() && nextZ == 0 && nextX == 0
      ensures Pending() == Positions(origin, CellsFrom(Contents(maskZx), 0, 0))
    {
      this.origin := origin;
      this.maskZx := maskZx;
      nextZ := 0;
      nextX := 0;
    }

    /**
     * `hasNext`: moves past false cells to the next true one, if any; what
     * is still to come does not change.
     */
    method HasNext() returns (b: bool)
      requires Valid()
      modifies this`nextZ, this`nextX
      ensures Valid() && Pending() == old(Pending())
      ensures b <==> |Pending()| > 0
      ensures b ==> nextZ < maskZx.Length && nextX < maskZx[nextZ].Length && maskZx[nextZ][nextX]
    {
      ghost var m := Contents(maskZx);
      while true
        invariant Valid()
        invariant CellsFrom(m, nextZ, nextX) == CellsFrom(m, old(nextZ), old(nextX))
        decreases maskZx.Length - nextZ, if nextZ < maskZx.Length then maskZx[nextZ].Length - nextX else 0
      {
        if nextZ == maskZx.Length {
          return false;
        }
        if nextX == maskZx[nextZ].Length {
          nextX := 0;
          nextZ := nextZ + 1;
          continue;
        }
        assert m[nextZ][nextX] == maskZx[nextZ][nextX];
        if maskZx[nextZ][nextX] {
          return true;
        }
        nextX := nextX + 1;
      }
    }

    /** `next`: the first position still to come; with none left it fails. */
    method Next() returns (r: Result<HorBlockPos>)
      requires Valid()
      modifies this`nextZ, this`nextX
      ensures Valid()
      ensures old(Pending()) == [] ==> r == Err(IllegalArgument)
      ensures old(Pending()) != [] ==> r == Ok(old(Pending())[0]) && Pending() == old(Pending())[1..]
    {
      var more := HasNext();
      if !more {
        return Err(IllegalArgument);
      }
      ghost var m := Contents(maskZx);
      assert m[nextZ][nextX];
      r := Ok(HorBlockPos(Wrap(origin.x + nextX), Wrap(origin.z + nextZ)));
      nextX := nextX + 1;
    }
  }

  /** One step of consuming the iterator: the next position appended to those taken, and whether more follow. */
  method Take(it: PolygonMask, ps: seq<HorBlockPos>) returns (ps': seq<HorBlockPos>, more: bool)
    requires it.Valid() && |it.Pending()| > 0
    modifies it`nextZ, it`nextX
    ensures it.Valid() && ps' + it.Pending() == ps + old(it.Pending())
    ensures more <==> |it.Pending()| > 0
    ensures |it.Pending()| < |old(it.Pending())|
  {
    ghost var before := it.Pending();
    var p := it.Next();
    ps' := ps + [p.value];
    assert ps' + it.Pending() == ps + [before[0]] + before[1..];
    more := it.HasNext();
  }

  /**
   * Consuming the iterator over a mask: the positions of its true cells,
   * rows in order and columns in order within a row.
   */
  method MaskPositions(origin: HorBlockPos, maskZx: array<array<bool>>) returns (ps: seq<HorBlockPos>)
    ensures ps == Positions(origin, CellsFrom(Contents(maskZx), 0, 0))
  {
    var it := new PolygonMask(origin, maskZx);
    ghost var all := it.Pending();
    ps := [];
    var more := it.HasNext();
    while more
      invariant fresh(it) && it.Valid() && it.maskZx == maskZx
      invariant ps + it.Pending() == all
      invariant more <==> |it.Pending()| > 0
      decreases |it.Pending()|
    {
      ps, more := Take(it, ps);
    }
  }

  // ---------------------------------------------------------------------
  // Merging
  // ---------------------------------------------------------------------

  function OrRow(p: seq<bool>, q: seq<bool>): (r: seq<bool>)
    requires |p| == |q|
    ensures |r| == |p| && forall i :: 0 <= i < |p| ==> r[i] == (p[i] || q[i])
  {
    seq(|p|, i requires 0 <= i < |p| => p[i] || q[i])
  }

  /** The first row from z on where the two masks differ in length; |a| when none does. */
  function FirstRowMismatch(a: Mask, b: Mask, z: nat): (k: nat)
    requires |a| == |b| && z <= |a|
    ensures z <= k <= |a| && (k < |a| ==> |a[k]| != |b[k]|)
    ensures forall w :: z <= w < k ==> |a[w]| == |b[w]|
    decreases |a| - z
  {
    if z == |a| then z else if |a[z]| != |b[z]| then z else FirstRowMismatch(a, b, z + 1)
  }

  /** How many rows `merge` ORs before it fails, or all of them. */
  function MergedRows(a: Mask, b: Mask): (k: nat)
    ensures k <= |a| && (k > 0 ==> |a| == |b|)
    ensures forall w :: 0 <= w < k ==> |a[w]| == |b[w]|
  {
    if |a| != |b| then 0 else FirstRowMismatch(a, b, 0)
  }

  /**
   * `merge` on mask values: a mask with the same number of rows as the
   * other, row by row of the same lengths, becomes their cell-wise OR;
   * otherwise the first mismatch is the error.
   */
  function MergeMasks(a: Mask, b: Mask): (r: Result<Mask>)
    ensures r.Ok? <==> |a| == |b| && forall z :: 0 <= z < |a| ==> |a[z]| == |b[z]|
    ensures |a| != |b| ==> r == Err(CanvasSizes)
    ensures r.Ok? ==> |r.value| == |a|
    ensures r.Ok? ==> forall z :: 0 <= z < |a| ==>
      |r.value[z]| == |a[z]| && forall x :: 0 <= x < |a[z]| ==> (r.value[z][x] <==> a[z][x] || b[z][x])
  {
    if |a| != |b| then Err(CanvasSizes)
    else
      var k := FirstRowMismatch(a, b, 0);
      if k < |a| then Err(CanvasRowSizes(k))
      else Ok(seq(|a|, z requires 0 <= z < |a| && |a[z]| == |b[z]| => OrRow(a[z], b[z])))
  }

  /** `merge`'s inner loop: the source row ORed into the target row. */
  method OrInto(row: array<bool>, src: array<bool>)
    requires row != src && row.Length == src.Length
    modifies row
    ensures row[..] == OrRow(old(row[..]), src[..])
  {
    var x := 0;
    while x < row.Length
      invariant 0 <= x <= row.Length
      invariant row[..x] == OrRow(old(row[..]), src[..])[..x]
      invariant forall i :: x <= i < row.Length ==> row[i] == old(row[i])
    {
      if src[x] {
        row[x] := true;
      }
      assert row[..x + 1] == row[..x] + [row[x]];
      x := x + 1;
    }
  }

  /** The rows of one mask are distinct arrays, and distinct from those of the other. */
  predicate RowsApart(a: array<array<bool>>, b: array<array<bool>>)
    reads a, b
  {
    (forall i, j :: 0 <= i < j < a.Length ==> a[i] != a[j]) &&
    (forall i, j :: 0 <= i < a.Length && 0 <= j < b.Length ==> a[i] != b[j])
  }

  /**
   * `merge`, the receiver a and the argument b: b's true cells are ORed
   * into a row by row, in place. Rows before the first mismatch are
   * merged when it fails; b is never changed.
   */
  method Merge(a: array<array<bool>>, b: array<array<bool>>) returns (r: Outcome)
    requires RowsApart(a, b)
    modifies set z | 0 <= z < a.Length :: a[z]
    ensures var m := MergeMasks(old(Contents(a)), old(Contents(b)));
      (r.Pass? <==> m.Ok?) && (r.Fail? ==> r.error == m.error) && (m.Ok? ==> Contents(a) == m.value)
    ensures forall z :: 0 <= z < a.Length ==>
      var A, B := old(Contents(a)), old(Contents(b));
      Contents(a)[z] == if z < MergedRows(A, B) then OrRow(A[z], B[z]) else A[z]
    ensures Contents(b) == old(Contents(b))
  {
    ghost var A, B := Contents(a), Contents(b);
    if a.Length != b.Length {
      return Fail(CanvasSizes);
    }
    var z := 0;
    while z < a.Length && a[z].Length == b[z].Length
      invariant 0 <= z <= a.Length
      invariant z <= FirstRowMismatch(A, B, 0)
      invariant forall w :: 0 <= w < a.Length ==> a[w][..] == if w < z then OrRow(A[w], B[w]) else A[w]
      invariant forall w :: 0 <= w < b.Length ==> b[w][..] == B[w]
    {
      MergeRow(a, b, z, A, B);
      z := z + 1;
    }
    assert MergedRows(A, B) == z;
    if z < a.Length {
      return Fail(CanvasRowSizes(z));
    }
    assert Contents(a) == MergeMasks(A, B).value;
    return Pass;
  }

  /** One step of `merge`: row z of b is ORed into row z of a, and no other row changes. */
  method MergeRow(a: array<array<bool>>, b: array<array<bool>>, z: nat, ghost A: Mask, ghost B: Mask)
    requires RowsApart(a, b) && a.Length == b.Length && z < a.Length && a[z].Length == b[z].Length
    requires |A| == a.Length && |B| == b.Length && forall w :: 0 <= w <= z ==> |A[w]| == |B[w]|
    requires forall w :: 0 <= w < a.Length ==> a[w][..] == if w < z then OrRow(A[w], B[w]) else A[w]
    requires forall w :: 0 <= w < b.Length ==> b[w][..] == B[w]
    modifies a[z]
    ensures forall w :: 0 <= w < a.Length ==> a[w][..] == if w <= z then OrRow(A[w], B[w]) else A[w]
    ensures forall w :: 0 <= w < b.Length ==> b[w][..] == B[w]
  {
    OrInto(a[z], b[z]);
  }

  /** The cells of a merged mask are those of either mask. */
  lemma MergedCells(a: Mask, b: Mask, c: (int, int))
    requires MergeMasks(a, b).Ok?
    ensures c in CellsFrom(MergeMasks(a, b).value, 0, 0) <==> c in CellsFrom(a, 0, 0) || c in CellsFrom(b, 0, 0)
  {
    CellsFromMembership(MergeMasks(a, b).value, 0, 0, c);
    CellsFromMembership(a, 0, 0, c);
    CellsFromMembership(b, 0, 0, c);
  }

  // ---------------------------------------------------------------------
  // Rasterizing onto a canvas
  // ---------------------------------------------------------------------

  /** `reduceOrNull { a, b -> a.merge(b) }` over one or more masks, left to right. */
  function MergeAll(pieces: seq<Mask>): Result<Mask>
    requires |pieces| > 0
  {
    if |pieces| == 1 then Ok(pieces[0])
    else
      var init := MergeAll(pieces[..|pieces| - 1]);
      if init.Err? then init else MergeMasks(init.value, pieces[|pieces| - 1])
  }

  /** Cell (z, x) is true in one of the masks. */
  predicate InSomePiece(pieces: seq<Mask>, z: int, x: int) {
    exists i :: 0 <= i < |pieces| && 0 <= z < |pieces[i]| && 0 <= x < |pieces[i][z]| && pieces[i][z][x]
  }

  /** A mask of depth rows of width cells. */
  predicate Shaped(m: Mask, depth: int, width: int) {
    |m| == depth && forall z :: 0 <= z < |m| ==> |m[z]| == width
  }

  /**
   * `rasterize` (`createRasterMask` in the generator), given the masks of
   * the polygon's pieces on the canvas: a canvas without positive width
   * and depth fails, no pieces give none, and otherwise the pieces are
   * merged.
   */
  function Rasterize(canvas: HorRect, pieces: seq<Mask>): Result<Option<Mask>> {
    var lenX := Wrap(canvas.max.x - canvas.min.x);
    var lenZ := Wrap(canvas.max.z - canvas.min.z);
    if lenX <= 0 || lenZ <= 0 then Err(IllegalArgument)
    else if |pieces| == 0 then Ok(None)
    else
      var m := MergeAll(pieces);
      if m.Err? then Err(m.error) else Ok(Some(m.value))
  }

  /** Merging masks of one shape gives that shape, a cell being true exactly when it is in some piece. */
  lemma {:induction false} MergeAllUnion(pieces: seq<Mask>, depth: int, width: int)
    requires |pieces| > 0 && forall i :: 0 <= i < |pieces| ==> Shaped(pieces[i], depth, width)
    ensures MergeAll(pieces).Ok? && Shaped(MergeAll(pieces).value, depth, width)
    ensures forall z, x :: 0 <= z < depth && 0 <= x < width ==>
      (MergeAll(pieces).value[z][x] <==> InSomePiece(pieces, z, x))
    decreases |pieces|
  {
    if |pieces| > 1 {
      var n := |pieces|;
      var init := pieces[..n - 1];
      assert forall i :: 0 <= i < n - 1 ==> init[i] == pieces[i];
      MergeAllUnion(init, depth, width);
      forall z, x | 0 <= z < depth && 0 <= x < width
        ensures MergeAll(pieces).value[z][x] <==> InSomePiece(pieces, z, x)
      {
        if pieces[n - 1][z][x] {
          assert InSomePiece(pieces, z, x);
        } else if MergeAll(pieces).value[z][x] {
          var i :| 0 <= i < n - 1 && 0 <= z < |init[i]| && 0 <= x < |init[i][z]| && init[i][z][x];
          assert pieces[i] == init[i];
        }
      }
    }
  }

  /**
   * On a canvas of positive size, the masks of the pieces (each as large
   * as the canvas) rasterize to one mask of that size whose true cells are
   * those of any piece; with no pieces there is no mask.
   */
  lemma RasterizeUnion(canvas: HorRect, pieces: seq<Mask>)
    requires Wrap(canvas.max.x - canvas.min.x) > 0 && Wrap(canvas.max.z - canvas.min.z) > 0
    requires forall i :: 0 <= i < |pieces| ==>
      Shaped(pieces[i], Wrap(canvas.max.z - canvas.min.z), Wrap(canvas.max.x - canvas.min.x))
    ensures |pieces| == 0 ==> Rasterize(canvas, pieces) == Ok(None)
    ensures |pieces| > 0 ==> Rasterize(canvas, pieces).Ok? && Rasterize(canvas, pieces).value.Some?
    ensures |pieces| > 0 ==> var m := Rasterize(canvas, pieces).value.value;
      var lenX, lenZ := Wrap(canvas.max.x - canvas.min.x), Wrap(canvas.max.z - canvas.min.z);
      Shaped(m, lenZ, lenX) &&
      forall z, x :: 0 <= z < lenZ && 0 <= x < lenX ==> (m[z][x] <==> InSomePiece(pieces, z, x))
  {
    if |pieces| > 0 {
      MergeAllUnion(pieces, Wrap(canvas.max.z - canvas.min.z), Wrap(canvas.max.x - canvas.min.x));
    }
  }

  /** A canvas without positive width or depth fails whatever the pieces. */
  lemma RasterizeRejectsCanvas(canvas: HorRect, pieces: seq<Mask>)
    ensures Rasterize(canvas, pieces).Err? <==>
      (Wrap(canvas.max.x - canvas.min.x) <= 0 || Wrap(canvas.max.z - canvas.min.z) <= 0 ||
       (|pieces| > 0 && MergeAll(pieces).Err?))
  {
  }
}
