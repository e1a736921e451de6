/**
 * The 3D object editor's state: a stack of 40 x 40 layers of boxes, the
 * layer being edited, the copy-on-write transitions the buttons and clicks
 * trigger, and the text dump the obj3d reader reads back.
 */
module Object3dEditor {
  import opened StringUtils

  const OBJECT_3D_DIMS: nat := 40

  /** A box: whether it is full, and whether the box below it (one layer down) is. */
  datatype BoxType = EmptyPrevEmpty | FullPrevEmpty | EmptyPrevFull | FullPrevFull

  predicate IsFull(b: BoxType) {
    b == FullPrevEmpty || b == FullPrevFull
  }

  predicate IsPrevFull(b: BoxType) {
    b == EmptyPrevFull || b == FullPrevFull
  }

  /** The box with the given two bits. */
  function Box(full: bool, prevFull: bool): (b: BoxType)
    ensures IsFull(b) == full && IsPrevFull(b) == prevFull
  {
    if full then (if prevFull then FullPrevFull else FullPrevEmpty)
    else (if prevFull then EmptyPrevFull else EmptyPrevEmpty)
  }

  /** A box is its two bits. */
  lemma BoxBits(b: BoxType)
    ensures Box(IsFull(b), IsPrevFull(b)) == b
  {
  }

  type Row = seq<BoxType>
  type Layer = seq<Row>

  datatype Object3dState = Object3dState(index: int, layers: seq<Layer>)

  /** A layer of OBJECT_3D_DIMS rows of OBJECT_3D_DIMS boxes. */
  predicate Square(l: Layer) {
    |l| == OBJECT_3D_DIMS && forall r :: 0 <= r < |l| ==> |l[r]| == OBJECT_3D_DIMS
  }

  /** The states the editor reaches: the index names a layer, and every layer is square. */
  predicate Valid(s: Object3dState) {
    0 <= s.index < |s.layers| && forall k :: 0 <= k < |s.layers| ==> Square(s.layers[k])
  }

  /** The state the editor starts in and `Reset` returns to: one layer, every box empty over empty. */
  function Initial(): (s: Object3dState)
    ensures Valid(s) && s.index == 0 && |s.layers| == 1
    ensures forall r, c :: 0 <= r < OBJECT_3D_DIMS && 0 <= c < OBJECT_3D_DIMS ==> s.layers[0][r][c] == EmptyPrevEmpty
  {
    Object3dState(0, [seq(OBJECT_3D_DIMS, _ => seq(OBJECT_3D_DIMS, _ => EmptyPrevEmpty))])
  }

  /** The box a click leaves: full and empty swapped, the bit about the box below kept. */
  function FlipBox(b: BoxType): (r: BoxType)
    ensures IsFull(r) == !IsFull(b) && IsPrevFull(r) == IsPrevFull(b)
  {
    match b
    case EmptyPrevEmpty => FullPrevEmpty
    case FullPrevEmpty => EmptyPrevEmpty
    case EmptyPrevFull => FullPrevFull
    case FullPrevFull => EmptyPrevFull
  }

  /**
   * `flip`: a click on box (x, y) of the current layer. Outside the grid
   * it is the same state; inside, that one box is flipped, in a copy of
   * the layer, and nothing else changes.
   */
  function Flip(s: Object3dState, x: int, y: int): (r: Object3dState)
    requires Valid(s)
    ensures Valid(r)
    ensures !(0 <= x < OBJECT_3D_DIMS && 0 <= y < OBJECT_3D_DIMS) ==> r == s
    ensures 0 <= x < OBJECT_3D_DIMS && 0 <= y < OBJECT_3D_DIMS ==>
      r.index == s.index && |r.layers| == |s.layers| &&
      r.layers[s.index][y][x] == FlipBox(s.layers[s.index][y][x]) &&
      forall k, row, col ::
        (0 <= k < |s.layers| && 0 <= row < OBJECT_3D_DIMS && 0 <= col < OBJECT_3D_DIMS && (k, row, col) != (s.index, y, x)) ==>
        r.layers[k][row][col] == s.layers[k][row][col]
  {
    if x < 0 || x >= OBJECT_3D_DIMS || y < 0 || y >= OBJECT_3D_DIMS then s
    else
      var copy := s.layers[s.index];
      var copy' := copy[y := copy[y][x := FlipBox(copy[y][x])]];
      Object3dState(s.index, s.layers[..s.index] + [copy'] + s.layers[s.index + 1..])
  }

  /** The box of a new layer above b: empty, over a full box exactly when b is full. */
  function NextEmptyBox(b: BoxType): (r: BoxType)
    ensures !IsFull(r) && (IsPrevFull(r) <==> IsFull(b))
  {
    match b
    case EmptyPrevEmpty => EmptyPrevEmpty
    case EmptyPrevFull => EmptyPrevEmpty
    case FullPrevEmpty => EmptyPrevFull
    case FullPrevFull => EmptyPrevFull
  }

  /** `getNextEmptyLayer`: the layer a new top gets, box by box over the old top. */
  function NextEmptyLayer(l: Layer): (r: Layer)
    ensures |r| == |l| && forall i :: 0 <= i < |l| ==> |r[i]| == |l[i]|
    ensures forall i, j :: 0 <= i < |l| && 0 <= j < |l[i]| ==>
      !IsFull(r[i][j]) && (IsPrevFull(r[i][j]) <==> IsFull(l[i][j]))
  {
    seq(|l|, i requires 0 <= i < |l| => seq(|l[i]|, j requires 0 <= j < |l[i]| => NextEmptyBox(l[i][j])))
  }

  /** `update`: a box keeps its own bit and takes the other from the box below. */
  function UpdateBox(b: BoxType, prev: BoxType): (r: BoxType)
    ensures IsFull(r) == IsFull(b) && (IsPrevFull(r) <==> IsFull(prev))
  {
    match prev
    case EmptyPrevEmpty | EmptyPrevFull => (if IsFull(b) then FullPrevEmpty else EmptyPrevEmpty)
    case FullPrevEmpty | FullPrevFull => (if IsFull(b) then FullPrevFull else EmptyPrevFull)
  }

  /** `updateRow`: the row zipped with the row below; a zip is as long as the shorter one. */
  function UpdateRow(row: Row, prev: Row): (r: Row)
    ensures |r| == if |prev| <= |row| then |prev| else |row|
    ensures forall j :: 0 <= j < |r| ==> r[j] == UpdateBox(row[j], prev[j])
  {
    seq(if |prev| <= |row| then |prev| else |row|, j requires 0 <= j < |prev| && j < |row| => UpdateBox(row[j], prev[j]))
  }

  /** `updateLayer`: the layer zipped row by row with the layer below. */
  function UpdateLayer(l: Layer, prev: Layer): (r: Layer)
    ensures |r| == if |prev| <= |l| then |prev| else |l|
    ensures forall i :: 0 <= i < |r| ==> r[i] == UpdateRow(l[i], prev[i])
  {
    seq(if |prev| <= |l| then |prev| else |l|, i requires 0 <= i < |prev| && i < |l| => UpdateRow(l[i], prev[i]))
  }

  /**
   * `updateLayers`, run on each move between layers: the layers up to the
   * current one verbatim, each higher layer updated against the one below
   * it, and a new empty top when the current layer is the top.
   */
  function UpdateLayers(s: Object3dState): seq<Layer>
    requires Valid(s)
  {
    var ls := s.layers;
    ls[..s.index + 1] +
    seq(|ls| - s.index - 1, j requires 0 <= j < |ls| - s.index - 1 => UpdateLayer(ls[s.index + 1 + j], ls[s.index + j])) +
    (if s.index + 1 == |ls| then [NextEmptyLayer(ls[|ls| - 1])] else [])
  }

  /**
   * The layers above box (r, c) of layer k - 1 agree with it: box (r, c)
   * of layer k says the box below is full exactly when it is.
   */
  predicate Agrees(ls: seq<Layer>, k: int)
    requires 0 < k < |ls| && Square(ls[k - 1]) && Square(ls[k])
  {
    forall r, c :: 0 <= r < OBJECT_3D_DIMS && 0 <= c < OBJECT_3D_DIMS ==> (IsPrevFull(ls[k][r][c]) <==> IsFull(ls[k - 1][r][c]))
  }

  /** Layer k after `updateLayers`: kept up to the current layer, updated against the layer below above it, new at the top. */
  lemma UpdateLayersAt(s: Object3dState, k: int)
    requires Valid(s)
    ensures |UpdateLayers(s)| == |s.layers| + (if s.index + 1 == |s.layers| then 1 else 0)
    ensures 0 <= k <= s.index ==> UpdateLayers(s)[k] == s.layers[k]
    ensures s.index < k < |s.layers| ==> UpdateLayers(s)[k] == UpdateLayer(s.layers[k], s.layers[k - 1])
    ensures s.index + 1 == |s.layers| == k ==> UpdateLayers(s)[k] == NextEmptyLayer(s.layers[k - 1])
  {
    var ls := UpdateLayers(s);
    var n, i := |s.layers|, s.index;
    var mid := seq(n - i - 1, j requires 0 <= j < n - i - 1 => UpdateLayer(s.layers[i + 1 + j], s.layers[i + j]));
    var top: seq<Layer> := if i + 1 == n then [NextEmptyLayer(s.layers[n - 1])] else [];
    assert ls == s.layers[..i + 1] + mid + top;
    if i < k < n {
      assert ls[k] == mid[k - i - 1];
    }
  }

  /** A layer updated against a square layer below it is square, keeps its full boxes and agrees with that layer. */
  lemma UpdateLayerAgrees(l: Layer, prev: Layer)
    requires Square(l) && Square(prev)
    ensures Square(UpdateLayer(l, prev))
    ensures forall r, c :: 0 <= r < OBJECT_3D_DIMS && 0 <= c < OBJECT_3D_DIMS ==>
      IsFull(UpdateLayer(l, prev)[r][c]) == IsFull(l[r][c]) &&
      (IsPrevFull(UpdateLayer(l, prev)[r][c]) <==> IsFull(prev[r][c]))
  {
  }

  /**
   * What `updateLayers` promises: the current layer and those below it
   * are kept, higher layers keep their full boxes, every layer above the
   * current one agrees with the layer below it, and a top is added exactly
   * when the current layer was the top.
   */
  lemma UpdateLayersMeaning(s: Object3dState)
    requires Valid(s)
    ensures var ls := UpdateLayers(s);
      |ls| == |s.layers| + (if s.index + 1 == |s.layers| then 1 else 0) &&
      (forall k :: 0 <= k < |ls| ==> Square(ls[k])) &&
      ls[..s.index + 1] == s.layers[..s.index + 1] &&
      (forall k, r, c :: s.index < k < |s.layers| && 0 <= r < OBJECT_3D_DIMS && 0 <= c < OBJECT_3D_DIMS ==>
        IsFull(ls[k][r][c]) == IsFull(s.layers[k][r][c])) &&
      (forall k, r, c :: |s.layers| <= k < |ls| && 0 <= r < OBJECT_3D_DIMS && 0 <= c < OBJECT_3D_DIMS ==>
        !IsFull(ls[k][r][c])) &&
      (forall k :: s.index < k < |ls| ==> Agrees(ls, k))
  {
    UpdateLayersShape(s);
    UpdateLayersAgree(s);
  }

  /** The layers after `updateLayers`: square, the same up to the current one, the same full boxes above it. */
  lemma UpdateLayersShape(s: Object3dState)
    requires Valid(s)
    ensures var ls := UpdateLayers(s);
      |ls| == |s.layers| + (if s.index + 1 == |s.layers| then 1 else 0) &&
      (forall k :: 0 <= k < |ls| ==> Square(ls[k])) &&
      ls[..s.index + 1] == s.layers[..s.index + 1] &&
      (forall k, r, c :: s.index < k < |s.layers| && 0 <= r < OBJECT_3D_DIMS && 0 <= c < OBJECT_3D_DIMS ==>
        IsFull(ls[k][r][c]) == IsFull(s.layers[k][r][c])) &&
      (forall k, r, c :: |s.layers| <= k < |ls| && 0 <= r < OBJECT_3D_DIMS && 0 <= c < OBJECT_3D_DIMS ==>
        !IsFull(ls[k][r][c]))
  {
    var ls := UpdateLayers(s);
    UpdateLayersAt(s, 0);
    forall k | 0 <= k < |ls|
      ensures Square(ls[k])
      ensures k <= s.index ==> ls[k] == s.layers[k]
      ensures s.index < k < |s.layers| ==> forall r, c :: 0 <= r < OBJECT_3D_DIMS && 0 <= c < OBJECT_3D_DIMS ==>
        IsFull(ls[k][r][c]) == IsFull(s.layers[k][r][c])
      ensures |s.layers| <= k ==> forall r, c :: 0 <= r < OBJECT_3D_DIMS && 0 <= c < OBJECT_3D_DIMS ==> !IsFull(ls[k][r][c])
    {
      UpdateLayersAt(s, k);
      if s.index < k < |s.layers| {
        UpdateLayerAgrees(s.layers[k], s.layers[k - 1]);
      }
    }
  }

  /** Every layer above the current one agrees with the layer below it after `updateLayers`. */
  lemma UpdateLayersAgree(s: Object3dState)
    requires Valid(s)
    ensures var ls := UpdateLayers(s);
      (forall k :: 0 <= k < |ls| ==> Square(ls[k])) &&
      forall k :: s.index < k < |ls| ==> Agrees(ls, k)
  {
    var ls := UpdateLayers(s);
    UpdateLayersShape(s);
    forall k | s.index < k < |ls|
      ensures Agrees(ls, k)
    {
      UpdateLayersAt(s, k);
      UpdateLayersAt(s, k - 1);
      if k < |s.layers| {
        UpdateLayerAgrees(s.layers[k], s.layers[k - 1]);
        if k - 1 > s.index {
          UpdateLayerAgrees(s.layers[k - 1], s.layers[k - 2]);
        }
      }
    }
  }

  /** `navLeft`: at the bottom layer the same state; otherwise one layer down, after updating the layers above. */
  function NavLeft(s: Object3dState): (r: Object3dState)
    requires Valid(s)
    ensures Valid(r)
    ensures s.index == 0 ==> r == s
    ensures s.index != 0 ==> r.index == s.index - 1 && r.layers == UpdateLayers(s)
  {
    UpdateLayersMeaning(s);
    if s.index == 0 then s else Object3dState(s.index - 1, UpdateLayers(s))
  }

  /** `navRight`: one layer up, after updating the layers above; a layer is added exactly when the current one was the top. */
  function NavRight(s: Object3dState): (r: Object3dState)
    requires Valid(s)
    ensures Valid(r)
    ensures r.index == s.index + 1 && r.layers == UpdateLayers(s)
    ensures |r.layers| == |s.layers| + (if s.index + 1 == |s.layers| then 1 else 0)
  {
    UpdateLayersMeaning(s);
    Object3dState(s.index + 1, UpdateLayers(s))
  }

  // ---------------------------------------------------------------------
  // The dump format
  // ---------------------------------------------------------------------

  const HEADER: string := "Dimensions: Width 40, Height 40"
  const ROW_INDENT: string := "    "

  /** One box in the dump: its mark and a space. */
  function BoxText(b: BoxType): string {
    if IsFull(b) then "X " else "- "
  }

  /** The boxes of a row, mark and space each. */
  function RowCells(row: Row): string {
    if |row| == 0 then "" else RowCells(row[..|row| - 1]) + BoxText(row[|row| - 1])
  }

  /** The line of a row: four spaces, then the boxes. */
  function RowLine(row: Row): string {
    ROW_INDENT + RowCells(row)
  }

  /** One line per row of a layer. */
  function RowsText(l: Layer): seq<string> {
    seq(|l|, r requires 0 <= r < |l| => RowLine(l[r]))
  }

  /** The lines of layer k: its header, then its rows. */
  function LayerText(k: int, l: Layer): seq<string> {
    ["Layer " + IntToString(k)] + RowsText(l)
  }

  /** The lines of the layers, each numbered by its place. */
  function LayersText(ls: seq<Layer>): seq<string> {
    if |ls| == 0 then [] else LayersText(ls[..|ls| - 1]) + LayerText(|ls| - 1, ls[|ls| - 1])
  }

  /** The lines `dump` writes: the header line, then every layer. */
  function DumpLines(ls: seq<Layer>): seq<string> {
    [HEADER] + LayersText(ls)
  }

  lemma RowCellsStep(row: Row, c: int)
    requires 0 <= c < |row|
    ensures RowCells(row[..c + 1]) == RowCells(row[..c]) + BoxText(row[c])
  {
    assert row[..c + 1][..c] == row[..c];
  }

  lemma LayersTextStep(ls: seq<Layer>, k: int)
    requires 0 <= k < |ls|
    ensures LayersText(ls[..k + 1]) == LayersText(ls[..k]) + LayerText(k, ls[k])
  {
    assert ls[..k + 1][..k] == ls[..k];
  }

  lemma RowsStep(l: Layer, r: int)
    requires 0 <= r < |l|
    ensures RowsText(l[..r + 1]) == RowsText(l[..r]) + [RowLine(l[r])]
  {
  }

  /** The inner loop of `dump`: four spaces, then each box's mark and a space. */
  method DumpRow(row: Row) returns (line: string)
    ensures line == RowLine(row)
  {
    line := ROW_INDENT;
    var c := 0;
    while c < |row|
      invariant 0 <= c <= |row|
      invariant line == ROW_INDENT + RowCells(row[..c])
    {
      RowCellsStep(row, c);
      line := line + (if IsFull(row[c]) then "X" else "-");
      line := line + " ";
      c := c + 1;
    }
    assert row[..c] == row;
  }

  /**
   * `dump`: the header, then for each layer its "Layer i" line and one
   * line per row, each written box by box. The file is the sequence of
   * lines written.
   */
  method Dump(s: Object3dState) returns (lines: seq<string>)
    ensures lines == DumpLines(s.layers)
  {
    lines := [HEADER];
    var i := 0;
    while i < |s.layers|
      invariant 0 <= i <= |s.layers|
      invariant lines == [HEADER] + LayersText(s.layers[..i])
    {
      var layer := s.layers[i];
      ghost var before := lines;
      lines := lines + ["Layer " + IntToString(i)];
      var r := 0;
      while r < |layer|
        invariant 0 <= r <= |layer|
        invariant lines == before + ["Layer " + IntToString(i)] + RowsText(layer[..r])
      {
        var line := DumpRow(layer[r]);
        RowsStep(layer, r);
        lines := lines + [line];
        r := r + 1;
      }
      assert layer[..r] == layer;
      LayersTextStep(s.layers, i);
      i := i + 1;
    }
    assert s.layers[..i] == s.layers;
  }
}
