/**
 * A multi-dimensional byte array stored row-major in one flat array, and
 * its three-dimensional specialisation.
 */
module ByteArrays {
  import opened KotlinInt
  import opened Outcomes

  /** The product of the first n dimensions. */
  function Product(dims: seq<int>, n: nat): int
    requires n <= |dims|
  {
    if n == 0 then 1 else Product(dims, n - 1) * dims[n - 1]
  }

  /** `dimensions.reduce { a, b -> a * b }` for n > 0: the product of the first n dimensions in `Int` arithmetic. */
  function ReducedProduct(dims: seq<int>, n: nat): Int32
    requires n <= |dims|
  {
    if n == 0 then 1 else Wrap(ReducedProduct(dims, n - 1) * dims[n - 1])
  }

  /** The `Int` fold of the product is the exact product, wrapped once. */
  lemma {:induction false} ReducedProductWraps(dims: seq<int>, n: nat)
    requires n <= |dims|
    ensures ReducedProduct(dims, n) == Wrap(Product(dims, n))
  {
    if n > 0 {
      ReducedProductWraps(dims, n - 1);
      WrapThenMul(Product(dims, n - 1), dims[n - 1]);
    }
  }

  /**
   * The constructor's check: at least one dimension (`reduce` throws on
   * none), an `Int` product that is not negative (the allocation throws
   * on a negative size), and every dimension positive (the explicit check
   * in `init`). Every rejection is `IllegalArgument`, although the source
   * throws a different exception in each of the three cases.
   */
  function CheckDimensions(dims: seq<int>): (r: Outcome)
    ensures r.Pass? <==>
      |dims| > 0 && (forall i :: 0 <= i < |dims| ==> dims[i] > 0) && Wrap(Product(dims, |dims|)) >= 0
  {
    ReducedProductWraps(dims, |dims|);
    if |dims| == 0 then Fail(IllegalArgument)
    else if ReducedProduct(dims, |dims|) < 0 then Fail(IllegalArgument)
    else if exists i :: 0 <= i < |dims| && dims[i] <= 0 then Fail(IllegalArgument)
    else Pass
  }

  /** Two positive dimensions whose product wraps to a negative `Int` are rejected. */
  lemma OverflowingProductRejected()
    ensures Wrap(Product([46341, 46341], 2)) == -2147479015
    ensures CheckDimensions([46341, 46341]).Fail?
  {
    assert Product([46341, 46341], 2) == 46341 * 46341;
    WrapUnique(46341 * 46341, -2147479015, 1);
  }

  /** Every index names a cell along its dimension. */
  predicate InBounds(dims: seq<int>, indices: seq<int>) {
    |indices| == |dims| && forall i :: 0 <= i < |indices| ==> 0 <= indices[i] < dims[i]
  }

  /** The flat position of the first n indices: each index scales everything before it. */
  function RawIndex(dims: seq<int>, indices: seq<int>, n: nat): int
    requires n <= |dims| && n <= |indices|
  {
    if n == 0 then 0 else RawIndex(dims, indices, n - 1) * dims[n - 1] + indices[n - 1]
  }

  lemma {:induction false} ProductPositive(dims: seq<int>, n: nat)
    requires n <= |dims|
    requires forall i :: 0 <= i < n ==> dims[i] > 0
    ensures Product(dims, n) >= 1
  {
    if n > 0 {
      ProductPositive(dims, n - 1);
    }
  }

  /** A longer prefix of positive dimensions never has a smaller product. */
  lemma {:induction false} ProductMonotone(dims: seq<int>, m: nat, n: nat)
    requires m <= n <= |dims|
    requires forall i :: 0 <= i < n ==> dims[i] > 0
    ensures Product(dims, m) <= Product(dims, n)
  {
    if m < n {
      ProductMonotone(dims, m, n - 1);
      ProductPositive(dims, n - 1);
      assert Product(dims, n - 1) * dims[n - 1] >= Product(dims, n - 1);
    }
  }

  /** In-bounds indices address a cell of the flat array. */
  lemma {:induction false} RawIndexBounds(dims: seq<int>, indices: seq<int>, n: nat)
    requires n <= |dims| && InBounds(dims, indices)
    ensures 0 <= RawIndex(dims, indices, n) < Product(dims, n)
  {
    if n > 0 {
      RawIndexBounds(dims, indices, n - 1);
      var r, p, d := RawIndex(dims, indices, n - 1), Product(dims, n - 1), dims[n - 1];
      StepBelow(r, p, d);
      MulNonNegative(r, d);
    }
  }

  /** A number written as q*d + j with 0 <= j < d has only one such (q, j). */
  lemma DigitUnique(q1: int, j1: int, q2: int, j2: int, d: int)
    requires 0 <= j1 < d && 0 <= j2 < d
    requires q1 * d + j1 == q2 * d + j2
    ensures q1 == q2 && j1 == j2
  {
    StepBelow(q1, q2, d);
    StepBelow(q2, q1, d);
  }

  lemma MulNonNegative(a: int, b: int)
    requires a >= 0 && b >= 0
    ensures a * b >= 0
  {
  }

  lemma StepBelow(a: int, b: int, d: int)
    ensures a < b && d > 0 ==> a * d + d <= b * d
  {
    if a < b && d > 0 {
      var k := b - a - 1;
      assert b * d == a * d + d + k * d;
      assert k * d >= 0;
    }
  }

  /** Distinct in-bounds index tuples address distinct cells. */
  lemma {:induction false} RawIndexInjective(dims: seq<int>, i1: seq<int>, i2: seq<int>, n: nat)
    requires n <= |dims| && InBounds(dims, i1) && InBounds(dims, i2)
    requires RawIndex(dims, i1, n) == RawIndex(dims, i2, n)
    ensures i1[..n] == i2[..n]
  {
    if n > 0 {
      DigitUnique(RawIndex(dims, i1, n - 1), i1[n - 1], RawIndex(dims, i2, n - 1), i2[n - 1], dims[n - 1]);
      RawIndexInjective(dims, i1, i2, n - 1);
      assert i1[..n] == i1[..n - 1] + [i1[n - 1]];
      assert i2[..n] == i2[..n - 1] + [i2[n - 1]];
    }
  }

  /** What `read` leaves in an array: the stream's bytes, over the old contents when the stream is short. */
  function ReadFill(old_: seq<Byte>, stream: seq<Byte>): (r: seq<Byte>)
    ensures |r| == |old_|
    ensures |stream| >= |old_| ==> r == stream[..|old_|]
    ensures forall i :: 0 <= i < |old_| ==> r[i] == if i < |stream| then stream[i] else old_[i]
  {
    if |stream| >= |old_| then stream[..|old_|] else stream + old_[|stream|..]
  }

  /** Writing an array's bytes and reading them back restores the array, whatever follows in the stream. */
  lemma WriteThenRead(contents: seq<Byte>, tail: seq<Byte>)
    ensures ReadFill(contents, contents + tail) == contents
  {
  }

  class DimensionalByteArray {
    const dimensions: seq<Int32>
    const cells: array<Byte>

    ghost predicate Valid() {
      CheckDimensions(dimensions).Pass? && cells.Length == Product(dimensions, |dimensions|) &&
      cells.Length <= INT_MAX
    }

    /** The object exists only for dimensions the constructor accepts; it starts filled with `initialValue`. */
    constructor (dimensions: seq<Int32>, initialValue: Byte)
      requires CheckDimensions(dimensions).Pass?
      requires Product(dimensions, |dimensions|) <= INT_MAX
      ensures Valid() && this.dimensions == dimensions && fresh(cells)
      ensures forall i :: 0 <= i < cells.Length ==> cells[i] == initialValue
    {
      ProductPositive(dimensions, |dimensions|);
      var a := new Byte[Product(dimensions, |dimensions|)];
      var i := 0;
      while i < a.Length
        invariant 0 <= i <= a.Length
        invariant forall j :: 0 <= j < i ==> a[j] == initialValue
      {
        a[i] := initialValue;
        i := i + 1;
      }
      this.dimensions := dimensions;
      cells := a;
    }

    /** `size()`: the number of cells, the product of the dimensions. */
    function Size(): (n: int)
      requires Valid()
      ensures n == Product(dimensions, |dimensions|) && n >= 1
    {
      ProductPositive(dimensions, |dimensions|);
      cells.Length
    }

    /** `getRawIndex`: the loop accumulating the row-major flat index, which never overflows an Int. */
    method GetRawIndex(indices: seq<Int32>) returns (index: Int32)
      requires Valid() && InBounds(dimensions, indices)
      ensures index == RawIndex(dimensions, indices, |indices|)
      ensures 0 <= index < cells.Length
    {
      ProductMonotone(dimensions, 0, |dimensions|);
      index := 0;
      var i := 0;
      while i < |indices|
        invariant 0 <= i <= |indices|
        invariant index == RawIndex(dimensions, indices, i)
      {
        RawIndexBounds(dimensions, indices, i + 1);
        ProductMonotone(dimensions, i + 1, |dimensions|);
        var next := index * dimensions[i] + indices[i];
        assert next == RawIndex(dimensions, indices, i + 1);
        index := next;
        i := i + 1;
      }
      RawIndexBounds(dimensions, indices, |indices|);
    }

    method Get(indices: seq<Int32>) returns (v: Byte)
      requires Valid() && InBounds(dimensions, indices)
      ensures 0 <= RawIndex(dimensions, indices, |indices|) < cells.Length
      ensures v == cells[RawIndex(dimensions, indices, |indices|)]
    {
      var rawIndex := GetRawIndex(indices);
      v := cells[rawIndex];
    }

    /** Stores `value` at the cell; reports whether the stored byte differed. */
    method Set(indices: seq<Int32>, value: Byte) returns (changed: bool)
      requires Valid() && InBounds(dimensions, indices)
      modifies cells
      ensures 0 <= RawIndex(dimensions, indices, |indices|) < cells.Length
      ensures changed <==> old(cells[RawIndex(dimensions, indices, |indices|)]) != value
      ensures cells[..] == old(cells[..])[RawIndex(dimensions, indices, |indices|) := value]
    {
      var rawIndex := GetRawIndex(indices);
      var current := cells[rawIndex];
      if current == value {
        assert cells[..] == cells[..][rawIndex := value];
        return false;
      }
      cells[rawIndex] := value;
      return true;
    }

    method Iterator() returns (it: ByteArrayIterator)
      ensures fresh(it) && it.cells == cells && it.index == 0
    {
      it := new ByteArrayIterator(cells);
    }

    /**
     * `read`: fills the cells from the front of the stream (`readNBytes`)
     * and fails when the stream held fewer bytes than the array.
     */
    method Read(stream: seq<Byte>) returns (r: Outcome, rest: seq<Byte>)
      requires Valid()
      modifies cells
      ensures cells[..] == ReadFill(old(cells[..]), stream)
      ensures r.Pass? <==> |stream| >= cells.Length
      ensures r.Fail? ==> r.error == ShortStream
      ensures rest == if r.Pass? then stream[cells.Length..] else []
    {
      var n := if |stream| < cells.Length then |stream| else cells.Length;
      var i := 0;
      while i < n
        invariant 0 <= i <= n
        invariant forall j :: 0 <= j < i ==> cells[j] == stream[j]
        invariant forall j :: i <= j < cells.Length ==> cells[j] == old(cells[j])
      {
        cells[i] := stream[i];
        i := i + 1;
      }
      if n != cells.Length {
        return Fail(ShortStream), [];
      }
      return Pass, stream[n..];
    }

    /** `write`: the array's bytes, verbatim. */
    method Write() returns (out: seq<Byte>)
      ensures out == cells[..]
    {
      out := cells[..];
    }
  }

  /** The iterator over a byte array: yields the cells in flat-index order. */
  class ByteArrayIterator {
    const cells: array<Byte>
    var index: nat

    constructor (cells: array<Byte>)
      ensures this.cells == cells && index == 0
    {
      this.cells := cells;
      index := 0;
    }

    method HasNext() returns (b: bool)
      ensures b <==> index < cells.Length
    {
      b := index < cells.Length;
    }

    method Next() returns (r: Result<Byte>)
      modifies this
      ensures old(index) < cells.Length ==> r == Ok(cells[old(index)]) && index == old(index) + 1
      ensures old(index) >= cells.Length ==> r == Err(NoSuchElement) && index == old(index)
    {
      if index >= cells.Length {
        return Err(NoSuchElement);
      }
      r := Ok(cells[index]);
      index := index + 1;
    }
  }

  /** The flat index of (a, b, c) in an A×B×C array. */
  lemma RawIndex3(dims: seq<int>, indices: seq<int>)
    requires |dims| == 3 && |indices| == 3
    ensures RawIndex(dims, indices, 3) == (indices[0] * dims[1] + indices[1]) * dims[2] + indices[2]
  {
    assert RawIndex(dims, indices, 1) == indices[0];
  }

  /** A `DimensionalByteArray` with exactly three dimensions. */
  class ByteVec3 {
    const base: DimensionalByteArray

    ghost predicate Valid() {
      base.Valid() && |base.dimensions| == 3
    }

    constructor (a: Int32, b: Int32, c: Int32, initialValue: Byte)
      requires CheckDimensions([a, b, c]).Pass? && a * b * c <= INT_MAX
      ensures Valid() && base.dimensions == [a, b, c] && fresh(base) && fresh(base.cells)
      ensures base.cells.Length == a * b * c
      ensures forall i :: 0 <= i < base.cells.Length ==> base.cells[i] == initialValue
    {
      assert Product([a, b, c], 1) == a;
      assert Product([a, b, c], 3) == a * b * c;
      base := new DimensionalByteArray([a, b, c], initialValue);
    }

    method Get(a: Int32, b: Int32, c: Int32) returns (v: Byte)
      requires Valid() && InBounds(base.dimensions, [a, b, c])
      ensures 0 <= RawIndex(base.dimensions, [a, b, c], 3) < base.cells.Length
      ensures v == base.cells[RawIndex(base.dimensions, [a, b, c], 3)]
    {
      v := base.Get([a, b, c]);
    }

    method Set(a: Int32, b: Int32, c: Int32, value: Byte) returns (changed: bool)
      requires Valid() && InBounds(base.dimensions, [a, b, c])
      modifies base.cells
      ensures 0 <= RawIndex(base.dimensions, [a, b, c], 3) < base.cells.Length
      ensures changed <==> old(base.cells[RawIndex(base.dimensions, [a, b, c], 3)]) != value
      ensures base.cells[..] == old(base.cells[..])[RawIndex(base.dimensions, [a, b, c], 3) := value]
    {
      changed := base.Set([a, b, c], value);
    }
  }
}
