/**
 * Kotlin's 32-bit `Int` and signed 8-bit `Byte`, and the integer operators
 * whose semantics differ from Dafny's unbounded `int`.
 */
module KotlinInt {
  const INT_MIN: int := -0x8000_0000
  const INT_MAX: int := 0x7fff_ffff

  /** A value of Kotlin type `Int`. */
  type Int32 = x: int | -0x8000_0000 <= x <= 0x7fff_ffff

  /** A value of Kotlin type `Byte` (signed). */
  type Byte = x: int | -128 <= x <= 127

  predicate InIntRange(x: int) {
    INT_MIN <= x <= INT_MAX
  }

  /** Two's-complement wrap-around of the exact result of an `Int` operation. */
  function Wrap(x: int): (r: Int32)
    ensures InIntRange(x) ==> r == x
  {
    (x + 0x8000_0000) % 0x1_0000_0000 - 0x8000_0000
  }

  /** Kotlin `a / d` for a positive divisor: the quotient truncated toward zero. */
  function Quot(a: int, d: int): (q: int)
    requires d > 0
    ensures a >= 0 ==> q * d <= a < q * d + d
    ensures a < 0 ==> q * d - d < a <= q * d
  {
    if a >= 0 then a / d else -((-a) / d)
  }

  /** The `Int` that differs from x by whole turns of 2^32 is x's wrap-around. */
  lemma WrapUnique(x: int, r: int, m: int)
    requires InIntRange(r) && x == r + m * 0x1_0000_0000
    ensures Wrap(x) == r
  {
    var a := x + 0x8000_0000;
    assert a == (a / 0x1_0000_0000) * 0x1_0000_0000 + a % 0x1_0000_0000;
    assert a / 0x1_0000_0000 == m;
  }

  /** Wrapping after each step of a sum is wrapping once at the end. */
  lemma WrapThenAdd(x: int, k: int)
    ensures Wrap(Wrap(x) + k) == Wrap(x + k)
  {
    var a, b := x + 0x8000_0000, x + k + 0x8000_0000;
    assert a == (a / 0x1_0000_0000) * 0x1_0000_0000 + a % 0x1_0000_0000;
    assert b == (b / 0x1_0000_0000) * 0x1_0000_0000 + b % 0x1_0000_0000;
    WrapUnique(Wrap(x) + k, Wrap(x + k), b / 0x1_0000_0000 - a / 0x1_0000_0000);
  }

  /** Wrapping after each factor of a product is wrapping once at the end. */
  lemma WrapThenMul(x: int, k: int)
    ensures Wrap(Wrap(x) * k) == Wrap(x * k)
  {
    var a := x + 0x8000_0000;
    var m := a / 0x1_0000_0000;
    assert a == m * 0x1_0000_0000 + a % 0x1_0000_0000;
    assert Wrap(x) == x - m * 0x1_0000_0000;
    assert Wrap(x) * k == x * k - (m * k) * 0x1_0000_0000;
    var b := x * k + 0x8000_0000;
    assert b == (b / 0x1_0000_0000) * 0x1_0000_0000 + b % 0x1_0000_0000;
    assert x * k == Wrap(x * k) + (b / 0x1_0000_0000) * 0x1_0000_0000;
    WrapUnique(Wrap(x) * k, Wrap(x * k), b / 0x1_0000_0000 - m * k);
  }

  /** Negating a wrapped value and wrapping is negating and wrapping once. */
  lemma WrapThenNegate(x: int)
    ensures Wrap(-(Wrap(x) as int)) == Wrap(-x)
  {
    var a, b := x + 0x8000_0000, -x + 0x8000_0000;
    assert a == (a / 0x1_0000_0000) * 0x1_0000_0000 + a % 0x1_0000_0000;
    assert b == (b / 0x1_0000_0000) * 0x1_0000_0000 + b % 0x1_0000_0000;
    WrapUnique(-(Wrap(x) as int), Wrap(-x), b / 0x1_0000_0000 + a / 0x1_0000_0000);
  }

  // `Int` operations at places where the code relies on the exact result
  // fitting: each precondition is the proof obligation that no wrap-around
  // happens there.

  function Add(a: Int32, b: Int32): Int32
    requires InIntRange(a + b)
  {
    a + b
  }

  function Sub(a: Int32, b: Int32): Int32
    requires InIntRange(a - b)
  {
    a - b
  }

  function Mul(a: Int32, b: Int32): Int32
    requires InIntRange(a * b)
  {
    a * b
  }

  function Div(a: Int32, d: Int32): Int32
    requires d > 0
  {
    Quot(a, d)
  }

  /** Kotlin's `minOf` / `maxOf` on `Int`. */
  function Min(a: int, b: int): int { if a <= b then a else b }
  function Max(a: int, b: int): int { if a >= b then a else b }
}
