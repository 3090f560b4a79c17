/** Go's numeric conventions that the model needs to write out explicitly:
    the `byte` type, the wrapping `byte(v)` / `uint8(v)` conversion, the
    truncating `int(f)` conversion of a float, truncating integer division, and
    the bit operations `&` and `<<` on non-negative integers. */
module GoNum {

  /** Go's `byte` (alias of `uint8`). */
  newtype byte = x: int | 0 <= x < 256

  function Min(a: int, b: int): int { if a <= b then a else b }

  function Max(a: int, b: int): int { if a >= b then a else b }

  /** Go's `byte(v)` / `uint8(v)` on an `int`: keeps the low eight bits. */
  function ByteOf(v: int): (b: byte)
    ensures 0 <= v < 256 ==> b as int == v
    ensures (b as int - v) % 256 == 0
  {
    (v % 256) as byte
  }

  /** Go's `int(f)` on a float: truncation toward zero. */
  function Trunc(f: real): (n: int)
    ensures 0.0 <= f ==> n as real <= f < n as real + 1.0
    ensures f < 0.0 ==> n as real - 1.0 < f <= n as real
  {
    if f >= 0.0 then f.Floor else -((-f).Floor)
  }

  /** Go's `a / b` on `int`: the quotient truncated toward zero. */
  function Quot(a: int, b: int): (q: int)
    requires b > 0
    ensures 0 <= a ==> q * b <= a < q * b + b
    ensures a < 0 ==> q * b - b < a <= q * b
  {
    if a >= 0 then a / b else -((-a) / b)
  }

  /** Go's `1 << n`. */
  function Pow2(n: nat): (p: nat)
    ensures p >= 1
  {
    if n == 0 then 1 else 2 * Pow2(n - 1)
  }

  /** Go's `a & b` on non-negative integers, one bit at a time from the lowest. */
  function And(a: nat, b: nat): nat
  {
    if a == 0 || b == 0 then 0
    else 2 * And(a / 2, b / 2) + (if a % 2 == 1 && b % 2 == 1 then 1 else 0)
  }

  /** Binary digit x of `a`. */
  predicate Bit(a: nat, x: nat)
  {
    if x == 0 then a % 2 == 1 else Bit(a / 2, x - 1)
  }

  /** Zero has no bit set. */
  lemma {:induction false} ZeroBits(x: nat)
    ensures !Bit(0, x)
  {
    if x > 0 {
      ZeroBits(x - 1);
    }
  }

  /** Masking with `1 << x` tests binary digit x: `a & (1 << x) != 0` exactly when bit x of `a` is set. */
  lemma {:induction false} AndBit(a: nat, x: nat)
    ensures And(a, Pow2(x)) != 0 <==> Bit(a, x)
  {
    if x > 0 {
      assert Pow2(x) / 2 == Pow2(x - 1) && Pow2(x) % 2 == 0;
      AndBit(a / 2, x - 1);
      if a == 0 {
        ZeroBits(x);
      }
    }
  }
}
