/**
 * Fixed-width machine integers used by the two example systems: the signed
 * byte `i8` that the binary clock's state is, and the unsigned byte `u8` of
 * the linear-equation solver, together with `u8` arithmetic that wraps
 * around modulo 256 (Rust's `wrapping_add` and the `+` and `*` of
 * `Wrapping<u8>`).
 */
module Integers {

  /** Rust's `i8`. */
  newtype I8 = x: int | -128 <= x < 128

  /** Rust's `u8`. */
  newtype U8 = x: int | 0 <= x < 256

  /** Number of distinct `u8` values; all `u8` arithmetic is modulo this. */
  const U8Modulus: int := 256

  /** Truncates an unbounded integer to its low eight bits. */
  function Wrap(n: int): (r: U8)
    ensures 0 <= n < U8Modulus ==> r as int == n
    ensures 0 <= n ==> r as int <= n
  {
    (n % U8Modulus) as U8
  }

  /** `a.wrapping_add(b)`: the sum, minus 256 when it overflows. */
  function WrappingAdd(a: U8, b: U8): (r: U8)
    ensures a as int + b as int < U8Modulus ==> r as int == a as int + b as int
    ensures a as int + b as int >= U8Modulus ==> r as int == a as int + b as int - U8Modulus
    ensures r == b || a != 0
  {
    Wrap(a as int + b as int)
  }

  /** `a.wrapping_mul(b)`: the product, reduced modulo 256. */
  function WrappingMul(a: U8, b: U8): (r: U8)
    ensures a as int * b as int < U8Modulus ==> r as int == a as int * b as int
    ensures (a as int * b as int - r as int) % U8Modulus == 0
    ensures a == 1 ==> r == b
  {
    Wrap(a as int * b as int)
  }

  /** Adding a multiple of 256 does not change the low eight bits. */
  lemma {:induction false} WrapShift(n: int, k: nat)
    ensures Wrap(n + U8Modulus * k) == Wrap(n)
    decreases k
  {
    if k > 0 {
      WrapShift(n, k - 1);
      assert n + U8Modulus * k == (n + U8Modulus * (k - 1)) + U8Modulus;
    }
  }

  /** Wrapping a summand first does not change the wrapped sum. */
  lemma WrapOfWrappedSummand(u: nat, v: nat)
    ensures Wrap(Wrap(u) as int + v) == Wrap(u + v)
  {
    var q := u / U8Modulus;
    assert u == Wrap(u) as int + U8Modulus * q;
    WrapShift(Wrap(u) as int + v, q);
  }

  /** Wrapping each summand first and then the sum gives the wrapped sum. */
  lemma WrapOfWrappedSum(u: nat, v: nat)
    ensures Wrap(Wrap(u) as int + Wrap(v) as int) == Wrap(u + v)
  {
    WrapOfWrappedSummand(u, Wrap(v) as int);
    WrapOfWrappedSummand(v, u);
  }

  /** `(a * x + b * y)` in wrapping `u8` arithmetic is the exact value reduced modulo 256. */
  lemma WrappingLinear(a: U8, x: U8, b: U8, y: U8)
    ensures WrappingAdd(WrappingMul(a, x), WrappingMul(b, y)) as int
            == (a as int * x as int + b as int * y as int) % U8Modulus
  {
    var p, q := a as int * x as int, b as int * y as int;
    assert WrappingMul(a, x) == Wrap(p) && WrappingMul(b, y) == Wrap(q);
    WrapOfWrappedSum(p, q);
  }
}
