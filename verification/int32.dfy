/**
 * Rust's `i32` and the two pieces of its arithmetic the calculator depends on:
 * two's-complement wrap-around (what `+`, `-` and `*` do in a release build)
 * and division that truncates toward zero (what `/` does in every build).
 */
module Int32 {

  const MIN: int := -0x8000_0000
  const MAX: int := 0x7fff_ffff
  const MODULUS: int := 0x1_0000_0000

  newtype i32 = x: int | -0x8000_0000 <= x < 0x8000_0000

  predicate InRange(x: int) {
    MIN <= x <= MAX
  }

  function Abs(x: int): nat {
    if x < 0 then -x else x
  }

  /** The two's-complement reading of the low 32 bits of `x`. */
  function Wrap(x: int): (r: i32)
    ensures (x - r as int) % MODULUS == 0
    ensures InRange(x) ==> r as int == x
  {
    var m := x % MODULUS;
    if m <= MAX then m as i32 else (m - MODULUS) as i32
  }

  /** Rust's integer `/`: the quotient rounded toward zero. */
  function TruncDiv(a: int, b: int): int
    requires b != 0
  {
    var q := Abs(a) / Abs(b);
    if (a < 0) == (b < 0) then q else -q
  }

  /**
   * The remainder left by `TruncDiv` is smaller than the divisor and takes the
   * sign of the dividend (Rust's `%`), which is what rounding toward zero means;
   * and the quotient is never larger in magnitude than the dividend.
   */
  lemma TruncDivSpec(a: int, b: int)
    requires b != 0
    ensures Abs(a - TruncDiv(a, b) * b) < Abs(b)
    ensures a - TruncDiv(a, b) * b == 0 || (a - TruncDiv(a, b) * b < 0) == (a < 0)
    ensures Abs(TruncDiv(a, b)) <= Abs(a)
  {
    var q0, m := Abs(a) / Abs(b), Abs(a) % Abs(b);
    NatDivMod(Abs(a), Abs(b));
    var q := TruncDiv(a, b);
    var p := q0 * Abs(b);
    TruncDivProduct(a, b);
    TruncDivAbs(a, b);
    assert Abs(a) == p + m;
  }

  /** The magnitude of the truncated quotient is the quotient of the magnitudes. */
  lemma TruncDivAbs(a: int, b: int)
    requires b != 0
    ensures Abs(TruncDiv(a, b)) == Abs(a) / Abs(b)
  {
  }

  /** The product of the truncated quotient and the divisor, with the sign of the dividend. */
  lemma TruncDivProduct(a: int, b: int)
    requires b != 0
    ensures TruncDiv(a, b) * b == (if a < 0 then -((Abs(a) / Abs(b)) * Abs(b)) else (Abs(a) / Abs(b)) * Abs(b))
  {
    var q0 := Abs(a) / Abs(b);
    SignedProduct(q0, b);
  }

  lemma NatDivMod(x: nat, y: nat)
    requires y > 0
    ensures x == (x / y) * y + x % y && 0 <= x % y < y
    ensures x / y <= x
  {
    var q := x / y;
    assert q * y >= q * 1 by {
      MulMonotone(q, 1, y);
    }
  }

  lemma MulMonotone(q: nat, y: nat, z: nat)
    requires y <= z
    ensures q * y <= q * z
  {
  }

  lemma SignedProduct(q: int, b: int)
    ensures q * b == (if b < 0 then -(q * Abs(b)) else q * Abs(b))
    ensures -q * b == -(q * b)
  {
  }

  /** The only quotient of two `i32` values that leaves the `i32` range is `MIN / -1`. */
  lemma TruncDivRange(a: int, b: int)
    requires InRange(a) && InRange(b) && b != 0
    ensures InRange(TruncDiv(a, b)) <==> !(a == MIN && b == -1)
  {
    TruncDivSpec(a, b);
    if b == -1 {
      assert TruncDiv(a, b) == -a;
    }
  }

  /**
   * Truncation differs from Dafny's Euclidean `/` when the dividend is negative
   * and the division is inexact; with a positive dividend the two agree.
   */
  lemma TruncDivIsNotEuclidean()
    ensures TruncDiv(-7, 2) == -3 && -7 / 2 == -4
    ensures TruncDiv(7, -2) == -3 && 7 / -2 == -3
    ensures TruncDiv(-7, -2) == 3 && -7 / -2 == 4
  {
  }
}
