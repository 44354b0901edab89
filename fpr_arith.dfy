/*
 * 17.14 fixed-point reals (threads/fpr_arith.h).
 *
 * An FPReal is a signed 32-bit int whose low FRACBITS = 14 bits hold the
 * fractional part, following section B.6 of the Pintos documentation.
 * Every operation of the header is one C expression; each is modelled here
 * as a function over unbounded integers with the preconditions that keep
 * the C expression free of overflow.
 *
 * Two C operators need care:
 *  - `x >> 14` on a signed value is an arithmetic shift, that is floor
 *    division by 2^14 (Dafny's `/` by a positive constant does exactly that);
 *  - `a / b` truncates toward zero, which is CDiv below, not Dafny's `/`.
 * `i << 14` is taken as `i * 2^14` (what GCC does for signed operands), with
 * a precondition that the product fits the destination type.
 */
module FprArith {

  /** Number of bits of the fractional part (FRACBITS). */
  const FracBits: nat := 14

  /** 1 << FRACBITS: the FPReal that stands for the integer 1. */
  const One: int := 16384

  /** The range of a C `int` (32 bits, two's complement). */
  predicate InInt32(x: int) {
    -0x8000_0000 <= x < 0x8000_0000
  }

  type Int32 = x: int | -0x8000_0000 <= x < 0x8000_0000

  /** FPReal is a plain `int` (fpr_arith.h, typedef int FPReal). */
  type FPReal = Int32

  function Abs(x: int): nat {
    if x < 0 then -x else x
  }

  /**
   * C's integer division: the quotient with its fractional part discarded,
   * so that (a / b) * b + a % b == a, |a % b| < |b| and the remainder takes
   * the sign of the dividend.
   */
  function CDiv(a: int, b: int): (q: int)
    requires b != 0
    ensures Abs(a - q * b) < Abs(b)
    ensures a - q * b == 0 || (a - q * b < 0 <==> a < 0)
  {
    if a >= 0 then
      (if b > 0 then a / b else -(a / -b))
    else
      (if b > 0 then -(-a / b) else -a / -b)
  }

  /** The two properties in CDiv's contract determine the quotient. */
  lemma CDivUnique(a: int, b: int, q: int)
    requires b != 0
    requires Abs(a - q * b) < Abs(b)
    requires a - q * b == 0 || (a - q * b < 0 <==> a < 0)
    ensures q == CDiv(a, b)
  {
    QuotientsAgree(a, b, q, CDiv(a, b));
  }

  /** Two quotients whose remainders both meet CDiv's contract are equal. */
  lemma QuotientsAgree(a: int, b: int, q: int, p: int)
    requires b != 0
    requires Abs(a - q * b) < Abs(b) && (a - q * b == 0 || (a - q * b < 0 <==> a < 0))
    requires Abs(a - p * b) < Abs(b) && (a - p * b == 0 || (a - p * b < 0 <==> a < 0))
    ensures q == p
  {
    RemaindersClose(a, b, a - q * b, a - p * b);
    assert (a - q * b) - (a - p * b) == (p - q) * b;
    SmallMultipleIsZero(p - q, b);
  }

  /** Two remainders on the side of 0 that a lies on, both strictly within |b|, differ by less than |b|. */
  lemma RemaindersClose(a: int, b: int, r: int, s: int)
    requires Abs(r) < Abs(b) && (r == 0 || (r < 0 <==> a < 0))
    requires Abs(s) < Abs(b) && (s == 0 || (s < 0 <==> a < 0))
    ensures Abs(r - s) < Abs(b)
  {
    if a >= 0 {
      assert 0 <= r && 0 <= s;
    } else {
      assert r <= 0 && s <= 0;
    }
  }

  /** A multiple of b smaller than |b| is the zero multiple. */
  lemma SmallMultipleIsZero(k: int, b: int)
    requires b != 0 && Abs(k * b) < Abs(b)
    ensures k == 0
  {
    if k != 0 {
      MultipleAtLeast(k, b);
    }
  }

  lemma MultipleAtLeast(k: int, b: int)
    requires k != 0 && b != 0
    ensures Abs(k * b) >= Abs(b)
  {
    if k > 0 {
      if b > 0 { assert k * b >= b; } else { assert k * b <= b; }
    } else {
      if b > 0 { assert k * b <= -b; } else { assert k * b >= -b; }
    }
  }

  /** Scaling dividend and divisor by the same positive factor does not change a C quotient. */
  lemma {:induction false} CDivScale(a: int, b: int, k: int)
    requires b != 0 && k > 0
    ensures CDiv(a * k, b * k) == CDiv(a, b)
  {
    var q := CDiv(a, b);
    ScaledRemainder(a, b, q, k);
    QuotientsAgree(a * k, b * k, q, CDiv(a * k, b * k));
  }

  /** A remainder that meets CDiv's contract still meets it once dividend and divisor are scaled by k > 0. */
  lemma ScaledRemainder(a: int, b: int, q: int, k: int)
    requires b != 0 && k > 0
    requires Abs(a - q * b) < Abs(b) && (a - q * b == 0 || (a - q * b < 0 <==> a < 0))
    ensures Abs(a * k - q * (b * k)) < Abs(b * k)
    ensures a * k - q * (b * k) == 0 || (a * k - q * (b * k) < 0 <==> a * k < 0)
  {
    var r := a - q * b;
    assert a * k - q * (b * k) == r * k;
    // the scaled remainder is still smaller than the scaled divisor ...
    AbsScale(r, k);
    AbsScale(b, k);
    StrictScale(Abs(r), Abs(b), k);
    // ... and still has the sign of the scaled dividend
    SignScale(r, k);
    SignScale(a, k);
  }

  lemma AbsScale(x: int, k: int)
    requires k > 0
    ensures Abs(x * k) == Abs(x) * k
  {
    if x < 0 { assert x * k == -((-x) * k); }
  }

  lemma StrictScale(x: nat, y: nat, k: int)
    requires x < y && k > 0
    ensures x * k < y * k
  {
    assert y * k - x * k == (y - x) * k;
  }

  lemma SignScale(x: int, k: int)
    requires k > 0
    ensures x * k == 0 <==> x == 0
    ensures x * k < 0 <==> x < 0
  {
    if x < 0 { assert x * k == -((-x) * k); }
  }

  /** FPR_TO_INT: arithmetic right shift by FRACBITS, rounding toward minus infinity. */
  function FprToInt(x: FPReal): (r: Int32)
    ensures r * One <= x < r * One + One
  {
    x / One
  }

  /** INT_TO_FPR: left shift by FRACBITS; the result must fit an int. */
  function IntToFpr(i: Int32): (r: FPReal)
    requires InInt32(i * One)
    ensures FprToInt(r) == i
  {
    i * One
  }

  /** FPR_INC: `*fpr += 1 << FRACBITS`, returning the new value. */
  function FprInc(x: FPReal): (r: FPReal)
    requires InInt32(x + One)
    ensures FprToInt(r) == FprToInt(x) + 1
    ensures r == FprAddInt(x, 1)
  {
    x + One
  }

  /** FPR_ADD_FPR: both operands have the same scale, so a plain add. */
  function FprAddFpr(a: FPReal, b: FPReal): FPReal
    requires InInt32(a + b)
  {
    a + b
  }

  /** FPR_SUB_FPR. */
  function FprSubFpr(a: FPReal, b: FPReal): FPReal
    requires InInt32(a - b)
  {
    a - b
  }

  /** FPR_MUL_INT: the scale is kept, so a plain multiply. */
  function FprMulInt(a: FPReal, b: Int32): FPReal
    requires InInt32(a * b)
  {
    a * b
  }

  /** FPR_DIV_INT: C division, truncating toward zero (INT_MIN / -1 excluded). */
  function FprDivInt(a: FPReal, b: Int32): FPReal
    requires b != 0
    requires InInt32(CDiv(a, b))
  {
    CDiv(a, b)
  }

  /** FPR_ADD_INT: `a + (b << FRACBITS)`. */
  function FprAddInt(a: FPReal, b: Int32): FPReal
    requires InInt32(b * One) && InInt32(a + b * One)
  {
    a + b * One
  }

  /** FPR_SUB_INT: `a - (b << FRACBITS)`. */
  function FprSubInt(a: FPReal, b: Int32): FPReal
    requires InInt32(b * One) && InInt32(a - b * One)
  {
    a - b * One
  }

  /**
   * FPR_MUL_FPR: the 64-bit product (which always fits), shifted right by
   * FRACBITS, then cast back to int; the cast must not lose bits.
   */
  function FprMulFpr(a: FPReal, b: FPReal): FPReal
    requires InInt32((a * b) / One)
  {
    (a * b) / One
  }

  /**
   * FPR_DIV_FPR: the dividend widened to 64 bits and shifted left by
   * FRACBITS, then divided (truncating) by the divisor.
   */
  function FprDivFpr(a: FPReal, b: FPReal): FPReal
    requires b != 0
    requires InInt32(CDiv(a * One, b))
  {
    CDiv(a * One, b)
  }

  /** INT_DIV_INT: the real quotient a / b as an FPReal. */
  function IntDivInt(a: Int32, b: Int32): FPReal
    requires b != 0
    requires InInt32(CDiv(a * One, b))
  {
    CDiv(a * One, b)
  }

  /** 100 times an FPReal, as an int (thread_get_load_avg, thread_get_recent_cpu). */
  function Hundredfold(x: FPReal): (r: Int32)
    requires InInt32(x * 100)
    ensures r * One <= 100 * x < r * One + One
  {
    FprToInt(FprMulInt(x, 100))
  }

  // ---------------------------------------------------------------------
  // Properties of the operations

  /** Converting an int to an FPReal and back gives the int. */
  lemma ToIntOfIntToFpr(i: Int32)
    requires InInt32(i * One)
    ensures FprToInt(IntToFpr(i)) == i
  {
  }

  /** Every int whose shift fits is the integer part of exactly one FPReal with no fraction. */
  lemma IntToFprInjective(i: Int32, j: Int32)
    requires InInt32(i * One) && InInt32(j * One)
    requires IntToFpr(i) == IntToFpr(j)
    ensures i == j
  {
    ToIntOfIntToFpr(i);
    ToIntOfIntToFpr(j);
  }

  /**
   * FPR_TO_INT rounds toward minus infinity, not toward zero: a negative
   * value with a fractional part goes to the next lower int, where C
   * division by 2^14 would go up.
   */
  lemma ToIntRoundsDown(x: FPReal)
    requires x < 0 && x % One != 0
    ensures FprToInt(x) < CDiv(x, One)
    ensures FprToInt(x) == CDiv(x, One) - 1
  {
    var q := CDiv(x, One);
    assert q == -((-x) / One);
    assert (-x) / One * One <= -x < (-x) / One * One + One;
  }

  /** For non-negative values the two roundings agree. */
  lemma ToIntOfNonNegative(x: FPReal)
    requires x >= 0
    ensures FprToInt(x) == CDiv(x, One)
  {
  }

  /** The pointed-to value grows by exactly one unit. */
  lemma IncAddsOne(x: FPReal)
    requires InInt32(x + One)
    ensures FprInc(x) - x == IntToFpr(1)
  {
  }

  /** Adding an int is adding its FPReal. */
  lemma AddIntIsAddFpr(a: FPReal, b: Int32)
    requires InInt32(b * One) && InInt32(a + b * One)
    ensures FprAddInt(a, b) == FprAddFpr(a, IntToFpr(b))
  {
  }

  /** Subtracting an int is subtracting its FPReal. */
  lemma SubIntIsSubFpr(a: FPReal, b: Int32)
    requires InInt32(b * One) && InInt32(a - b * One)
    ensures FprSubInt(a, b) == FprSubFpr(a, IntToFpr(b))
  {
  }

  /** Subtraction undoes addition. */
  lemma SubUndoesAdd(a: FPReal, b: FPReal)
    requires InInt32(a + b)
    ensures FprSubFpr(FprAddFpr(a, b), b) == a
  {
  }

  /** Adding then subtracting the same int leaves the value unchanged. */
  lemma SubIntUndoesAddInt(a: FPReal, b: Int32)
    requires InInt32(b * One) && InInt32(a + b * One)
    ensures FprSubInt(FprAddInt(a, b), b) == a
  {
  }

  /** Multiplying by an int keeps the scale: integer in, integer product out. */
  lemma MulIntOfInt(a: Int32, b: Int32)
    requires InInt32(a * One) && InInt32(a * b * One)
    ensures InInt32(IntToFpr(a) * b)
    ensures FprMulInt(IntToFpr(a), b) == IntToFpr(a * b)
  {
    assert IntToFpr(a) * b == a * b * One;
  }

  /** The FPReal 1 is the unit of FPReal multiplication. */
  lemma MulFprByOne(x: FPReal)
    ensures InInt32((x * IntToFpr(1)) / One)
    ensures FprMulFpr(x, IntToFpr(1)) == x
  {
    assert x * IntToFpr(1) == x * One;
  }

  /** Multiplying two integral FPReals multiplies the integers. */
  lemma MulFprOfInts(a: Int32, b: Int32)
    requires InInt32(a * One) && InInt32(b * One) && InInt32(a * b * One)
    ensures InInt32((IntToFpr(a) * IntToFpr(b)) / One)
    ensures FprMulFpr(IntToFpr(a), IntToFpr(b)) == IntToFpr(a * b)
  {
    var p := IntToFpr(a) * IntToFpr(b);
    assert p == (a * b * One) * One by {
      assert IntToFpr(a) * IntToFpr(b) == (a * One) * (b * One);
    }
    assert p / One == a * b * One;
  }

  /** FPR_MUL_FPR then FPR_TO_INT of two integral values gives the integer product. */
  lemma ToIntOfMulFprOfInts(a: Int32, b: Int32)
    requires InInt32(a * One) && InInt32(b * One) && InInt32(a * b * One)
    ensures InInt32((IntToFpr(a) * IntToFpr(b)) / One)
    ensures FprToInt(FprMulFpr(IntToFpr(a), IntToFpr(b))) == a * b
  {
    MulFprOfInts(a, b);
  }

  /**
   * INT_DIV_INT(a, b) and FPR_DIV_FPR of the two converted ints compute the
   * same quotient, trunc(a * 2^14 / b).
   */
  lemma IntDivIntIsDivFpr(a: Int32, b: Int32)
    requires b != 0
    requires InInt32(a * One) && InInt32(b * One)
    requires InInt32(CDiv(a * One, b))
    ensures IntToFpr(b) != 0
    ensures InInt32(CDiv(IntToFpr(a) * One, IntToFpr(b)))
    ensures IntDivInt(a, b) == FprDivFpr(IntToFpr(a), IntToFpr(b))
  {
    CDivScale(a * One, b, One);
    assert IntToFpr(a) * One == (a * One) * One;
  }

  /**
   * FPR_DIV_INT truncates toward zero: for a negative dividend with a
   * remainder the result is above the floor that FPR_TO_INT-style shifting
   * would give.
   */
  lemma DivIntTruncatesTowardZero(a: FPReal, b: Int32)
    requires b != 0 && InInt32(CDiv(a, b))
    ensures Abs(FprDivInt(a, b)) == Abs(a) / Abs(b)
    ensures FprDivInt(a, b) != 0 ==> (FprDivInt(a, b) > 0 <==> (a > 0 <==> b > 0))
  {
    DivOfNatural(Abs(a), Abs(b));
  }

  lemma DivOfNatural(x: int, y: int)
    requires x >= 0 && y > 0
    ensures x / y >= 0
    ensures x / y == 0 <==> x < y
  {
    var q, r := x / y, x % y;
    assert x == q * y + r && 0 <= r < y;
    if q > 0 { assert q * y >= y; }
  }

  /** A concrete case: -1/4 of a unit becomes 0 under FPR_DIV_INT but -1 under the shift. */
  lemma DivIntVersusShift()
    ensures FprDivInt(-1, 4) == 0
    ensures FprToInt(-1) == -1
  {
  }

  /** Division by an int undoes multiplication by it. */
  lemma DivIntUndoesMulInt(a: FPReal, b: Int32)
    requires b != 0 && InInt32(a * b)
    ensures InInt32(CDiv(a * b, b))
    ensures FprDivInt(FprMulInt(a, b), b) == a
  {
    CDivUnique(a * b, b, a);
  }
}
