/**
 * IEEE 754 binary64 values as the 8 bytes a memcpy of a double yields on
 * a little-endian host: byte 7 holds the sign bit and the top 7 exponent
 * bits, byte 6 the low 4 exponent bits and the top 4 fraction bits.
 *
 * The codec moves these bytes unchanged. Comparisons follow IEEE 754
 * (a NaN equals nothing, +0 equals -0); Value gives the real number a
 * finite double stands for.
 */
module Ieee {

  import opened Ndn

  type Float64 = b: seq<Byte> | |b| == 8 witness [0, 0, 0, 0, 0, 0, 0, 0]

  /** +0.0 */
  const ZERO: Float64 := [0, 0, 0, 0, 0, 0, 0, 0]
  /** 0.4, that is 0x3FD999999999999A */
  const POINT_FOUR: Float64 := [0x9A, 0x99, 0x99, 0x99, 0x99, 0x99, 0xD9, 0x3F]
  /** 0.2, that is 0x3FC999999999999A */
  const POINT_TWO: Float64 := [0x9A, 0x99, 0x99, 0x99, 0x99, 0x99, 0xC9, 0x3F]

  function Exponent(x: Float64): (e: nat)
    ensures e < 2048
  {
    (x[7] as nat % 128) * 16 + x[6] as nat / 16
  }

  /** The 52 fraction bits as a number. */
  function Fraction(x: Float64): (f: nat)
  {
    ((x[6] as nat % 16) * 0x1_0000_0000_0000) + x[5] as nat * 0x100_0000_0000 + x[4] as nat * 0x1_0000_0000
      + x[3] as nat * 0x100_0000 + x[2] as nat * 0x1_0000 + x[1] as nat * 0x100 + x[0] as nat
  }

  predicate Negative(x: Float64)
  {
    x[7] >= 128
  }

  predicate IsNaN(x: Float64)
  {
    Exponent(x) == 2047 && Fraction(x) != 0
  }

  predicate IsFinite(x: Float64)
  {
    Exponent(x) != 2047
  }

  predicate IsZero(x: Float64)
  {
    Exponent(x) == 0 && Fraction(x) == 0
  }

  /** The IEEE 754 comparison x > 0.0: false for a NaN and for either zero. */
  predicate Positive(x: Float64)
  {
    !IsNaN(x) && !Negative(x) && !IsZero(x)
  }

  /** The IEEE 754 equality of two doubles. */
  predicate FloatEq(x: Float64, y: Float64)
  {
    !IsNaN(x) && !IsNaN(y) && (x == y || (IsZero(x) && IsZero(y)))
  }

  function Pow2(e: int): (r: real)
    ensures r > 0.0
    decreases if e < 0 then -e else e
  {
    if e == 0 then 1.0
    else if e >= 16 then 65536.0 * Pow2(e - 16)
    else if e > 0 then 2.0 * Pow2(e - 1)
    else if e <= -16 then Pow2(e + 16) / 65536.0
    else Pow2(e + 1) / 2.0
  }

  /**
   * The real number a finite double stands for: subnormal numbers scale
   * the fraction by 2^-1074, normal ones add the hidden bit first.
   * Infinities and NaNs have no real value; they give 0.0.
   */
  function Value(x: Float64): (r: real)
    ensures IsZero(x) ==> r == 0.0
    ensures IsFinite(x) && !IsZero(x) ==> (r < 0.0 <==> Negative(x))
  {
    if !IsFinite(x) then 0.0
    else
      var e := Exponent(x);
      var f := Fraction(x);
      var magnitude := if e == 0 then f as real * Pow2(-1074) else (0x10_0000_0000_0000 + f) as real * Pow2(e - 1075);
      if Negative(x) then -magnitude else magnitude
  }

  /** Equal doubles have equal values, and comparing is symmetric. */
  lemma FloatEqValue(x: Float64, y: Float64)
    requires FloatEq(x, y)
    ensures Value(x) == Value(y) && FloatEq(y, x)
  {
  }

  /** Every double but a NaN equals itself; a NaN does not. */
  lemma FloatEqReflexive(x: Float64)
    ensures FloatEq(x, x) <==> !IsNaN(x)
  {
  }

  /** The default constants are the numbers they are named after. */
  lemma Constants()
    ensures IsZero(ZERO) && Value(ZERO) == 0.0
    ensures FloatEq(ZERO, [0, 0, 0, 0, 0, 0, 0, 0x80])
    ensures Exponent(POINT_FOUR) == 1021 && Exponent(POINT_TWO) == 1020
    ensures 0.39 < Value(POINT_FOUR) < 0.41 && 0.19 < Value(POINT_TWO) < 0.21
  {
    assert Pow2(-6) == 1.0 / 64.0 by {
      assert Pow2(-1) == 0.5;
      assert Pow2(-2) == 0.25;
      assert Pow2(-3) == 0.125;
      assert Pow2(-4) == 0.0625;
      assert Pow2(-5) == 0.03125;
    }
    assert Pow2(-7) == 1.0 / 128.0 by {
      assert Pow2(-7) == Pow2(-6) / 2.0;
    }
    assert Pow2(-54) == 1.0 / 18014398509481984.0 by {
      assert Pow2(-54) == Pow2(-38) / 65536.0;
      assert Pow2(-38) == Pow2(-22) / 65536.0;
      assert Pow2(-22) == Pow2(-6) / 65536.0;
    }
    assert Pow2(-55) == 1.0 / 36028797018963968.0 by {
      assert Pow2(-55) == Pow2(-39) / 65536.0;
      assert Pow2(-39) == Pow2(-23) / 65536.0;
      assert Pow2(-23) == Pow2(-7) / 65536.0;
    }
    assert Fraction(POINT_FOUR) == Fraction(POINT_TWO) == 0x9_9999_9999_999A;
  }
}
