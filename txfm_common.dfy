/** The constants shared by the DCT/ADST code of aom_dsp/txfm_common.h:
    the fixed-point rounding of the DCT, the unit quantizer of the lossless
    Walsh-Hadamard path, and the cosine and sine tables in Q14. */
module TxfmCommon {
  import opened IntArith

  const DCT_CONST_BITS: nat := 14
  const DCT_CONST_ROUNDING: int := Shl(1, DCT_CONST_BITS - 1)

  const UNIT_QUANT_SHIFT: nat := 2
  /** 1 << UNIT_QUANT_SHIFT (RoundingConstants). */
  const UNIT_QUANT_FACTOR: int := 4

  /** cospi_k_64 = round(16384 * cos(k * pi / 64)) for k = 1 .. 31. */
  const CosPiTable: seq<int> := [
    16364, 16305, 16207, 16069, 15893, 15679, 15426, 15137,
    14811, 14449, 14053, 13623, 13160, 12665, 12140, 11585,
    11003, 10394, 9760, 9102, 8423, 7723, 7005, 6270,
    5520, 4756, 3981, 3196, 2404, 1606, 804]

  function CosPi64(k: int): (c: int)
    requires 1 <= k <= 31
    ensures 0 < c < 16384
  {
    CosPiTable[k - 1]
  }

  /** sinpi_k_9 = 16384 * sqrt(2) * sin(k * pi / 9) * 2 / 3 for k = 1 .. 4. */
  const SINPI_1_9: int := 5283
  const SINPI_2_9: int := 9929
  const SINPI_3_9: int := 13377
  const SINPI_4_9: int := 15212

  /** 16384 * sqrt(2) */
  const SQRT2: int := 23170

  /** fdct_round_shift: a Q14 product brought back to the integer scale,
      rounding to the nearest integer and ties upward. */
  function FdctRoundShift(input: int): (r: int)
    ensures r * 16384 <= input + 8192 < (r + 1) * 16384
  {
    Pow2Values();
    RoundPowerOfTwo(input, DCT_CONST_BITS)
  }

  lemma RoundingConstants()
    ensures DCT_CONST_ROUNDING == 8192 && Pow2(DCT_CONST_BITS) == 16384
    ensures UNIT_QUANT_FACTOR == Shl(1, UNIT_QUANT_SHIFT)
  {
    Pow2Values();
  }

  /** The cosines fall strictly as the angle grows. */
  lemma CosPiDecreasing(j: int, k: int)
    requires 1 <= j < k <= 31
    ensures CosPi64(j) > CosPi64(k)
  {
    assert forall i :: 0 <= i < 30 ==> CosPiTable[i] > CosPiTable[i + 1];
    CosPiDecreasingFrom(j, k);
  }

  lemma {:induction false} CosPiDecreasingFrom(j: int, k: int)
    requires 1 <= j < k <= 31
    requires forall i :: 0 <= i < 30 ==> CosPiTable[i] > CosPiTable[i + 1]
    ensures CosPi64(j) > CosPi64(k)
    decreases k - j
  {
    if j + 1 < k {
      CosPiDecreasingFrom(j + 1, k);
    }
  }

  /** cos(pi/4) = sqrt(2)/2, in the table's Q14 scale. */
  lemma CosPi16IsHalfSqrt2()
    ensures 2 * CosPi64(16) == SQRT2
  {
  }

  /** sin(pi/9) + sin(2pi/9) = sin(4pi/9), in the table's scale. */
  lemma SinPiSum()
    ensures SINPI_1_9 + SINPI_2_9 == SINPI_4_9
  {
  }
}
