/** Integer helpers shared by the codec modules: C's shifts, clamps and
    rounding on unbounded integers. A C right shift of a signed value is an
    arithmetic shift, i.e. division by a power of two rounded toward minus
    infinity, which is exactly Dafny's `/` for a positive divisor. */
module IntArith {

  function Pow2(n: nat): (r: nat)
    ensures r >= 1
  {
    if n == 0 then 1 else 2 * Pow2(n - 1)
  }

  lemma {:induction false} Pow2Add(a: nat, b: nat)
    ensures Pow2(a + b) == Pow2(a) * Pow2(b)
  {
    if a > 0 {
      Pow2Add(a - 1, b);
      assert Pow2(a + b) == 2 * Pow2(a - 1 + b);
    }
  }

  lemma {:induction false} Pow2Monotone(a: nat, b: nat)
    requires a <= b
    ensures Pow2(a) <= Pow2(b)
  {
    if a < b {
      Pow2Monotone(a, b - 1);
    }
  }

  /** The powers of two the codec's constants use. */
  lemma Pow2Values()
    ensures Pow2(1) == 2 && Pow2(2) == 4 && Pow2(3) == 8 && Pow2(4) == 16
    ensures Pow2(5) == 32 && Pow2(6) == 64 && Pow2(7) == 128 && Pow2(8) == 256
    ensures Pow2(9) == 512 && Pow2(10) == 1024 && Pow2(11) == 2048 && Pow2(12) == 4096
    ensures Pow2(13) == 8192 && Pow2(14) == 16384 && Pow2(15) == 32768 && Pow2(16) == 65536
  {
    assert Pow2(1) == 2;
    assert Pow2(2) == 4;
    assert Pow2(3) == 8;
    assert Pow2(4) == 16;
    assert Pow2(5) == 32;
    assert Pow2(6) == 64;
    assert Pow2(7) == 128;
    assert Pow2(8) == 256;
    assert Pow2(9) == 512;
    assert Pow2(10) == 1024;
    assert Pow2(11) == 2048;
    assert Pow2(12) == 4096;
    assert Pow2(13) == 8192;
    assert Pow2(14) == 16384;
    assert Pow2(15) == 32768;
  }

  lemma Pow2Of31()
    ensures Pow2(31) == 0x8000_0000
  {
    Pow2Values();
    Pow2Add(15, 16);
  }

  /** Multiplying by a positive p and dividing by it again returns the value. */
  lemma MulDivCancel(c: int, p: int)
    requires p > 0
    ensures (c * p) / p == c
  {
    var q := (c * p) / p;
    if c - q >= 1 {
      assert false;
    } else if c - q <= -1 {
      assert false;
    }
  }

  /** The quotient is the q of any decomposition x == q * d + r with
      0 <= r < d. */
  lemma DivUnique(x: int, d: int, q: int, r: int)
    requires d > 0 && 0 <= r < d && x == q * d + r
    ensures x / d == q
  {
    var q', r' := x / d, x % d;
    assert (q - q') * d == r' - r;
    if q - q' >= 1 {
      MulAtLeast(q - q', d);
      assert false;
    } else if q - q' <= -1 {
      MulAtLeast(q' - q, d);
      assert false;
    }
  }

  /** k * d >= d for k >= 1 and d > 0. */
  lemma MulAtLeast(k: int, d: int)
    requires k >= 1 && d > 0
    ensures k * d >= d
  {
    assert k * d == (k - 1) * d + d;
  }

  /** Division by a positive divisor is monotone. */
  lemma DivMonotone(a: int, b: int, d: int)
    requires d > 0 && a <= b
    ensures a / d <= b / d
  {
    var qa, qb := a / d, b / d;
    assert a == qa * d + a % d;
    assert b == qb * d + b % d;
    if qa > qb {
      assert (qa - qb) * d == qa * d - qb * d;
      MulAtLeast(qa - qb, d);
      assert false;
    }
  }

  /** `x >> n` for a signed C integer (arithmetic shift). */
  function Shr(x: int, n: nat): int
  {
    x / Pow2(n)
  }

  /** `x << n` without overflow. */
  function Shl(x: int, n: nat): int
  {
    x * Pow2(n)
  }

  /** ROUND_POWER_OF_TWO(value, n) = (value + ((1 << n) >> 1)) >> n */
  function RoundPowerOfTwo(v: int, n: nat): (r: int)
    ensures r * Pow2(n) <= v + Pow2(n) / 2 < (r + 1) * Pow2(n)
  {
    Shr(v + Pow2(n) / 2, n)
  }

  function Min(a: int, b: int): (r: int)
    ensures r <= a && r <= b && (r == a || r == b)
  {
    if a < b then a else b
  }

  function Max(a: int, b: int): (r: int)
    ensures r >= a && r >= b && (r == a || r == b)
  {
    if a > b then a else b
  }

  function Abs(x: int): (r: nat)
    ensures r == x || r == -x
  {
    if x < 0 then -x else x
  }

  /** clamp(value, low, high) of aom_dsp_common.h */
  function Clamp(v: int, lo: int, hi: int): (r: int)
    requires lo <= hi
    ensures lo <= r <= hi
    ensures lo <= v <= hi ==> r == v
    ensures v < lo ==> r == lo
    ensures v > hi ==> r == hi
  {
    if v < lo then lo else if v > hi then hi else v
  }

  /** C's `/` on signed integers, which truncates toward zero. */
  function TruncDiv(a: int, b: int): (q: int)
    requires b != 0
  {
    if (a >= 0) == (b > 0) then Abs(a) / Abs(b) else -(Abs(a) / Abs(b))
  }

  const INT32_MIN: int := -0x8000_0000
  const INT32_MAX: int := 0x7fff_ffff
  const INT64_MIN: int := -0x8000_0000_0000_0000
  const INT64_MAX: int := 0x7fff_ffff_ffff_ffff

  predicate FitsInt32(x: int)
  {
    INT32_MIN <= x <= INT32_MAX
  }

  /** The conversion of an integer to int32_t: the value modulo 2^32, taken
      in [-2^31, 2^31). */
  function Wrap32(x: int): (r: int)
    ensures FitsInt32(r)
    ensures (x - r) % 0x1_0000_0000 == 0
    ensures FitsInt32(x) ==> r == x
  {
    (x + 0x8000_0000) % 0x1_0000_0000 - 0x8000_0000
  }

  /** clip_pixel of aom_dsp_common.h: an int clamped to the 8-bit pixel range. */
  function ClipPixel(v: int): (r: int)
    ensures 0 <= r <= 255
    ensures 0 <= v <= 255 ==> r == v
  {
    Clamp(v, 0, 255)
  }

  /** clip_pixel_highbd of aom_dsp_common.h: an int clamped to [0, 2^bd - 1]
      (bit depths 8, 10 and 12; anything else clamps to 8 bits). */
  function ClipPixelHighbd(v: int, bd: int): (r: int)
    ensures 0 <= r < Pow2(if bd == 10 || bd == 12 then bd else 8)
    ensures 0 <= v < Pow2(if bd == 10 || bd == 12 then bd else 8) ==> r == v
  {
    Clamp(v, 0, Pow2(if bd == 10 || bd == 12 then bd else 8) - 1)
  }
}
