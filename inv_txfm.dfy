/** The rounding and range helpers of the inverse transforms
    (aom_dsp/inv_txfm.h): the Q14 rounding shift, the clamp of intermediate
    coefficients to the range a bit depth allows, WRAPLOW in both of its
    compile configurations, and the reconstruction of a pixel from a
    prediction and a residual. */
module InvTxfm {
  import opened IntArith

  /** dct_const_round_shift: the Q14 rounding shift, to nearest, ties up. */
  function DctConstRoundShift(input: int): (r: int)
    ensures r * 16384 <= input + 8192 < (r + 1) * 16384
  {
    Pow2Values();
    RoundPowerOfTwo(input, 14)
  }

  /** The largest coefficient check_range allows for bit depth bd. */
  function CoeffMax(bd: nat): int
  {
    Pow2(7 + bd) - 1
  }

  /** check_range: an intermediate coefficient clamped to the signed
      (8 + bd)-bit range. */
  function CheckRange(input: int, bd: nat): (r: int)
    requires bd <= 23
    ensures -CoeffMax(bd) - 1 <= r <= CoeffMax(bd)
    ensures -CoeffMax(bd) - 1 <= input <= CoeffMax(bd) ==> r == input
    ensures input > CoeffMax(bd) ==> r == CoeffMax(bd)
    ensures input < -CoeffMax(bd) - 1 ==> r == -CoeffMax(bd) - 1
  {
    var intMax := Pow2(7 + bd) - 1;
    var intMin := -intMax - 1;
    Clamp(input, intMin, intMax)
  }

  /** WRAPLOW without hardware emulation: a clamp to the signed 16-bit range. */
  function WrapLow(x: int): (r: int)
    ensures -32768 <= r <= 32767
    ensures -32768 <= x <= 32767 ==> r == x
  {
    Pow2Values();
    Wrap32(CheckRange(x, 8))
  }

  /** WRAPLOW with hardware emulation: the clamped value shifted up by 16
      bits in an int32 and arithmetically back down. */
  function WrapLowEmulated(x: int): int
  {
    Shr(Wrap32(Shl(Wrap32(CheckRange(x, 8)), 16)), 16)
  }

  /** HIGHBD_WRAPLOW without hardware emulation. */
  function HighbdWrapLow(x: int, bd: nat): (r: int)
    requires bd <= 23
    ensures -CoeffMax(bd) - 1 <= r <= CoeffMax(bd)
    ensures -CoeffMax(bd) - 1 <= x <= CoeffMax(bd) ==> r == x
  {
    Pow2Monotone(7 + bd, 30);
    Pow2Add(15, 15);
    Pow2Values();
    var c := CheckRange(x, bd);
    assert FitsInt32(c);
    Wrap32(c)
  }

  /** HIGHBD_WRAPLOW with hardware emulation, shifting by 24 - bd. */
  function HighbdWrapLowEmulated(x: int, bd: nat): int
    requires bd <= 23
  {
    Shr(Wrap32(Shl(Wrap32(CheckRange(x, bd)), 24 - bd)), 24 - bd)
  }

  /** The emulated shift pair loses nothing: after the clamp the value
      already fits in 16 bits, so WRAPLOW is the same in both configurations. */
  lemma WrapLowConfigurationsAgree(x: int)
    ensures WrapLowEmulated(x) == WrapLow(x)
  {
    var c := CheckRange(x, 8);
    Pow2Values();
    ShiftPairKeeps(c, 16, 15);
  }

  /** The same for HIGHBD_WRAPLOW at every bit depth up to 23. */
  lemma HighbdWrapLowConfigurationsAgree(x: int, bd: nat)
    requires bd <= 23
    ensures HighbdWrapLowEmulated(x, bd) == HighbdWrapLow(x, bd)
  {
    var c := CheckRange(x, bd);
    ShiftPairKeeps(c, 24 - bd, 7 + bd);
  }

  /** A value of w + 1 bits shifted up by 31 - w bits still fits in an
      int32, so shifting it back down returns it. */
  lemma ShiftPairKeeps(c: int, s: nat, w: nat)
    requires s + w == 31 && 0 <= c + Pow2(w) && c < Pow2(w)
    ensures Wrap32(c) == c
    ensures Shr(Wrap32(Shl(Wrap32(c), s)), s) == c
  {
    var p, q := Pow2(s), Pow2(w);
    Pow2Add(w, s);
    Pow2Of31();
    ScaledBounds(c, q, p);
    assert FitsInt32(c);
    assert Shl(Wrap32(c), s) == c * p;
    assert Wrap32(c * p) == c * p;
    MulDivCancel(c, p);
  }

  /** -q <= c < q scaled by p > 0, for a product q * p of 2^31. */
  lemma ScaledBounds(c: int, q: int, p: int)
    requires p >= 1 && q >= 1 && q * p == 0x8000_0000 && -q <= c < q
    ensures -0x8000_0000 <= c * p <= 0x7fff_ffff
    ensures -0x8000_0000 <= c <= 0x7fff_ffff
  {
    assert c * p < q * p by {
      assert (q - c) * p > 0;
    }
    assert -q * p <= c * p by {
      assert (c + q) * p >= 0;
    }
    assert q <= q * p;
  }

  /** clip_pixel_add: an 8-bit pixel plus a residual, the residual first
      brought into 16 bits, the sum clipped to a pixel. */
  function ClipPixelAdd(dest: int, trans: int): (r: int)
    requires 0 <= dest <= 255
    ensures 0 <= r <= 255
    ensures trans == 0 ==> r == dest
    ensures -32768 <= trans <= 32767 && 0 <= dest + trans <= 255 ==> r == dest + trans
  {
    ClipPixel(dest + WrapLow(trans))
  }

  /** highbd_clip_pixel_add: the same for a pixel of bit depth bd. */
  function HighbdClipPixelAdd(dest: int, trans: int, bd: nat): (r: int)
    requires bd == 8 || bd == 10 || bd == 12
    requires 0 <= dest < Pow2(bd)
    ensures 0 <= r < Pow2(bd)
  {
    ClipKeepsPixel(dest, bd);
    ClipPixelHighbd(dest + HighbdWrapLow(trans, bd), bd)
  }

  /** Adding a zero residual leaves a high-bit-depth pixel as it was. */
  lemma HighbdClipPixelAddZero(dest: int, bd: nat)
    requires bd == 8 || bd == 10 || bd == 12
    requires 0 <= dest < Pow2(bd)
    ensures HighbdClipPixelAdd(dest, 0, bd) == dest
  {
    assert CoeffMax(bd) >= 0;
    assert HighbdWrapLow(0, bd) == 0;
    ClipKeepsPixel(dest, bd);
  }

  /** A pixel already in range passes clip_pixel_highbd unchanged. */
  lemma ClipKeepsPixel(v: int, bd: nat)
    requires bd == 8 || bd == 10 || bd == 12
    requires 0 <= v < Pow2(bd)
    ensures ClipPixelHighbd(v, bd) == v
    ensures forall x :: 0 <= ClipPixelHighbd(x, bd) < Pow2(bd)
  {
    assert (if bd == 10 || bd == 12 then bd else 8) == bd;
  }
}
