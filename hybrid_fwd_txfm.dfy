/** The encoder's forward-transform entry points of
    av1/encoder/hybrid_fwd_txfm.c: the lossless 4x4 Walsh-Hadamard
    transform, the choice of 2-D transform by size, and the intra
    secondary transform that rewrites the low-frequency corner of a
    transformed block. */
module HybridFwdTxfm {
  import opened IntArith
  import opened Wrappers
  import TxfmCommon
  import Av1Txfm

  // ---------------------------------------------------------------------
  // av1_fwht4x4_c
  // ---------------------------------------------------------------------

  /** Four values, in the order the butterfly stores them (op[0], op[4],
      op[8], op[12] in the first pass, op[0..3] in the second). */
  datatype Quad = Quad(q0: int, q1: int, q2: int, q3: int)

  function At(q: Quad, k: int): int
    requires 0 <= k < 4
  {
    if k == 0 then q.q0 else if k == 1 then q.q1 else if k == 2 then q.q2 else q.q3
  }

  /** The 4-point lifting butterfly both passes of av1_fwht4x4_c run on
      a column (a, b, c, d), with the arithmetic shift rounding down. */
  function Butterfly(a: int, b: int, c: int, d: int): Quad
  {
    var a1 := a + b;
    var d1 := d - c;
    var e1 := (a1 - d1) / 2;
    var b1 := e1 - b;
    var c1 := e1 - c;
    Quad(a1 - c1, c1, d1 + b1, b1)
  }

  /** The lifting steps undone in reverse order. The transform is exactly
      reversible, as its comment says: this recovers (a, b, c, d). */
  function UnButterfly(q: Quad): Quad
  {
    var a1 := q.q0 + q.q1;
    var d1 := q.q2 - q.q3;
    var e1 := (a1 - d1) / 2;
    var b := e1 - q.q3;
    var c := e1 - q.q1;
    Quad(a1 - b, b, c, d1 + c)
  }

  lemma ButterflyReversible(a: int, b: int, c: int, d: int)
    ensures UnButterfly(Butterfly(a, b, c, d)) == Quad(a, b, c, d)
  {
  }

  /** Every output of the butterfly is at most five times the largest
      input in magnitude. */
  lemma ButterflyBound(a: int, b: int, c: int, d: int, m: int)
    requires Abs(a) <= m && Abs(b) <= m && Abs(c) <= m && Abs(d) <= m
    ensures var q := Butterfly(a, b, c, d);
      Abs(q.q0) <= 5 * m && Abs(q.q1) <= 3 * m && Abs(q.q2) <= 5 * m && Abs(q.q3) <= 3 * m
  {
    var a1 := a + b;
    var d1 := d - c;
    assert -2 * m <= a1 <= 2 * m && -2 * m <= d1 <= 2 * m;
    var e1 := (a1 - d1) / 2;
    assert -2 * m <= e1 <= 2 * m;
    var b1 := e1 - b;
    var c1 := e1 - c;
    assert -3 * m <= b1 <= 3 * m && -3 * m <= c1 <= 3 * m;
    assert Butterfly(a, b, c, d) == Quad(a1 - c1, c1, d1 + b1, b1);
  }

  /** The 4x4 block the transform reads: row r of the residual is
      s[r * stride ..], and x[4 * r + c] its c-th sample. */
  function Block(s: seq<int>, stride: int): (x: seq<int>)
    requires 0 <= stride && 3 * stride + 4 <= |s|
    ensures |x| == 16
  {
    seq(16, p requires 0 <= p < 16 => s[(p / 4) * stride + p % 4])
  }

  lemma BlockAt(s: seq<int>, stride: int, r: int, c: int)
    requires 0 <= stride && 3 * stride + 4 <= |s| && 0 <= r < 4 && 0 <= c < 4
    ensures Block(s, stride)[4 * r + c] == s[r * stride + c]
  {
    assert (4 * r + c) / 4 == r && (4 * r + c) % 4 == c;
  }

  /** Each value stored to tran_low_t (int32_t). */
  function Wrapped(s: seq<int>): (w: seq<int>)
    ensures |w| == |s|
  {
    seq(|s|, p requires 0 <= p < |s| => Wrap32(s[p]))
  }

  /** Entry (r, c) of the first pass: column c of the block through the
      butterfly, output r. */
  function ColCell(x: seq<int>, r: int, c: int): int
    requires |x| == 16 && 0 <= r < 4 && 0 <= c < 4
  {
    At(Butterfly(x[c], x[4 + c], x[8 + c], x[12 + c]), r)
  }

  /** Entry (r, c) of the second pass: row r of t through the butterfly,
      output c, scaled by UNIT_QUANT_FACTOR (4). */
  function RowCell(t: seq<int>, r: int, c: int): int
    requires |t| == 16 && 0 <= r < 4 && 0 <= c < 4
  {
    4 * At(Butterfly(t[4 * r], t[4 * r + 1], t[4 * r + 2], t[4 * r + 3]), c)
  }

  /** The first pass in exact arithmetic, entry (r, c) at t[4 * r + c]. */
  function Columns(x: seq<int>): (t: seq<int>)
    requires |x| == 16
    ensures |t| == 16
  {
    seq(16, p requires 0 <= p < 16 => ColCell(x, p / 4, p % 4))
  }

  /** The second pass in exact arithmetic, entry (r, c) at y[4 * r + c]. */
  function Rows(t: seq<int>): (y: seq<int>)
    requires |t| == 16
    ensures |y| == 16
  {
    seq(16, p requires 0 <= p < 16 => RowCell(t, p / 4, p % 4))
  }

  lemma ColumnsAt(x: seq<int>, r: int, c: int)
    requires |x| == 16 && 0 <= r < 4 && 0 <= c < 4
    ensures Columns(x)[4 * r + c] == ColCell(x, r, c)
  {
    assert (4 * r + c) / 4 == r && (4 * r + c) % 4 == c;
  }

  lemma RowsAt(t: seq<int>, r: int, c: int)
    requires |t| == 16 && 0 <= r < 4 && 0 <= c < 4
    ensures Rows(t)[4 * r + c] == RowCell(t, r, c)
  {
    assert (4 * r + c) / 4 == r && (4 * r + c) % 4 == c;
  }

  /** The 16 outputs of av1_fwht4x4_c in the order it stores them: each
      pass computed in int and stored to tran_low_t. */
  function Fwht4x4Spec(x: seq<int>): (y: seq<int>)
    requires |x| == 16
    ensures |y| == 16
  {
    Wrapped(Rows(Wrapped(Columns(x))))
  }

  /** av1_fwht4x4_c: the columns of the 4x4 residual block through the
      butterfly into output, then the rows of output in place. */
  method Fwht4x4(input: array<int>, output: array<int>, stride: int)
    requires input != output
    requires 0 <= stride && 3 * stride + 4 <= input.Length && 16 <= output.Length
    modifies output
    ensures output[..16] == Fwht4x4Spec(Block(input[..], stride))
    ensures output[16..] == old(output[16..])
  {
    FirstPass(input, output, stride);
    SecondPass(output);
  }

  /** The first loop of av1_fwht4x4_c. */
  method FirstPass(input: array<int>, output: array<int>, stride: int)
    requires input != output
    requires 0 <= stride && 3 * stride + 4 <= input.Length && 16 <= output.Length
    modifies output
    ensures output[..16] == Wrapped(Columns(Block(input[..], stride)))
    ensures output[16..] == old(output[16..])
  {
    ghost var x := Block(input[..], stride);
    for i := 0 to 4
      invariant ColumnsDone(output[..], x, i)
      invariant output[16..] == old(output[16..])
    {
      ghost var before := output[..];
      ColumnStep(input, output, stride, i);
      ColumnStored(input[..], stride, i, 0);
      ColumnStored(input[..], stride, i, 1);
      ColumnStored(input[..], stride, i, 2);
      ColumnStored(input[..], stride, i, 3);
      ColumnsDoneStep(before, output[..], x, i);
    }
    ColumnsDoneAll(output[..], x);
  }

  /** The first n columns of s hold the first pass over x. */
  ghost predicate ColumnsDone(s: seq<int>, x: seq<int>, n: int)
    requires 16 <= |s| && |x| == 16 && 0 <= n <= 4
  {
    forall r, c :: 0 <= r < 4 && 0 <= c < n ==> s[4 * r + c] == Wrap32(ColCell(x, r, c))
  }

  lemma ColumnsDoneStep(s: seq<int>, s': seq<int>, x: seq<int>, i: int)
    requires 16 <= |s| == |s'| && |x| == 16 && 0 <= i < 4 && ColumnsDone(s, x, i)
    requires s'[i] == Wrap32(ColCell(x, 0, i)) && s'[4 + i] == Wrap32(ColCell(x, 1, i))
    requires s'[8 + i] == Wrap32(ColCell(x, 2, i)) && s'[12 + i] == Wrap32(ColCell(x, 3, i))
    requires forall p :: 0 <= p < |s| && p != i && p != 4 + i && p != 8 + i && p != 12 + i ==> s'[p] == s[p]
    ensures ColumnsDone(s', x, i + 1)
  {
    forall r, c | 0 <= r < 4 && 0 <= c < i + 1
      ensures s'[4 * r + c] == Wrap32(ColCell(x, r, c))
    {
      if c < i {
        assert s'[4 * r + c] == s[4 * r + c];
      } else if r == 0 {
      } else if r == 1 {
      } else if r == 2 {
      } else {
      }
    }
  }

  lemma ColumnsDoneAll(s: seq<int>, x: seq<int>)
    requires 16 <= |s| && |x| == 16 && ColumnsDone(s, x, 4)
    ensures s[..16] == Wrapped(Columns(x))
  {
    forall p | 0 <= p < 16
      ensures s[p] == Wrapped(Columns(x))[p]
    {
      var r, c := p / 4, p % 4;
      assert p == 4 * r + c;
      ColumnsAt(x, r, c);
    }
  }

  /** One column of the first pass: the butterfly of the samples
      input[i + k * stride], stored to output[i + 4 * k]. */
  method ColumnStep(input: array<int>, output: array<int>, stride: int, i: int)
    requires input != output
    requires 0 <= stride && 3 * stride + 4 <= input.Length && 16 <= output.Length && 0 <= i < 4
    modifies output
    ensures var q := Butterfly(input[i], input[stride + i], input[2 * stride + i], input[3 * stride + i]);
      output[i] == Wrap32(q.q0) && output[4 + i] == Wrap32(q.q1)
      && output[8 + i] == Wrap32(q.q2) && output[12 + i] == Wrap32(q.q3)
    ensures forall p :: 0 <= p < output.Length && p != i && p != 4 + i && p != 8 + i && p != 12 + i ==>
      output[p] == old(output[p])
  {
    var a1 := input[i];
    var b1 := input[stride + i];
    var c1 := input[2 * stride + i];
    var d1 := input[3 * stride + i];
    a1 := a1 + b1;
    d1 := d1 - c1;
    var e1 := (a1 - d1) / 2;
    b1 := e1 - b1;
    c1 := e1 - c1;
    a1 := a1 - c1;
    d1 := d1 + b1;
    output[i] := Wrap32(a1);
    output[4 + i] := Wrap32(c1);
    output[8 + i] := Wrap32(d1);
    output[12 + i] := Wrap32(b1);
  }

  /** What ColumnStep stores at row r is entry (r, i) of the first pass. */
  lemma ColumnStored(s: seq<int>, stride: int, i: int, r: int)
    requires 0 <= stride && 3 * stride + 4 <= |s| && 0 <= i < 4 && 0 <= r < 4
    ensures ColCell(Block(s, stride), r, i)
      == At(Butterfly(s[i], s[stride + i], s[2 * stride + i], s[3 * stride + i]), r)
  {
    BlockAt(s, stride, 0, i);
    BlockAt(s, stride, 1, i);
    BlockAt(s, stride, 2, i);
    BlockAt(s, stride, 3, i);
  }

  /** The second loop of av1_fwht4x4_c, in place over the first pass. */
  method SecondPass(output: array<int>)
    requires 16 <= output.Length
    modifies output
    ensures output[..16] == Wrapped(Rows(old(output[..16])))
    ensures output[16..] == old(output[16..])
  {
    ghost var t := output[..16];
    for i := 0 to 4
      invariant RowsDone(output[..], t, i)
      invariant forall p :: 4 * i <= p < 16 ==> output[p] == t[p]
      invariant output[16..] == old(output[16..])
    {
      ghost var before := output[..];
      RowStep(output, i);
      RowsDoneStep(before, output[..], t, i);
    }
    RowsDoneAll(output[..], t);
  }

  /** The first n rows of s hold the second pass over t. */
  ghost predicate RowsDone(s: seq<int>, t: seq<int>, n: int)
    requires 16 <= |s| && |t| == 16 && 0 <= n <= 4
  {
    forall r, c :: 0 <= r < n && 0 <= c < 4 ==> s[4 * r + c] == Wrap32(RowCell(t, r, c))
  }

  lemma RowsDoneStep(s: seq<int>, s': seq<int>, t: seq<int>, i: int)
    requires 16 <= |s| == |s'| && |t| == 16 && 0 <= i < 4 && RowsDone(s, t, i)
    requires s[4 * i] == t[4 * i] && s[4 * i + 1] == t[4 * i + 1] && s[4 * i + 2] == t[4 * i + 2] && s[4 * i + 3] == t[4 * i + 3]
    requires var q := Butterfly(s[4 * i], s[4 * i + 1], s[4 * i + 2], s[4 * i + 3]);
      s'[4 * i] == Wrap32(4 * q.q0)
      && s'[4 * i + 1] == Wrap32(4 * q.q1)
      && s'[4 * i + 2] == Wrap32(4 * q.q2)
      && s'[4 * i + 3] == Wrap32(4 * q.q3)
    requires forall p :: 0 <= p < |s| && !(4 * i <= p < 4 * i + 4) ==> s'[p] == s[p]
    ensures RowsDone(s', t, i + 1)
  {
    forall r, c | 0 <= r < i + 1 && 0 <= c < 4
      ensures s'[4 * r + c] == Wrap32(RowCell(t, r, c))
    {
      if r < i {
        assert s'[4 * r + c] == s[4 * r + c];
      } else if c == 0 {
      } else if c == 1 {
      } else if c == 2 {
      } else {
      }
    }
  }

  lemma RowsDoneAll(s: seq<int>, t: seq<int>)
    requires 16 <= |s| && |t| == 16 && RowsDone(s, t, 4)
    ensures s[..16] == Wrapped(Rows(t))
  {
    forall p | 0 <= p < 16
      ensures s[p] == Wrapped(Rows(t))[p]
    {
      var r, c := p / 4, p % 4;
      assert p == 4 * r + c;
      RowsAt(t, r, c);
    }
  }

  /** One row of the second pass, in place: the butterfly of
      output[4 * i .. 4 * i + 4], scaled by UNIT_QUANT_FACTOR. */
  method RowStep(output: array<int>, i: int)
    requires 16 <= output.Length && 0 <= i < 4
    modifies output
    ensures var q := Butterfly(old(output[4 * i]), old(output[4 * i + 1]), old(output[4 * i + 2]), old(output[4 * i + 3]));
      output[4 * i] == Wrap32(4 * q.q0)
      && output[4 * i + 1] == Wrap32(4 * q.q1)
      && output[4 * i + 2] == Wrap32(4 * q.q2)
      && output[4 * i + 3] == Wrap32(4 * q.q3)
    ensures forall p :: 0 <= p < output.Length && !(4 * i <= p < 4 * i + 4) ==> output[p] == old(output[p])
  {
    var a1 := output[4 * i];
    var b1 := output[4 * i + 1];
    var c1 := output[4 * i + 2];
    var d1 := output[4 * i + 3];
    ghost var q := Butterfly(a1, b1, c1, d1);
    a1 := a1 + b1;
    d1 := d1 - c1;
    var e1 := (a1 - d1) / 2;
    b1 := e1 - b1;
    c1 := e1 - c1;
    a1 := a1 - c1;
    d1 := d1 + b1;
    assert q == Quad(a1, c1, d1, b1);
    output[4 * i] := Wrap32(4 * a1);
    output[4 * i + 1] := Wrap32(4 * c1);
    output[4 * i + 2] := Wrap32(4 * d1);
    output[4 * i + 3] := Wrap32(4 * b1);
  }

  /** av1_highbd_fwht4x4_c is the same transform. */
  method HighbdFwht4x4(input: array<int>, output: array<int>, stride: int)
    requires input != output
    requires 0 <= stride && 3 * stride + 4 <= input.Length && 16 <= output.Length
    modifies output
    ensures output[..16] == Fwht4x4Spec(Block(input[..], stride))
    ensures output[16..] == old(output[16..])
  {
    Fwht4x4(input, output, stride);
  }

  /** The residual samples are int16_t. */
  predicate IsInt16Block(x: seq<int>)
  {
    |x| == 16 && forall k :: 0 <= k < 16 ==> -32768 <= x[k] <= 32767
  }

  /** Storing values that fit in int32_t changes nothing. */
  lemma WrappedFits(s: seq<int>)
    requires forall p :: 0 <= p < |s| ==> FitsInt32(s[p])
    ensures Wrapped(s) == s
  {
  }

  /** Each value of the first pass over an int16_t block is at most
      5 * 2^15 in magnitude. */
  lemma ColumnsBound(x: seq<int>)
    requires IsInt16Block(x)
    ensures forall p :: 0 <= p < 16 ==> Abs(Columns(x)[p]) <= 5 * 32768
  {
    forall p | 0 <= p < 16
      ensures Abs(Columns(x)[p]) <= 5 * 32768
    {
      var r, c := p / 4, p % 4;
      assert p == 4 * r + c;
      ColumnsAt(x, r, c);
      var q := Butterfly(x[c], x[4 + c], x[8 + c], x[12 + c]);
      ButterflyBound(x[c], x[4 + c], x[8 + c], x[12 + c], 32768);
      AtBound(q, r, 5 * 32768);
    }
  }

  /** Each value of the second pass over values bounded by m is at most
      20 * m in magnitude. */
  lemma RowsBound(t: seq<int>, m: int)
    requires |t| == 16 && forall p :: 0 <= p < 16 ==> Abs(t[p]) <= m
    ensures forall p :: 0 <= p < 16 ==> Abs(Rows(t)[p]) <= 20 * m
  {
    forall p | 0 <= p < 16
      ensures Abs(Rows(t)[p]) <= 20 * m
    {
      var r, c := p / 4, p % 4;
      assert p == 4 * r + c;
      RowsAt(t, r, c);
      RowCellBound(t, r, c, m);
    }
  }

  lemma RowCellBound(t: seq<int>, r: int, c: int, m: int)
    requires |t| == 16 && 0 <= r < 4 && 0 <= c < 4
    requires Abs(t[4 * r]) <= m && Abs(t[4 * r + 1]) <= m && Abs(t[4 * r + 2]) <= m && Abs(t[4 * r + 3]) <= m
    ensures Abs(RowCell(t, r, c)) <= 20 * m
  {
    var q := Butterfly(t[4 * r], t[4 * r + 1], t[4 * r + 2], t[4 * r + 3]);
    ButterflyBound(t[4 * r], t[4 * r + 1], t[4 * r + 2], t[4 * r + 3], m);
    AtBound(q, c, 5 * m);
    ScaledBound(At(q, c), 5 * m);
  }

  lemma AtBound(q: Quad, c: int, n: int)
    requires 0 <= c < 4
    requires Abs(q.q0) <= n && Abs(q.q1) <= n && Abs(q.q2) <= n && Abs(q.q3) <= n
    ensures Abs(At(q, c)) <= n
  {
  }

  lemma ScaledBound(v: int, m: int)
    requires Abs(v) <= m
    ensures Abs(4 * v) <= 4 * m
  {
  }

  /** On an int16_t block nothing wraps: the transform is the exact one. */
  lemma NoWrapOnInt16(x: seq<int>)
    requires IsInt16Block(x)
    ensures Fwht4x4Spec(x) == Rows(Columns(x))
  {
    ColumnsBound(x);
    WrappedFits(Columns(x));
    RowsBound(Columns(x), 5 * 32768);
    WrappedFits(Rows(Columns(x)));
  }

  /** Every output is a multiple of UNIT_QUANT_FACTOR: the scaled value is,
      and a wrap to 32 bits moves it by a multiple of 2^32. */
  lemma FwhtQuantized(x: seq<int>)
    requires |x| == 16
    ensures forall p :: 0 <= p < 16 ==> Fwht4x4Spec(x)[p] % TxfmCommon.UNIT_QUANT_FACTOR == 0
  {
    RowsQuantized(Wrapped(Columns(x)));
  }

  lemma RowsQuantized(t: seq<int>)
    requires |t| == 16
    ensures forall p :: 0 <= p < 16 ==> Wrapped(Rows(t))[p] % 4 == 0
  {
    forall p | 0 <= p < 16
      ensures Wrapped(Rows(t))[p] % 4 == 0
    {
      var r, c := p / 4, p % 4;
      assert p == 4 * r + c;
      RowsAt(t, r, c);
      WrapKeepsQuarter(RowCell(t, r, c));
    }
  }

  lemma WrapKeepsQuarter(v: int)
    requires v % 4 == 0
    ensures Wrap32(v) % 4 == 0
  {
    var w := v + 0x8000_0000;
    var k := w / 0x1_0000_0000;
    assert Wrap32(v) == v - 0x1_0000_0000 * k;
    assert Wrap32(v) == 4 * (v / 4 - 0x4000_0000 * k);
  }

  /** An all-zero block transforms to all zeros. */
  lemma FwhtOfZero(x: seq<int>)
    requires |x| == 16 && forall k :: 0 <= k < 16 ==> x[k] == 0
    ensures forall k :: 0 <= k < 16 ==> Fwht4x4Spec(x)[k] == 0
  {
    assert IsInt16Block(x);
    NoWrapOnInt16(x);
    ColumnsOfZero(x);
    RowsOfZero(Columns(x));
  }

  lemma ColumnsOfZero(x: seq<int>)
    requires |x| == 16 && forall k :: 0 <= k < 16 ==> x[k] == 0
    ensures forall k :: 0 <= k < 16 ==> Columns(x)[k] == 0
  {
    forall p | 0 <= p < 16
      ensures Columns(x)[p] == 0
    {
      var r, c := p / 4, p % 4;
      assert p == 4 * r + c;
      ColumnsAt(x, r, c);
      ColCellOfZero(x, r, c);
    }
  }

  lemma RowsOfZero(t: seq<int>)
    requires |t| == 16 && forall k :: 0 <= k < 16 ==> t[k] == 0
    ensures forall k :: 0 <= k < 16 ==> Rows(t)[k] == 0
  {
    forall p | 0 <= p < 16
      ensures Rows(t)[p] == 0
    {
      var r, c := p / 4, p % 4;
      assert p == 4 * r + c;
      RowsAt(t, r, c);
      RowCellOfZero(t, r, c);
    }
  }

  lemma ColCellOfZero(x: seq<int>, r: int, c: int)
    requires |x| == 16 && 0 <= r < 4 && 0 <= c < 4
    requires x[c] == 0 && x[4 + c] == 0 && x[8 + c] == 0 && x[12 + c] == 0
    ensures ColCell(x, r, c) == 0
  {
  }

  lemma RowCellOfZero(t: seq<int>, r: int, c: int)
    requires |t| == 16 && 0 <= r < 4 && 0 <= c < 4
    requires t[4 * r] == 0 && t[4 * r + 1] == 0 && t[4 * r + 2] == 0 && t[4 * r + 3] == 0
    ensures RowCell(t, r, c) == 0
  {
  }

  /** The first pass undone: each column of t through UnButterfly. */
  function UnColumns(t: seq<int>): (x: seq<int>)
    requires |t| == 16
    ensures |x| == 16
  {
    seq(16, p requires 0 <= p < 16 =>
      var c := p % 4;
      At(UnButterfly(Quad(t[c], t[4 + c], t[8 + c], t[12 + c])), p / 4))
  }

  /** The second pass undone: each row of y divided by UNIT_QUANT_FACTOR,
      then through UnButterfly. */
  function UnRows(y: seq<int>): (t: seq<int>)
    requires |y| == 16
    ensures |t| == 16
  {
    seq(16, p requires 0 <= p < 16 =>
      var r := p / 4;
      At(UnButterfly(Quad(y[4 * r] / 4, y[4 * r + 1] / 4, y[4 * r + 2] / 4, y[4 * r + 3] / 4)), p % 4))
  }

  /** The inverse Walsh-Hadamard transform of the lossless path, as a
      reference for what the forward transform keeps. */
  function InverseFwht(y: seq<int>): (x: seq<int>)
    requires |y| == 16
    ensures |x| == 16
  {
    UnColumns(UnRows(y))
  }

  /** Column c of the first pass is the butterfly of column c. */
  lemma ColumnOfColumns(x: seq<int>, c: int)
    requires |x| == 16 && 0 <= c < 4
    ensures var t := Columns(x);
      Quad(t[c], t[4 + c], t[8 + c], t[12 + c]) == Butterfly(x[c], x[4 + c], x[8 + c], x[12 + c])
  {
    ColumnsAt(x, 0, c);
    ColumnsAt(x, 1, c);
    ColumnsAt(x, 2, c);
    ColumnsAt(x, 3, c);
  }

  /** Row r of the second pass, divided by UNIT_QUANT_FACTOR, is the
      butterfly of row r. */
  lemma RowOfRows(t: seq<int>, r: int)
    requires |t| == 16 && 0 <= r < 4
    ensures var y := Rows(t);
      Quad(y[4 * r] / 4, y[4 * r + 1] / 4, y[4 * r + 2] / 4, y[4 * r + 3] / 4)
      == Butterfly(t[4 * r], t[4 * r + 1], t[4 * r + 2], t[4 * r + 3])
  {
    RowsAt(t, r, 0);
    RowsAt(t, r, 1);
    RowsAt(t, r, 2);
    RowsAt(t, r, 3);
  }

  lemma UnColumnsInverts(x: seq<int>)
    requires |x| == 16
    ensures UnColumns(Columns(x)) == x
  {
    var t := Columns(x);
    forall p | 0 <= p < 16
      ensures UnColumns(t)[p] == x[p]
    {
      var r, c := p / 4, p % 4;
      assert p == 4 * r + c;
      ColumnOfColumns(x, c);
      UnColumnsCell(t, x, r, c);
    }
  }

  /** A column of t that is the butterfly of the same column of x is
      undone by UnColumns. */
  lemma UnColumnsCell(t: seq<int>, x: seq<int>, r: int, c: int)
    requires |t| == 16 && |x| == 16 && 0 <= r < 4 && 0 <= c < 4
    requires Quad(t[c], t[4 + c], t[8 + c], t[12 + c]) == Butterfly(x[c], x[4 + c], x[8 + c], x[12 + c])
    ensures UnColumns(t)[4 * r + c] == x[4 * r + c]
  {
    assert (4 * r + c) / 4 == r && (4 * r + c) % 4 == c;
    ButterflyReversible(x[c], x[4 + c], x[8 + c], x[12 + c]);
    AtColumn(x, r, c);
  }

  lemma AtColumn(x: seq<int>, r: int, c: int)
    requires |x| == 16 && 0 <= r < 4 && 0 <= c < 4
    ensures At(Quad(x[c], x[4 + c], x[8 + c], x[12 + c]), r) == x[4 * r + c]
  {
  }

  lemma AtRow(t: seq<int>, r: int, c: int)
    requires |t| == 16 && 0 <= r < 4 && 0 <= c < 4
    ensures At(Quad(t[4 * r], t[4 * r + 1], t[4 * r + 2], t[4 * r + 3]), c) == t[4 * r + c]
  {
  }

  lemma UnRowsInverts(t: seq<int>)
    requires |t| == 16
    ensures UnRows(Rows(t)) == t
  {
    var y := Rows(t);
    forall p | 0 <= p < 16
      ensures UnRows(y)[p] == t[p]
    {
      var r, c := p / 4, p % 4;
      assert p == 4 * r + c;
      RowOfRows(t, r);
      UnRowsCell(y, t, r, c);
    }
  }

  /** A row of y that is four times the butterfly of the same row of t
      is undone by UnRows. */
  lemma UnRowsCell(y: seq<int>, t: seq<int>, r: int, c: int)
    requires |y| == 16 && |t| == 16 && 0 <= r < 4 && 0 <= c < 4
    requires Quad(y[4 * r] / 4, y[4 * r + 1] / 4, y[4 * r + 2] / 4, y[4 * r + 3] / 4)
      == Butterfly(t[4 * r], t[4 * r + 1], t[4 * r + 2], t[4 * r + 3])
    ensures UnRows(y)[4 * r + c] == t[4 * r + c]
  {
    assert (4 * r + c) / 4 == r && (4 * r + c) % 4 == c;
    ButterflyReversible(t[4 * r], t[4 * r + 1], t[4 * r + 2], t[4 * r + 3]);
    AtRow(t, r, c);
  }

  /** The lossless transform loses nothing: on int16_t blocks the inverse
      gives back the block. */
  lemma FwhtReversible(x: seq<int>)
    requires IsInt16Block(x)
    ensures InverseFwht(Fwht4x4Spec(x)) == x
  {
    NoWrapOnInt16(x);
    UnRowsInverts(Columns(x));
    UnColumnsInverts(x);
  }

  // ---------------------------------------------------------------------
  // av1_fwd_txfm, av1_lowbd_fwd_txfm_c, av1_highbd_fwd_txfm
  // ---------------------------------------------------------------------

  /** TX_SIZE: the nineteen transform sizes, width by height. */
  datatype TxSize =
    | Tx4x4 | Tx8x8 | Tx16x16 | Tx32x32 | Tx64x64
    | Tx4x8 | Tx8x4 | Tx8x16 | Tx16x8 | Tx16x32 | Tx32x16
    | Tx32x64 | Tx64x32 | Tx4x16 | Tx16x4 | Tx8x32 | Tx32x8
    | Tx16x64 | Tx64x16

  /** tx_size_wide_log2. */
  function WideLog2(t: TxSize): (n: nat)
    ensures 2 <= n <= 6
  {
    match t
    case Tx4x4 => 2 case Tx8x8 => 3 case Tx16x16 => 4 case Tx32x32 => 5 case Tx64x64 => 6
    case Tx4x8 => 2 case Tx8x4 => 3 case Tx8x16 => 3 case Tx16x8 => 4
    case Tx16x32 => 4 case Tx32x16 => 5 case Tx32x64 => 5 case Tx64x32 => 6
    case Tx4x16 => 2 case Tx16x4 => 4 case Tx8x32 => 3 case Tx32x8 => 5
    case Tx16x64 => 4 case Tx64x16 => 6
  }

  /** tx_size_high_log2. */
  function HighLog2(t: TxSize): (n: nat)
    ensures 2 <= n <= 6
  {
    match t
    case Tx4x4 => 2 case Tx8x8 => 3 case Tx16x16 => 4 case Tx32x32 => 5 case Tx64x64 => 6
    case Tx4x8 => 3 case Tx8x4 => 2 case Tx8x16 => 4 case Tx16x8 => 3
    case Tx16x32 => 5 case Tx32x16 => 4 case Tx32x64 => 6 case Tx64x32 => 5
    case Tx4x16 => 4 case Tx16x4 => 2 case Tx8x32 => 5 case Tx32x8 => 3
    case Tx16x64 => 6 case Tx64x16 => 4
  }

  /** tx_size_wide. */
  function Wide(t: TxSize): (w: int)
    ensures w == Pow2(WideLog2(t)) && 4 <= w <= 64
  {
    Pow2Values();
    Pow2(WideLog2(t))
  }

  /** tx_size_high. */
  function High(t: TxSize): (h: int)
    ensures h == Pow2(HighLog2(t)) && 4 <= h <= 64
  {
    Pow2Values();
    Pow2(HighLog2(t))
  }

  /** The fields of TxfmParam the forward transform reads. extTxUsed is
      av1_ext_tx_used[tx_set_type][tx_type], whose table is not part of
      this model. */
  datatype TxfmParam = TxfmParam(
    txType: int, txSize: TxSize, lossless: bool, bd: int, extTxUsed: bool,
    stxType: int)

  /** The transform the dispatch runs on the residual block: the lossless
      Walsh-Hadamard transform (av1_highbd_fwht4x4) or the 2-D transform
      av1_fwd_txfm2d_<size> of the given type, which is not part of this
      model. */
  datatype Kernel = Wht4x4 | Txfm2d(size: TxSize, txType: int, bd: int)

  /** The sizes with a 64-point side, whose only transform type is DCT_DCT. */
  predicate Has64(t: TxSize)
  {
    t in {Tx64x64, Tx32x64, Tx64x32, Tx16x64, Tx64x16}
  }

  /** av1_highbd_fwd_txfm: the switch on tx_size and the per-size
      wrappers; None where one of their asserts fails. */
  function HighbdFwdTxfm(p: TxfmParam): (r: Option<Kernel>)
    ensures r.Some? ==> p.extTxUsed
    ensures r == Some(Wht4x4) <==> p.extTxUsed && p.txSize == Tx4x4 && p.lossless && p.txType == Av1Txfm.DCT_DCT
    ensures r.Some? && r.value.Txfm2d? ==> r.value == Txfm2d(p.txSize, p.txType, p.bd)
    ensures r.Some? && r.value.Txfm2d? ==> !(p.txSize == Tx4x4 && p.lossless)
    ensures r.Some? && Has64(p.txSize) ==> p.txType == Av1Txfm.DCT_DCT
    ensures p.extTxUsed && !Has64(p.txSize) && !(p.txSize == Tx4x4 && p.lossless) ==> r.Some?
  {
    if !p.extTxUsed then None
    else match p.txSize
      case Tx4x4 =>
        if p.lossless then (if p.txType == Av1Txfm.DCT_DCT then Some(Wht4x4) else None)
        else Some(Txfm2d(Tx4x4, p.txType, p.bd))
      case Tx32x64 =>
        if p.txType == Av1Txfm.DCT_DCT then Some(Txfm2d(Tx32x64, p.txType, p.bd)) else None
      case Tx64x32 =>
        if p.txType == Av1Txfm.DCT_DCT then Some(Txfm2d(Tx64x32, p.txType, p.bd)) else None
      case Tx16x64 =>
        if p.txType == Av1Txfm.DCT_DCT then Some(Txfm2d(Tx16x64, Av1Txfm.DCT_DCT, p.bd)) else None
      case Tx64x16 =>
        if p.txType == Av1Txfm.DCT_DCT then Some(Txfm2d(Tx64x16, Av1Txfm.DCT_DCT, p.bd)) else None
      case Tx64x64 =>
        if p.txType == Av1Txfm.DCT_DCT then Some(Txfm2d(Tx64x64, Av1Txfm.DCT_DCT, p.bd)) else None
      case _ => Some(Txfm2d(p.txSize, p.txType, p.bd))
  }

  /** av1_lowbd_fwd_txfm_c: the C version only forwards to the
      high-bitdepth path. */
  function LowbdFwdTxfm(p: TxfmParam): (r: Option<Kernel>)
    ensures r == HighbdFwdTxfm(p)
  {
    HighbdFwdTxfm(p)
  }

  /** av1_fwd_txfm: 8-bit input takes the low-bitdepth entry, any other
      depth the high-bitdepth one; both choose the same transform. */
  function FwdTxfm(p: TxfmParam): (r: Option<Kernel>)
    ensures r == HighbdFwdTxfm(p)
  {
    if p.bd == 8 then LowbdFwdTxfm(p) else HighbdFwdTxfm(p)
  }

  // ---------------------------------------------------------------------
  // fwd_stxfm, av1_fwd_stxfm (CONFIG_IST)
  // ---------------------------------------------------------------------

  /** The sum of src[i] * kernel[base + i] for i < n: the inner loop of
      fwd_stxfm. */
  function DotAt(src: seq<int>, kernel: seq<int>, base: int, n: int): int
    requires 0 <= n <= |src| && 0 <= base && base + n <= |kernel|
  {
    if n == 0 then 0 else DotAt(src, kernel, base, n - 1) + src[n - 1] * kernel[base + n - 1]
  }

  /** Row j of the kernel against src. */
  function StxDot(src: seq<int>, kernel: seq<int>, n2: int, j: int): int
    requires 0 <= n2 <= |src| && 0 <= j < n2 && n2 * n2 <= |kernel|
  {
    RowInKernel(n2, j);
    DotAt(src, kernel, j * n2, n2)
  }

  lemma RowInKernel(n2: int, j: int)
    requires 0 <= j < n2
    ensures 0 <= j * n2 && j * n2 + n2 <= n2 * n2
  {
    assert j * n2 + n2 == (j + 1) * n2;
  }

  /** Output j of fwd_stxfm over n2 = size * size inputs: the dot product
      rounded by (coef + 64) >> 7. */
  function StxCoef(src: seq<int>, kernel: seq<int>, n2: int, j: int): int
    requires 0 <= n2 <= |src| && 0 <= j < n2 && n2 * n2 <= |kernel|
  {
    (StxDot(src, kernel, n2, j) + 64) / 128
  }

  /** The n2 outputs of fwd_stxfm. */
  function StxOut(src: seq<int>, kernel: seq<int>, n2: int): (out: seq<int>)
    requires 0 <= n2 <= |src| && n2 * n2 <= |kernel|
    ensures |out| == n2
  {
    seq(n2, j requires 0 <= j < n2 => StxCoef(src, kernel, n2, j))
  }

  /** Each output is the dot product divided by 128, rounded to nearest
      with ties upwards: it is RoundPowerOfTwo(dot, 7). */
  lemma StxCoefRounds(src: seq<int>, kernel: seq<int>, n2: int, j: int)
    requires 0 <= n2 <= |src| && 0 <= j < n2 && n2 * n2 <= |kernel|
    ensures var dot, r := StxDot(src, kernel, n2, j), StxCoef(src, kernel, n2, j);
      128 * r - 64 <= dot < 128 * r + 64 && r == RoundPowerOfTwo(dot, 7)
  {
    Pow2Values();
  }

  /** A zero input gives a zero output, whatever the kernel. */
  lemma StxOfZero(src: seq<int>, kernel: seq<int>, n2: int)
    requires 0 <= n2 <= |src| && n2 * n2 <= |kernel|
    requires forall i :: 0 <= i < n2 ==> src[i] == 0
    ensures forall j :: 0 <= j < n2 ==> StxOut(src, kernel, n2)[j] == 0
  {
    forall j | 0 <= j < n2
      ensures StxOut(src, kernel, n2)[j] == 0
    {
      RowInKernel(n2, j);
      DotOfZero(src, kernel, j * n2, n2);
    }
  }

  lemma {:induction false} DotOfZero(src: seq<int>, kernel: seq<int>, base: int, n: int)
    requires 0 <= n <= |src| && 0 <= base && base + n <= |kernel|
    requires forall i :: 0 <= i < n ==> src[i] == 0
    ensures DotAt(src, kernel, base, n) == 0
  {
    if n > 0 {
      DotOfZero(src, kernel, base, n - 1);
    }
  }

  /** fwd_stxfm: dst[j] is row j of the size^2 x size^2 kernel (the
      table entry g_stx4x4 or g_stx8x8 [mode][stx_idx][0], not part of
      this model) against the size^2 inputs, rounded by 7 bits. */
  method FwdStxfm(src: array<int>, dst: array<int>, kernel: seq<int>, size: int)
    requires src != dst
    requires size == 4 || size == 8
    requires size * size <= src.Length && size * size <= dst.Length
    requires size * size * (size * size) <= |kernel|
    modifies dst
    ensures dst[..size * size] == StxOut(src[..], kernel, size * size)
    ensures dst[size * size..] == old(dst[size * size..])
  {
    var n2 := size * size;
    for j := 0 to n2
      invariant forall k :: 0 <= k < j ==> dst[k] == StxCoef(src[..], kernel, n2, k)
      invariant dst[n2..] == old(dst[n2..])
    {
      RowInKernel(n2, j);
      var base := j * n2;
      var coef := 0;
      for i := 0 to n2
        invariant coef == DotAt(src[..], kernel, base, i)
      {
        coef := coef + src[i] * kernel[base + i];
      }
      dst[j] := (coef + 64) / 128;
    }
  }

  /** The block dimensions av1_fwd_stxfm works on, at most 32. */
  function StxWidth(t: TxSize): (w: int)
    ensures 4 <= w <= 32 && w <= Wide(t) && (Wide(t) <= 32 ==> w == Wide(t))
  {
    if Wide(t) <= 32 then Wide(t) else 32
  }

  function StxHeight(t: TxSize): (h: int)
    ensures 4 <= h <= 32 && h <= High(t) && (High(t) <= 32 ==> h == High(t))
  {
    if High(t) <= 32 then High(t) else 32
  }

  /** sbSize: the 8x8 secondary transform when both sides are at least 8,
      the 4x4 one otherwise. */
  function SbSize(t: TxSize): (n: int)
    ensures n == 4 || n == 8
    ensures n == 8 <==> StxWidth(t) >= 8 && StxHeight(t) >= 8
  {
    if StxWidth(t) >= 8 && StxHeight(t) >= 8 then 8 else 4
  }

  /** The scan order g_stx_scan_orders_{4x4,8x8}[log2width - 2] maps the
      n2 transform inputs to distinct coefficient positions. */
  predicate ScanFits(scan: seq<int>, n2: int, len: int)
  {
    0 <= n2 <= |scan|
    && (forall k :: 0 <= k < n2 ==> 0 <= scan[k] < len)
    && (forall k, l :: 0 <= k < l < n2 ==> scan[k] != scan[l])
  }

  /** The coefficients av1_fwd_stxfm gathers into buf0. */
  function Gather(coeff: seq<int>, scan: seq<int>, n2: int): (g: seq<int>)
    requires ScanFits(scan, n2, |coeff|)
    ensures |g| == n2
  {
    seq(n2, r requires 0 <= r < n2 => coeff[scan[r]])
  }

  /** av1_fwd_stxfm: when stx_type is set, the sbSize^2 coefficients at
      the scan positions go through the secondary transform with kernel
      stx_type - 1 of the intra mode, and the results are written back to
      the same positions. scan and kernel stand for the table entries
      the call selects for this size. */
  method FwdStxfmBlock(coeff: array<int>, p: TxfmParam, scan: seq<int>, kernel: seq<int>)
    requires ScanFits(scan, SbSize(p.txSize) * SbSize(p.txSize), coeff.Length)
    requires SbSize(p.txSize) * SbSize(p.txSize) * (SbSize(p.txSize) * SbSize(p.txSize)) <= |kernel|
    modifies coeff
    ensures p.stxType == 0 ==> coeff[..] == old(coeff[..])
    ensures p.stxType != 0 ==>
      var n2 := SbSize(p.txSize) * SbSize(p.txSize);
      var out := StxOut(Gather(old(coeff[..]), scan, n2), kernel, n2);
      (forall k :: 0 <= k < n2 ==> coeff[scan[k]] == out[k])
      && (forall q :: 0 <= q < coeff.Length && q !in scan[..n2] ==> coeff[q] == old(coeff[q]))
  {
    var width := StxWidth(p.txSize);
    var height := StxHeight(p.txSize);
    if width >= 4 && height >= 4 && p.stxType != 0 {
      var buf0 := new int[64](_ => 0);
      var buf1 := new int[64](_ => 0);
      var sbSize := if width >= 8 && height >= 8 then 8 else 4;
      var n2 := sbSize * sbSize;
      GatherScan(coeff, scan, buf0, n2);
      FwdStxfm(buf0, buf1, kernel, sbSize);
      StxOutPrefix(buf0[..], Gather(coeff[..], scan, n2), kernel, n2);
      ScatterScan(coeff, scan, buf1, n2);
    }
  }

  /** The first loop of av1_fwd_stxfm: buf0[r] = coeff[scan[r]]. */
  method GatherScan(coeff: array<int>, scan: seq<int>, buf: array<int>, n2: int)
    requires coeff != buf && ScanFits(scan, n2, coeff.Length) && n2 <= buf.Length
    modifies buf
    ensures buf[..n2] == Gather(coeff[..], scan, n2)
  {
    for r := 0 to n2
      invariant forall k :: 0 <= k < r ==> buf[k] == coeff[scan[k]]
    {
      buf[r] := coeff[scan[r]];
    }
  }

  /** The last loop of av1_fwd_stxfm: coeff[scan[i]] = buf1[i]. */
  method ScatterScan(coeff: array<int>, scan: seq<int>, buf: array<int>, n2: int)
    requires coeff != buf && ScanFits(scan, n2, coeff.Length) && n2 <= buf.Length
    modifies coeff
    ensures forall k :: 0 <= k < n2 ==> coeff[scan[k]] == buf[k]
    ensures forall q :: 0 <= q < coeff.Length && q !in scan[..n2] ==> coeff[q] == old(coeff[q])
  {
    for i := 0 to n2
      invariant forall k :: 0 <= k < i ==> coeff[scan[k]] == buf[k]
      invariant forall q :: 0 <= q < coeff.Length && q !in scan[..i] ==> coeff[q] == old(coeff[q])
    {
      assert forall k :: 0 <= k < i ==> scan[k] != scan[i];
      coeff[scan[i]] := buf[i];
    }
  }

  /** fwd_stxfm reads only the first n2 inputs. */
  lemma StxOutPrefix(a: seq<int>, b: seq<int>, kernel: seq<int>, n2: int)
    requires 0 <= n2 <= |a| && n2 <= |b| && a[..n2] == b[..n2] && n2 * n2 <= |kernel|
    ensures StxOut(a, kernel, n2) == StxOut(b, kernel, n2)
  {
    forall j | 0 <= j < n2
      ensures StxCoef(a, kernel, n2, j) == StxCoef(b, kernel, n2, j)
    {
      RowInKernel(n2, j);
      DotPrefix(a, b, kernel, j * n2, n2);
    }
  }

  lemma {:induction false} DotPrefix(a: seq<int>, b: seq<int>, kernel: seq<int>, base: int, n: int)
    requires 0 <= n <= |a| && n <= |b| && 0 <= base && base + n <= |kernel|
    requires forall i :: 0 <= i < n ==> a[i] == b[i]
    ensures DotAt(a, kernel, base, n) == DotAt(b, kernel, base, n)
  {
    if n > 0 {
      DotPrefix(a, b, kernel, base, n - 1);
    }
  }

}
