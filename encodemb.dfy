/** The trellis switch and the entropy-context fill of
    av1/encoder/encodemb.h. */
module EncodeMb {

  /** TRELLIS_OPT_TYPE */
  datatype TrellisOpt = NoTrellisOpt | FullTrellisOpt | FinalPassTrellisOpt | NoEstimateYrdTrellisOpt

  /** RUN_TYPE */
  datatype RunType = OutputEnabled | DryRunNormal | DryRunCostCoeffs

  /** to_use_trellis: never without trellis, only in the final (output)
      pass for the final-pass option, always for any other option. */
  function ToUseTrellis(optimizeB: TrellisOpt, dryRun: RunType): (r: bool)
    ensures optimizeB == NoTrellisOpt ==> !r
    ensures optimizeB == FinalPassTrellisOpt ==> (r <==> dryRun == OutputEnabled)
    ensures optimizeB != NoTrellisOpt && optimizeB != FinalPassTrellisOpt ==> r
  {
    optimizeB != NoTrellisOpt && !(optimizeB == FinalPassTrellisOpt && dryRun != OutputEnabled)
  }

  /** av1_set_txb_context: the entropy context byte of the block is copied
      into the first `wideUnit` above-context entries and the first
      `highUnit` left-context entries (tx_size_wide_unit and
      tx_size_high_unit of the transform size, which are passed in). */
  method SetTxbContext(txbEntropyCtx: seq<int>, block: int, wideUnit: int, highUnit: int,
                       a: array<int>, l: array<int>)
    requires 0 <= block < |txbEntropyCtx|
    requires 0 <= wideUnit <= a.Length && 0 <= highUnit <= l.Length
    requires a != l
    modifies a, l
    ensures forall i :: 0 <= i < wideUnit ==> a[i] == txbEntropyCtx[block]
    ensures forall i :: wideUnit <= i < a.Length ==> a[i] == old(a[i])
    ensures forall i :: 0 <= i < highUnit ==> l[i] == txbEntropyCtx[block]
    ensures forall i :: highUnit <= i < l.Length ==> l[i] == old(l[i])
  {
    var ctx := txbEntropyCtx[block];
    Fill(a, wideUnit, ctx);
    Fill(l, highUnit, ctx);
  }

  /** memset of the first n entries. */
  method Fill(dst: array<int>, n: int, v: int)
    requires 0 <= n <= dst.Length
    modifies dst
    ensures forall i :: 0 <= i < n ==> dst[i] == v
    ensures forall i :: n <= i < dst.Length ==> dst[i] == old(dst[i])
  {
    var i := 0;
    while i < n
      invariant 0 <= i <= n
      invariant forall k :: 0 <= k < i ==> dst[k] == v
      invariant forall k :: i <= k < dst.Length ==> dst[k] == old(dst[k])
    {
      dst[i] := v;
      i := i + 1;
    }
  }
}
