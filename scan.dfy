/** The coefficient-context helper and the scan-order lookup of
    av1/common/scan.h. */
module Scan {

  const MAX_NEIGHBORS: int := 2
  const TX_SIZES_ALL: int := 19
  const TX_TYPES: int := 16

  /** get_coef_context: the context of scan position c is the average of
      the tokens already coded at its two neighbours, rounded up. */
  function GetCoefContext(neighbors: seq<int>, tokenCache: seq<int>, c: int): (ctx: int)
    requires 0 <= c && MAX_NEIGHBORS * c + 1 < |neighbors|
    requires 0 <= neighbors[MAX_NEIGHBORS * c] < |tokenCache|
    requires 0 <= neighbors[MAX_NEIGHBORS * c + 1] < |tokenCache|
    ensures var t0, t1 := tokenCache[neighbors[MAX_NEIGHBORS * c]], tokenCache[neighbors[MAX_NEIGHBORS * c + 1]];
      t0 + t1 <= 2 * ctx <= t0 + t1 + 1
      && (t0 <= t1 ==> t0 <= ctx <= t1)
      && (t1 <= t0 ==> t1 <= ctx <= t0)
  {
    (1 + tokenCache[neighbors[MAX_NEIGHBORS * c + 0]] + tokenCache[neighbors[MAX_NEIGHBORS * c + 1]]) / 2
  }

  /** The context does not depend on the order of the two neighbours. */
  lemma CoefContextSymmetric(neighbors: seq<int>, tokenCache: seq<int>, c: int)
    requires 0 <= c && MAX_NEIGHBORS * c + 1 < |neighbors|
    requires 0 <= neighbors[MAX_NEIGHBORS * c] < |tokenCache|
    requires 0 <= neighbors[MAX_NEIGHBORS * c + 1] < |tokenCache|
    ensures var swapped := neighbors[MAX_NEIGHBORS * c := neighbors[MAX_NEIGHBORS * c + 1]]
                                    [MAX_NEIGHBORS * c + 1 := neighbors[MAX_NEIGHBORS * c]];
      GetCoefContext(swapped, tokenCache, c) == GetCoefContext(neighbors, tokenCache, c)
  {
  }

  /** A reference to an entry of av1_scan_orders, whose contents are not
      part of this model. */
  datatype ScanOrderRef = ScanOrderRef(txSize: int, txType: int)

  /** get_default_scan: &av1_scan_orders[tx_size][tx_type]. */
  function GetDefaultScan(txSize: int, txType: int): (s: ScanOrderRef)
    requires 0 <= txSize < TX_SIZES_ALL && 0 <= txType < TX_TYPES
    ensures s.txSize == txSize && s.txType == txType
  {
    ScanOrderRef(txSize, txType)
  }

  /** get_scan: the default scan of the size and type. */
  function GetScan(txSize: int, txType: int): (s: ScanOrderRef)
    requires 0 <= txSize < TX_SIZES_ALL && 0 <= txType < TX_TYPES
    ensures s == GetDefaultScan(txSize, txType)
  {
    GetDefaultScan(txSize, txType)
  }
}
