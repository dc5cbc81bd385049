/** The status values shared by the two swap tables. */
module SwapStatuses {

  datatype SwapStatus =
    | TxNotStable
    | TxVerifyFailed
    | TxWithWrongValue
    | TxNotSwapped
    | TxProcessed
    | MatchTxEmpty
    | MatchTxNotStable
    | MatchTxStable
    | TxWithBigValue
    | MatchTxFailed
    | SwapInBlacklist
    | ManualMakeFail
    | TxWithWrongPath
    | MissTokenConfig
    | NoUnderlyingToken
    | TxMaybeUnsafe
    | SwapoutForbidden
    | TxNeedReswap
    | KeepStatus
    | Reswapping

  /** A swap in one of these states may not be registered again. */
  predicate IsRegisteredOk(s: SwapStatus) {
    s in {TxNotStable, TxNotSwapped, TxProcessed, TxMaybeUnsafe, ManualMakeFail}
  }

  /** The states in which a swap may be registered: to be verified, or with what its first verification found. */
  predicate IsFirstStatus(s: SwapStatus) {
    s in {TxNotStable, TxWithWrongValue, TxWithWrongPath, MissTokenConfig, NoUnderlyingToken, TxMaybeUnsafe, SwapoutForbidden}
  }

  /** A result row in one of these states is waiting for its payout. */
  predicate IsPending(s: SwapStatus) {
    s == MatchTxEmpty || s == Reswapping
  }
}
