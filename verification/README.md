# CrossChain-Router in Dafny

CrossChain-Router watches deposits on one chain and pays them out on another. This project
models the parts of it that must not go wrong and proves what they promise:

- **the swap engine**: two tables (registered swaps and swap results) written by a verifying,
  a swapping, a replacing, a stabilising and a checking worker and by admin actions, against a
  destination chain on which each nonce of a sender is consumed once;
- **the nonce bookkeeping**: a counter per sender, used one payout at a time or by parallel
  allocation with recycling;
- **the swap value**: decimals conversion, fee rate and bounds, base-fee adjustment, and the
  threshold above which a swap needs a manual pass;
- **the UTXO builders**: Bitcoin coin selection with its fee loop, Cardano payouts and
  aggregations with minting, burning and transaction chaining;
- **three small indexes**: the config fallback, the ring of recent swaps, the flat log index
  of Cardano deposits.

## How it is organised

| file | content |
|---|---|
| `Options.dfy`, `SwapStatuses.dfy` | shared values |
| `Ledger.dfy`, `Store.dfy` | every database call as an atomic step, and as a method updating the tables in place |
| `Passes.dfy`, `Workers.dfy` | workers and admin actions as plans of writes that may be cut short anywhere, and as methods; runs of the whole system |
| `Payout.dfy`, `Origins.dfy`, `TwoTables.dfy`, `Stability.dfy`, `Progress.dfy` | the theorems about runs |
| `Outcomes.dfy`, `Lifecycle.dfy` | what each pass leads to, told by the tables and the chain alone, and the whole way of a deposit |
| `Nonces.dfy`, `NonceRuns.dfy` | the nonce setter, and its theorems for parallel and sequential use |
| `SwapValue.dfy`, `BigValue.dfy` | the arithmetic; in `BigValue.dfy` big integers are heap objects |
| `BtcSelection.dfy`, `BtcFee.dfy` | the Bitcoin builder |
| `CardanoBuild.dfy`, `CardanoChaining.dfy`, `CardanoLogIndex.dfy` | the Cardano bridge |
| `HistoryRing.dfy`, `ConfigFallback.dfy` | ring and config resolution |

A pass of a worker is a *plan*: a list of database calls and at most one delivery of a
transaction, decided from a fresh read. `Passes.Exec` carries a plan out under a fault script,
so that every theorem about runs covers a failing write and a crash after any write. `Workers`
holds the same passes as methods that follow the code, each proved to carry out its plan; in the
same way each method of `Store.SwapStore` is proved to be its database call. The table below names
one method of each of these two classes. What a call or a plan does is then stated once more without
naming it: by the rows it finds and leaves, in the `...Does` lemmas of `Ledger` and in `Outcomes`.

## What was found not to hold as one might expect

- A larger deposit can pay less when the combined rate is above one million, the base-fee
  percentage negative and the minimum fee below the maximum
  (`SwapValue.HighRateWithRebateIsNotMonotone`). `PayoutIsMonotoneIff` says exactly when it does:
  if the payout falls between the last deposit at the minimum fee and the first at the maximum.
- The reset of a negative fee to zero is reachable through the fee of the source chain, which no
  check bounds; `SwapValue.ResetIsReachableIff` has the exact condition.
- The threshold of a token with 18 decimals is discounted in the stored config itself, so it
  shrinks with every question (`BigValue.ThresholdVanishes`); `ThresholdSurvivesIff` says
  exactly when it does not.
- An aggregation burns only the own-policy asset it visits last. It conserves in every order
  exactly if its inputs list at most one own asset or nothing of any
  (`CardanoBuild.ConservesInEveryOrderIff`), and in some order exactly if they hold an amount of
  at most one (`ConservesInSomeOrderIff`).
- A Cardano payout to the router's own address does not conserve ADA; to any other it does.
- A swapout that is forbidden and whose register write fails leaves a result row beside an
  unverified register row, since that failure is ignored; `TwoTables.TablesAgreeIff` shows
  that nothing else does.
- A verified swap whose result row was not written stays unpaid: the swap worker wants to send it
  back to verification, but that write is always refused. `Progress.LostSwapIsNotPaid` shows that
  only a new registration after a blacklisting helps.
- Verification of a Cardano log index beyond the last slot resolves to output 0, slot 0, and
  of an index below 1 to a negative slot; `CardanoLogIndex.ResolvesItselfIff`, and `CrashesIff`
  for when that crashes.
- The history ring is bounded from capacity two on and grows without bound below
  (`HistoryRing.BoundedIff`); the program uses 1000.
- Bitcoin selection is smallest exactly for a positive target: for others it still takes one output.

## Model

| member | source | states |
|---|---|---|
| `Ledger.NonceIsWriteOnce` | mongodb/api.go:296-435 | a non-zero nonce of a result row is unchanged over any interleaving of calls up to an update to Reswapping |
| `Ledger.TxStaysRecorded` | mongodb/api.go:381-435 | a recorded swap tx is never emptied except by Reswapping or an old-tx append in TxNeedReswap |
| `Ledger.OneRecordingBetweenClears` | mongodb/api.go:715-788 | between any two effective guarded recordings of a swap tx lies a clear, so at most one takes effect between clears |
| `Ledger.CallIsLocal` | mongodb/api.go:44-435 | a call changes only rows of its own swap and removes none; a refused one leaves even these but for a timestamp |
| `Ledger.AcceptedInfoIsFixed` | mongodb/api.go:129-164 | while a swap stays registered and not rejected, no interleaving of calls changes its registered info |
| `Store.SwapStore.AllocateRouterSwapNonce` | mongodb/api.go:296-351 | a refusal leaves tables and counter alone; on success the counter advances or the recycled nonce empties, the row is written, and the register too unless that ignored write fails |
| `Workers.CarryIsExec` | worker/swap.go:352-461 | a pass without faults, as the methods carry it out, is the run step with a fault-free script |
| `Workers.Router.ProcessRouterSwap` | worker/swap.go:104-198 | carries out exactly the swap plan: every guard against a second attempt, and record before mark before send |
| `Payout.ReswapMeansExhausted` | mongodb/api.go:854-920 | when the reswap checks pass, every tx ever sent for the swap has not paid and can never land |
| `Payout.SwapPlanIsSafe` | worker/swap.go:352-461 | every write of a swap pass is justified, whichever earlier ones failed |
| `Payout.ReplacePlanIsSafe` | worker/replace.go:226-323 | the same for a replacement, which shares sender and nonce with the row |
| `Payout.StablePlanIsSafe` | worker/stable.go:151-207 | the same for the stable pass, which may exchange the current tx for an older one |
| `Payout.ReswapPlanIsSafe` | mongodb/api.go:854-907 | the same for the reswap, which forgets the txs of the attempt |
| `Payout.PassKeepsInv` | worker/common.go:60-184 | every pass, cut short anywhere, keeps: sent txs are recorded or dead, one sender and nonce per attempt |
| `Payout.InvHolds` | worker/swap.go:352-461 | that invariant in every world of every run |
| `Payout.AtMostOnePayout` | mongodb/api.go:854-920 | in every world of every run no two different successful txs pay one swap |
| `Payout.PayoutIsFinal` | mongodb/api.go:854-920 | once a swap is paid, that tx stays its only successful one for the rest of the run |
| `Payout.SentHasRowHolds` | worker/swap.go:352-461 | in every world of every run whatever was sent belongs to a swap with a result row |
| `Origins.VerifyAddsPayableIff` | worker/verify.go:217-278 | under every fault script a verification makes a swap payable iff it was TxNotStable, not blacklisted, found in order and not big, and both writes got through |
| `Origins.NewRowIsOpened` | worker/common.go:23-58 | under every fault script a result row appears only in a verification that found the deposit in order or forbidden, or in the release of a big value |
| `Origins.RowWasOpened` | worker/verify.go:217-278 | over runs: every result row was opened by such an earlier step |
| `Origins.OpenStepAdmits` | mongodb/api.go:823-851 | under every fault script a row becomes payable only by a verification in order or an admin release |
| `Origins.SentWasAdmitted` | worker/swap.go:352-461 | over runs: whatever was sent belongs to a swap that an earlier such step let through |
| `Origins.ForbiddenWasFound` | worker/verify.go:254-278 | over runs: a row is forbidden only from a verification that found so |
| `Origins.BigWasFound` | mongodb/status.go:129-151 | over runs: a swap waits for a big-value release only from a verification that found it big, never from its registration |
| `Origins.LandedWasLetThrough` | mongodb/api.go:823-851 | over runs: no tx is sent or lands for a swap unless it was verified in order, or found big or forbidden and later released |
| `TwoTables.SettledForever` | mongodb/api.go:70-164 | once a verified swap has a result row no sequence of calls brings back TxNotStable or changes its info |
| `TwoTables.TablesAgreeIff` | worker/verify.go:217-278 | every result row belongs to a register row that is past verification throughout a run iff no pass loses the ignored register write of a forbidden swapout; `Origins` says which step opened it |
| `TwoTables.RegisterIsFrozen` | mongodb/api.go:283-293 | the same as SettledForever over runs of passes with faults |
| `Stability.StableIsJustified` | worker/checkfailedswap.go:50-103 | MatchTxStable is reached only in two passes and only with a recorded tx on chain, not known failed, confirmed enough |
| `Stability.HeightWasRecorded` | worker/stable.go:151-207 | a height in a row was written by an earlier stable pass; `RecordedHeightIsReal` says which height |
| `Stability.RecordedHeightIsReal` | worker/stable.go:199-206 | in every world of every run a recorded height is the one at which a recorded tx of that swap landed |
| `Stability.StableSwapIsPaid` | tokens/types.go:164-179 | at that step of any run a confirmed tx pays this very swap, successfully if the chain reports status |
| `Progress.WaitingSwapCanBePaid` | worker/swap.go:219-241 | from every state in which a swap waits, one pass and one landing pay it |
| `Progress.ReswapWaitsIff` | mongodb/api.go:854-920 | a reswap makes a failed swap wait again iff its nonce is consumed and no recorded tx is on chain unfailed |
| `Progress.StablePassIff` | worker/stable.go:151-207 | a due stable pass marks the swap iff some recorded tx is confirmed, whatever the order of lookup |
| `Progress.CheckFailedPassIff` | worker/checkfailedswap.go:50-103 | the check of failed swaps does so under the same condition |
| `Progress.StoppedVerificationLosesSwap` | worker/verify.go:217-269 | a verification that stops between its two writes leaves a verified swap without a result row |
| `Progress.LostSwapIsNotPaid` | worker/swap.go:104-132 | such a swap gets no result row and no payout in any continuation of any run, unless it is registered anew while blacklisted |
| `Progress.LostSwapCanComeBack` | mongodb/api.go:129-164 | blacklisted, registered anew and verified, it waits for its payout again |
| `Outcomes.NewSwapIsRegistered` | internal/swapapi/api.go:139-178 | a new swap gets its register row |
| `Outcomes.KnownSwapIsRegistered` | internal/swapapi/api.go:139-178 | an accepted swap keeps its row, a rejected one without a result row gets new info and status |
| `Outcomes.BlacklistedDeposit` | worker/verify.go:190-198 | a blacklisted deposit ends in the blacklist whatever its verification says |
| `Outcomes.RejectedDeposit` | worker/verify.go:244-257 | a rejected deposit ends as what it was rejected for, else as failed, with no result row |
| `Outcomes.BigDeposit` | worker/verify.go:217-220 | a big deposit ends in TxWithBigValue with no result row |
| `Outcomes.UnstableDeposit` | worker/verify.go:227-243 | an unstable deposit keeps waiting with its height noted, and fails once too old |
| `Outcomes.VerifiedDeposit` | worker/verify.go:221-226 | a verified one is queued with exactly the first result row |
| `Outcomes.ForbiddenDeposit` | worker/verify.go:271-278 | a forbidden one is held back in both tables |
| `Outcomes.PassBigValueIff` | mongodb/api.go:823-837 | a big value is released iff it waits for that and has no result row |
| `Outcomes.PassForbiddenIff` | mongodb/api.go:840-851 | a forbidden swapout is released iff its result row is held back for that |
| `Outcomes.BlacklistedSwapIsStopped` | worker/swap.go:119-125 | a queued swap that is blacklisted by then is stopped in both tables |
| `Outcomes.SignedSwapIsSent` | worker/swap.go:352-461 | a signed payout leaves exactly the recorded row, the processed register row and the sent tx |
| `Outcomes.SwapPassSendsIff` | worker/swap.go:104-198 | a swap pass sends iff the swap is queued with an unpaid row, not blacklisted or delayed, with a sender and a signature; otherwise under no fault script |
| `Outcomes.PaidSwapIsTakenOff` | worker/swap.go:219-241 | a row with any trace of a payout is taken off the queue unsent |
| `Outcomes.DisagreementStopsIff` | worker/swap.go:549-590 | signers that disagree stop the swap iff its deposit fails the second verification |
| `Outcomes.ReplacementIsSent` | worker/replace.go:294-323 | a replacement becomes current, joins the list after the first tx and is sent |
| `Outcomes.ReplacePassSendsIff` | worker/replace.go:226-323 | a replacement is sent iff the swap is processed and unstable, none of its txs landed, its nonce is unused, sender and manual rule fit; otherwise under no fault script |
| `Outcomes.ConsumedNonceFails` | worker/stable.go:162-179 | with nothing on chain the stable pass gives up iff the nonce is used and the row old |
| `Outcomes.StablePassRecordsHeight` | worker/stable.go:199-206 | the first pass that finds the landed tx records that tx with its landing height and block time |
| `Outcomes.StablePassDecides` | worker/stable.go:181-197 | deep enough, the swap becomes stable, or failed iff the tx is known to have failed, with that tx as the current one |
| `Outcomes.EarlyStablePassWaits` | worker/stable.go:157-161 | before that nothing changes, under every fault script |
| `Outcomes.LandedSwapBecomesStable` | worker/stable.go:151-207 | two fault-free passes, the second at a deep enough tip, leave exactly the stable or failed row with height and tx |
| `Outcomes.CheckFailedWithoutTx` | worker/checkfailedswap.go:89-102 | with nothing on chain a failed swap is taken back iff its nonce may still be used |
| `Outcomes.CheckFailedWithTx` | worker/checkfailedswap.go:72-87 | with a tx on chain it stays failed iff that one is known failed, else is stable or not by its depth |
| `Outcomes.ReswapTakesBack` | mongodb/api.go:880-884 | a reswap takes back a swap one of whose txs is on chain unfailed |
| `Outcomes.ReswapClearsIff` | mongodb/api.go:886-907 | otherwise it refuses iff the nonce is unused, and else clears every trace of the attempt and queues the swap |
| `Lifecycle.FreshDepositIsPaid` | worker/swap.go:352-461 | registered, verified and swapped without faults, a deposit leaves exactly the two rows of its payout and the sent tx |
| `Lifecycle.DepositRunsThrough` | worker/stable.go:151-207 | that tx can land, and two stable passes later the result row holds exactly what was verified, signed and landed, failed iff the chain says so |
| `Nonces.FindNextSwapNonce` | mongodb/api.go:547-565 | one above the largest matched nonce, zero if nothing matches |
| `Nonces.NonceSetterBase.AdjustNonce` | tokens/base/noncesetter.go:60-81 | the counter or the report, never below the counter, not below the report unless that is above twice the counter plus 1000, and then the counter |
| `Nonces.NonceSetterBase.GetSwapNonce` | tokens/base/noncesetter.go:48-57 | the counter of the account, whatever the letter case, zero if there is none |
| `Nonces.FirstAnswerIsFirst` | tokens/base/noncesetter.go:84-105 | the answer used is that of the first try that got one among those allowed |
| `Nonces.NonceSetterBase.InitSwapNonce` | tokens/base/noncesetter.go:84-105 | the larger of the table's and the first answered report within the retries |
| `Nonces.NonceSetterBase.SetNonce` | tokens/base/noncesetter.go:108-129 | the counter becomes the larger of itself and the value; no other account changes |
| `Nonces.NonceSetterBase.AllocateNonce` | tokens/base/noncesetter.go:132-148 | a ready recycled nonce first, otherwise a fresh one, together with the table write |
| `Nonces.NonceSetterBase.TryAllocateRecycleNonce` | tokens/base/noncesetter.go:151-161 | hands out the waiting nonce once it is old enough, and empties it only on success |
| `Nonces.NonceSetterBase.RecycleSwapNonce` | tokens/base/noncesetter.go:164-179 | the waiting nonce stays if it is smaller, else the returned one replaces it with the time of its return |
| `ParallelNonces.BelowHolds` | tokens/base/noncesetter.go:84-179 | over any interleaving every recorded and every recycled nonce of a started-up sender is below its counter, whatever the table holds of other senders |
| `ParallelNonces.CounterCountsFresh` | tokens/base/noncesetter.go:132-148 | the counter moves by exactly the number of fresh hand-outs |
| `ParallelNonces.FreshNoncesAreConsecutive` | mongodb/api.go:296-351 | fresh nonces of a sender are consecutive and above every nonce in its rows |
| `ParallelNonces.RefusedAllocationConsumesNothing` | mongodb/api.go:296-351 | a refusal changes no row, no counter and no recycled nonce |
| `ParallelNonces.FreshHandoutIff` | tokens/base/noncesetter.go:132-148 | a fresh nonce is handed out iff the row has no nonce and no tx; it is the counter, which moves on by one |
| `ParallelNonces.RecycledHandoutIff` | tokens/base/noncesetter.go:151-161 | a recycled one iff one has waited for the lifetime and the row is free; then none waits |
| `ParallelNonces.HandoutIsRecorded` | mongodb/api.go:296-351 | either way the row holds nonce and sender and no other row changes |
| `ParallelNonces.ReturnKeepsSmaller` | tokens/base/noncesetter.go:164-179 | a return leaves the smaller of the waiting and the returned nonce waiting |
| `ParallelNonces.RecycledHandoutUsesReturn` | tokens/base/noncesetter.go:151-179 | a recycled hand-out gives the nonce of an earlier return unused since, at least the lifetime old and below the counter |
| `ParallelNonces.ReturnsAreUsedOnce` | tokens/base/noncesetter.go:151-179 | between two recycled hand-outs lies a return of the second one's nonce |
| `ParallelNonces.StartUp` | mongodb/api.go:547-565 | within three tries of the table query the sender is started up: counter above its rows, nothing to recycle; otherwise nothing changes; other senders untouched |
| `ParallelNonces.StartUpAll` | router/bridge/init.go:468-502 | after start-up of a chain every configured sender whose query got through meets the precondition of the run theorems |
| `SequentialNonces.LaterNoncesAreGreater` | tokens/base/noncesetter.go:48-129 | after a successful send every nonce chosen later for the sender is greater, whatever the node reports and whatever is replaced in between |
| `SequentialNonces.PlausibleReportIsHonoured` | tokens/base/noncesetter.go:60-81 | over runs: a nonce chosen with a plausible report is the larger of report and counter, with any other the counter |
| `SequentialNonces.FreshSendsNeverShareNonce` | worker/common.go:186-245 | of two successful payouts of a sender the later has the greater nonce, also with replacements sent while it was signed |
| `SequentialNonces.GetSeq` | tokens/cosmos/buildtx.go:186-211 | the nonce a payout chooses in a run, none if no try is answered |
| `SequentialNonces.SendSignedTransaction` | worker/common.go:186-245 | at most three tries per loop, stops at the first acceptance, raises the counter as a run step does |
| `SwapValue.CalcSwapValue` | tokens/base.go:328-415 | computes the payout for every setting: the value itself for other routers, zero without a fee config, else what the rows below say of `Payout` |
| `SwapValue.OneDecimal` | tokens/base.go:447-455 | one decimal more is a factor of ten |
| `SwapValue.ConvertUpComposes` | tokens/base.go:447-455 | upward conversions compose |
| `SwapValue.ConvertUpAndDown` | tokens/base.go:447-455 | up and down again gives the value back |
| `SwapValue.ConvertDownIsFloor` | tokens/base.go:447-455 | downward the result is the largest that converts back to at most the value |
| `SwapValue.TermsInForce` | tokens/base.go:338-355 | rates add up unless the fee is fixed, and each bound is the larger of the two |
| `SwapValue.WhitelistedPaysMinimum` | tokens/base.go:366-370 | a whitelisted caller is charged the converted minimum, whatever value and base fee |
| `SwapValue.FixedFeeIsCharged` | tokens/base.go:378-381 | a fixed fee is charged as configured where the source chain adds no rate and no higher minimum |
| `SwapValue.FeeIsByRate` | tokens/base.go:371-390 | without adjustment the fee f satisfies f * 1000000 <= value * rate < (f + 1) * 1000000 between the bounds, else it is the bound crossed |
| `SwapValue.AdjustmentIsPercentage` | tokens/base.go:392-401 | the adjustment is the base-fee percentage of the converted minimum, rounded down, and takes the fee to zero at most |
| `SwapValue.PayoutIsRest` | tokens/base.go:357-414 | what is left after the fee is paid in the decimals of the destination, nothing if the fee takes it all, everything if nothing is charged |
| `SwapValue.OneTokenStaysOneToken` | tokens/base.go:447-455 | one token of 6 decimals without a fee pays one of 18 decimals |
| `SwapValue.PayoutIsMonotone` | tokens/base.go:328-415 | a larger deposit never pays less, for every decimals pair, fixed-fee, whitelist and base-fee setting, if the rate is at most one million, the adjustment not negative, or the lower bound not below the upper |
| `SwapValue.PayoutIsMonotoneIff` | tokens/base.go:328-415 | for every setting with a base fee from minus 100 percent up: monotone for all deposits iff it is one of those or the payout at the first deposit with the maximum fee is no less than at the last one with the minimum fee |
| `SwapValue.HighRateWithRebateIsNotMonotone` | router/onchaincustom.go:39-72 | with an unchecked source rate and a rebate 60 pays less than 50 |
| `SwapValue.FeeStaysInBounds` | tokens/config.go:169-186 | for checked configs with bounds in order the fee lies between the converted bounds and the adjusted fee is not negative |
| `SwapValue.FeesNeverCreateValue` | tokens/cosmos/buildtx.go:233-257 | payout between zero and the converted deposit for every rate, source fee, order of bounds and base fee, so the bridge fee is not negative |
| `SwapValue.ResetIsReachableIff` | tokens/base.go:392-402 | under checked configs some deposit resets a negative fee to zero iff an adjustment applies, a rate is charged and the adjustment exceeds the converted maximum |
| `SwapValue.ResetIsReachableWithCrossedBounds` | router/onchaincustom.go:39-72 | with a source minimum above every maximum the reset does happen |
| `SwapValue.ConvertMonotone` | tokens/base.go:447-455 | conversion between any decimals keeps order and sign |
| `BigValue.GetBigValueThreshold` | tokens/base.go:284-296 | returns the discounted conversion of the stored threshold and hands out the stored object exactly at 18 decimals |
| `BigValue.ConvertTokenValue` | tokens/base.go:447-455 | the converted number, in a fresh object unless the decimals are equal, then in the argument itself; the rows on `Convert` above say which number |
| `BigValue.AnswerIsDiscounted` | tokens/base.go:284-296 | the threshold is the converted one, or its percentage rounded down for a discount between 0 and 100; it is stored back exactly at 18 decimals |
| `BigValue.IsBigValueSwap` | router/types.go:233-253 | big iff above the threshold of that moment, everything positive without a config; what is not big is within the converted maximum; the stored threshold afterwards |
| `BigValue.DecideAll` | router/types.go:233-253 | every decision and the stored threshold after any run of decisions against one config |
| `BigValue.AskAll` | tokens/base.go:284-296 | every answer and the stored value after any run of questions |
| `BigValue.ThresholdSurvivesIff` | tokens/base.go:284-296 | a run leaves the stored threshold alone iff no question has 18 decimals and a discount |
| `BigValue.AnswersArePromised` | tokens/base.go:284-296 | until then every answer is the promised one |
| `BigValue.ThresholdVanishes` | tokens/base.go:284-296 | enough such questions bring the stored threshold to zero |
| `BigValue.SmallValuesAreWithinMaximum` | tokens/config.go:149-166 | a value not above the threshold is within the converted maximum, also for a threshold worn down to zero |
| `BigValue.LetThroughIsWithinMaximum` | tokens/config.go:149-166 | in any run of decisions what is let through is within the converted maximum, however far the threshold was worn down |
| `BtcSelection.SelectUtxos` | tokens/btc/buildtx.go:189-247 | the first eligible outputs reaching the target with their exact sum; failure means no first few reach it |
| `BtcSelection.IsUsable` | tokens/btc/buildtx.go:189-247 | accepts exactly a valid amount in a fetched P2PKH output of the sender |
| `BtcSelection.SpendableIsFilter` | tokens/btc/buildtx.go:189-247 | the outputs considered are exactly the usable ones, each as often as listed |
| `BtcSelection.SelectionIsSmallest` | tokens/btc/types.go:126-133 | with one confirmation flag no choice of fewer eligible outputs reaches the target, iff the target is positive |
| `BtcSelection.UnconfirmedOnlyIfNeeded` | tokens/btc/types.go:126-133 | an unconfirmed output is used only if all eligible confirmed ones miss the target |
| `BtcFee.NewUnsignedTransaction` | tokens/btc/buildtx.go:103-176 | ends within as many retries as spendable outputs; the target fees start at that of one input, each next is the fee the last selection required and could not pay; the inputs are the selection for the last one; inputs = outputs + change + fee |
| `BtcFee.Finish` | tokens/btc/buildtx.go:103-176 | with change the fee is exactly the required one, without it the excess is zero or dust; fails iff change is due and there is no change script |
| `BtcFee.CountScripts` | tokens/btc/buildtx.go:103-176 | each counter is the number of inputs of its kind |
| `BtcFee.RequiredFeeByKind` | tokens/btc/buildtx.go:103-176 | the fee is that of the size with as many inputs of each kind as the counts of that kind among the inputs |
| `CardanoBuild.BuildTx` | tokens/cardano/buildtx.go:96-200 | succeeds iff the fewest covering inputs can pay; the receiver gets the amount, with 1.5 ADA beside a token and nothing else; conserves every asset iff the receiver is not the router; change above the fixed ADA after any fee up to the maximum |
| `CardanoBuild.TakeInputs` | tokens/cardano/buildtx.go:96-200 | takes the shortest covering prefix, with totals modulo 64 bits |
| `CardanoBuild.Split` | tokens/cardano/buildtx.go:96-200 | what receiver and router get of each asset; mints exactly the missing amount of an own asset, fails for a foreign one |
| `CardanoBuild.SplitIsPayout` | tokens/cardano/buildtx.go:96-204 | that split conserves every asset for every receiver but the router |
| `CardanoBuild.AdjustRestAda` | tokens/cardano/buildtx.go:254-271 | the fee comes out of the router's ADA and nothing else changes |
| `CardanoBuild.MaxFeeCoversEverySize` | tokens/cardano/buildtx.go:96-200 | the reserved fee is at least the linear fee of every size up to the largest, and equals it there |
| `CardanoBuild.AggregateBurns` | tokens/cardano/aggregate.go:47-64 | exactly the last own asset visited is burnt, with its whole sum |
| `CardanoBuild.AggregatePays` | tokens/cardano/aggregate.go:34-68 | the router gets the whole sum of every asset that is not its own and nothing of its own |
| `CardanoBuild.BuildAggregateTx` | tokens/cardano/aggregate.go:15-69 | succeeds iff the inputs are well formed and list an own asset; what it builds for every order of visiting; conserves if at most one own asset is listed, not if amounts of two are there |
| `CardanoBuild.AggregateConservesIff` | tokens/cardano/aggregate.go:34-68 | in a given order every asset is conserved iff nothing is there of any own asset but the last one visited |
| `CardanoBuild.ConservesInEveryOrderIff` | tokens/cardano/aggregate.go:47-64 | whatever the order, conserved iff the inputs list at most one own asset or nothing of any |
| `CardanoBuild.ConservesInSomeOrderIff` | tokens/cardano/aggregate.go:47-64 | in some order conserved iff the inputs hold an amount of at most one own asset |
| `CardanoBuild.TwoOwnAssetsLoseOne` | tokens/cardano/aggregate.go:47-64 | an output with 7 and 8 of two own assets loses one of them in either order |
| `CardanoChaining.ChainingCache.AddTransactionChainingKeyCache` | tokens/cardano/cardanoCmd.go:23-28 | adds exactly the inputs of the tx to the spent map |
| `CardanoChaining.ChainingCache.ClearTransactionChainingKeyCache` | tokens/cardano/cardanoCmd.go:30-38 | removes exactly the inputs of the tx and its list, nothing for an unknown hash |
| `CardanoChaining.ChainingCache.SendTransaction` | tokens/cardano/sendtx.go:6-20 | if the node accepts, the chained key and its amounts are those of this change and its inputs are spent; else nothing changes |
| `CardanoChaining.ChainingCache.QueryUtxo` | tokens/cardano/buildtx.go:440-524 | the chained change if it holds the amount and the largest fee, nothing if it holds the asset but too little ADA, otherwise what the node lists and no live tx spends |
| `CardanoChaining.CacheInvHolds` | tokens/cardano/cardanoCmd.go:23-38 | over any run the spent map is the union of the live input lists, these are disjoint, and the chained key is not spent |
| `CardanoChaining.OfferedIsUnspent` | tokens/cardano/buildtx.go:440-524 | no offered output is an input of a live tx |
| `CardanoChaining.LiveTransactionsShareNoInput` | tokens/cardano/sendtx.go:15-18 | two live txs never share an input |
| `CardanoChaining.ChangeIsOfLastSent` | tokens/cardano/sendtx.go:6-20 | over runs: chained key and amounts are those of the last accepted tx |
| `CardanoChaining.SpentUntilCleared` | tokens/cardano/cardanoCmd.go:23-38 | over runs: sent inputs stay spent until their tx is cleared, and are free after that |
| `CardanoLogIndex.ResolveInvertsFlat` | tokens/cardano/register.go:70-117 | indexes 1..total and (output, slot) pairs correspond one to one, and the walk is that correspondence |
| `CardanoLogIndex.ResolvesItselfIff` | tokens/cardano/verifytx.go:78-91 | an index resolves to its own slot iff it is in 1..total, and where others go |
| `CardanoLogIndex.NumberingIsInOrder` | tokens/cardano/register.go:70-117 | numbers start at 1 with the first slot and go on slot by slot, then output by output |
| `CardanoLogIndex.SlotIsWorth` | tokens/cardano/verifytx.go:170-193 | what a slot is worth or why it is refused, by address, value and tokens of its output alone, both ways |
| `CardanoLogIndex.RegisterSwapTx` | tokens/cardano/register.go:70-117 | the entries are exactly the deposits, by what the outputs hold, at the asked or at every number; the error for unordered outputs, an index out of range, or nothing found |
| `CardanoLogIndex.VerifySwapoutTx` | tokens/cardano/verifytx.go:78-91 | slot 0 gives the ADA above 2000000 lovelace, slot 1 the lone token, of an output of the router; every other slot its error; unordered iff an output the walk reaches is; exactly when it crashes |
| `CardanoLogIndex.RegisteredIsVerified` | tokens/cardano/verifytx.go:170-193 | every deposit the outputs hold is listed once under its number with its worth, nothing else is, and verification of that number finds the same deposit |
| `CardanoLogIndex.CrashesIff` | tokens/cardano/verifytx.go:170-193 | a lookup reads outside a list iff there are no outputs, or the index is below 1 and the first output is the router's with at most one token |
| `HistoryRing.HoldsTheLast` | worker/swap.go:605-628 | after any additions exactly the last min(n, capacity) items in order |
| `HistoryRing.BoundedIff` | worker/swap.go:605-628 | the bound holds for all histories iff the capacity is at least two |
| `HistoryRing.Len` | worker/swap.go:605-628 | walking the links counts every node of the ring once |
| `HistoryRing.History.DropOldest` | worker/swap.go:605-628 | unlinks exactly the oldest node and keeps a proper ring |
| `HistoryRing.History.AddSwapHistory` | worker/swap.go:605-628 | the linked ring does one addition of the bounded queue |
| `HistoryRing.History.GetSwapHistory` | worker/swap.go:630-648 | finds an entry iff a matching key is held: the oldest if it matches, else the newest match |
| `ConfigFallback.LoadConfigs` | router/bridge/init.go:199-338 | nothing is stored if a check fails; else each pair of supported chains gets the first existing of its four candidates and no other pair anything; for distinct chains these are the pairs of two different ones |
| `ConfigFallback.LoadSwapConfigs` | router/bridge/init.go:199-267 | that rule for swap configs and their check |
| `ConfigFallback.LoadFeeConfigs` | router/bridge/init.go:270-338 | that rule for fee configs and their check |
| `ConfigFallback.Choose` | README.md:59-73 | the nested lookups give the first existing candidate of the documented four |
| `ConfigFallback.FallbackOrder` | README.md:59-73 | that candidate is the exact pair, else any destination, else any source, else any of both |
| `ConfigFallback.ChecksRefuse` | tokens/config.go:149-186 | a config passes iff none of the listed reasons for refusal holds |
| `ConfigFallback.ListedIsLast` | router/bridge/init.go:212-236 | of duplicates the last in the list counts |
| `ConfigFallback.ResolvedIsUnique` | README.md:59-73 | the documented rule leaves one answer per pair |
| `ConfigFallback.StoredIsChecked` | tokens/config.go:149-186 | whatever is stored passed its check |
| `ConfigFallback.LoadedFeesNeverCreateValue` | tokens/base.go:328-415 | under loaded fee configs no payout is negative or above the converted deposit, whatever the source chain adds |

## Assumptions of the theorems about runs

- A pass works on a fresh read and no other pass on the same key runs between its writes; its
  writes may fail and it may stop after any of them.
- The hash sent is the hash signed, signing is a fixed assignment of hashes to transactions
  (swap, sender, nonce), and a status query answers exactly for transactions on chain.
- The chain only moves forward: landed transactions and consumed nonces stay.
- A nonce that is returned for recycling was recorded in a row of its sender at some time, and in
  parallel mode only allocations write nonces.
- The payouts of one sender choose, sign and send one after the other in sequential mode;
  replacements come at any moment.
- In the nonce theorems the result table holds the rows of one destination chain, since the query
  at start-up selects the chain first. They speak about one sender that start-up initialised; a
  table may hold rows of any other.
- A Cardano transaction is submitted once and its hash is new.

## Left out

- The background loop that sends a transaction again (worker/common.go:247-285) and records that
  cross from one pass into another: wall-clock timing decides there.
- The Cardano timeout reswap (worker/reswap.go) and the parallel signing queue
  (worker/swap.go:463-547) in the payout theorem; the ledger theorems cover their database calls.
- The request handling of a registration (internal/swapapi/api.go): a registration is a plan of database calls with one of the states that mongodb/status.go:129-151 can give.
- The in-memory caches of keys being processed and of disagreements, and chain pausing: they only keep passes from starting.
- Fault scripts in module Workers: its methods are the fault-free passes, the faults are in the runs.
- A database error of the result write inside an allocation: it is a refusal like the others and changes nothing.
- MongoDB sorting, limits and regular expressions; a query for the rows of a sender may return any superset of them.
- Case-insensitive comparison of hashes and addresses outside the nonce setter: both are taken in one canonical spelling.
- The wrap-around of nonces at 64 bits and of Bitcoin totals in signed 64 bits.
- The sort itself of Bitcoin outputs: the selection theorems hold for any list in the order of `Less`.
- The order in which Go visits a map: it is a parameter of the aggregation and the theorems cover all orders.
- The API variants of the Cardano queries and of its log index, the metadata checks after a deposit was located, and quantity parsing (a quantity is a number or malformed).
- BtcSelection.UnconfirmedOnlyIfNeeded: for a positive target, because with nothing to pay the first output is taken in any case.
- The fresh query of spendable outputs in each retry of the Bitcoin fee loop: one fixed list is used, as its termination needs.
- Sharing of one config object by several chain pairs in the fallback: there configs are values; module BigValue has them as objects.
- Aptos and the other bridges, MPC signing, transaction encoding and size estimates (functions given from outside), RPC, HTTP and command-line layers, log files and gateway health checks.
