/**
  What each pass leads to when nothing fails, told by the tables and the chain it starts from
  and not by its plan.
 */
module Outcomes {
  import opened SwapStatuses
  import opened Ledger
  import opened Passes
  import opened Payout
  import opened Stability
  import opened Workers
  import opened Progress
  import opened Options

  /** The world after a pass under a fault script. */
  function After(w: World, p: Pass, ok: seq<bool>): World {
    Exec(w, Plan(w, p), ok)
  }

  lemma CarryOne(w: World, a: Write)
    ensures Carry(w, [a]) == Perform(w, a.effect).0
  {
    assert [a][1..] == [];
  }

  /** Nothing was sent and the chain was not touched. */
  predicate OnlyTables(w: World, w': World) {
    w' == w.(db := w'.db)
  }

  // ---------------------------------------------------------------- registration

  lemma NewSwapIsRegistered(w: World, k: Key, swap: Swap, env: Env, ok: seq<bool>)
    requires k !in w.db.swaps && FaultFree(ok)
    ensures After(w, Register(k, swap, env), ok) == w.(db := Db(w.db.swaps[k := swap], w.db.results))
  {
    var plan := RegisterPlan(w, k, swap, env);
    CarryIsExec(w, plan, ok);
    CarryOne(w, plan[0]);
  }

  /** An accepted swap keeps its row but for a timestamp; a rejected one without a result row gets new info and status. */
  lemma KnownSwapIsRegistered(w: World, k: Key, swap: Swap, env: Env, ok: seq<bool>)
    requires k in w.db.swaps && FaultFree(ok)
    ensures var row, w' := w.db.swaps[k], After(w, Register(k, swap, env), ok);
            && OnlyTables(w, w') && w'.db.results == w.db.results && SameElsewhere(w.db.swaps, w'.db.swaps, k) && k in w'.db.swaps
            && (IsAccepted(w.db, k) ==> w'.db.swaps[k].(timestamp := 0) == row.(timestamp := 0))
            && (!IsAccepted(w.db, k) && k in w.db.results ==> w'.db.swaps[k] == row)
            && (!IsAccepted(w.db, k) && k !in w.db.results ==>
                  w'.db.swaps[k] == Swap(swap.info, swap.status, row.txHeight, env.now, env.now * 1000, swap.memo))
  {
    var plan := RegisterPlan(w, k, swap, env);
    CarryIsExec(w, plan, ok);
    if plan != [] { CarryOne(w, plan[0]); }
  }

  // ---------------------------------------------------------------- verification

  /** Only a swap in TxNotStable is verified. */
  lemma NothingToVerify(w: World, k: Key, verdict: Verdict, env: Env, ok: seq<bool>)
    requires k !in w.db.swaps || w.db.swaps[k].status != TxNotStable
    ensures After(w, Verify(k, verdict, env), ok) == w
  {
  }

  /** The register row ends in this state and the result table is untouched. */
  ghost predicate EndsAs(w: World, w': World, k: Key, status: SwapStatus) {
    && OnlyTables(w, w') && w'.db.results == w.db.results && SameElsewhere(w.db.swaps, w'.db.swaps, k)
    && k in w.db.swaps && k in w'.db.swaps && w'.db.swaps[k].status == status && w'.db.swaps[k].info == w.db.swaps[k].info
  }

  lemma VerifyWithOneWrite(w: World, k: Key, verdict: Verdict, env: Env, ok: seq<bool>, status: SwapStatus, memo: string)
    requires k in w.db.swaps && FaultFree(ok) && status != TxNotStable
    requires VerifyPlan(w, k, verdict, env) == [Must(SetSwapStatus(k, status, env.now, memo))]
    ensures EndsAs(w, After(w, Verify(k, verdict, env), ok), k, status)
  {
    var plan := VerifyPlan(w, k, verdict, env);
    CarryIsExec(w, plan, ok);
    CarryOne(w, plan[0]);
  }

  /** A deposit of a blacklisted swap ends in the blacklist, whatever its verification says. */
  lemma BlacklistedDeposit(w: World, k: Key, verdict: Verdict, env: Env, ok: seq<bool>)
    requires HasStatus(w.db, k, TxNotStable) && env.blacklisted && FaultFree(ok)
    ensures EndsAs(w, After(w, Verify(k, verdict, env), ok), k, SwapInBlacklist)
  {
    VerifyWithOneWrite(w, k, verdict, env, ok, SwapInBlacklist, "swap in blacklist");
  }

  predicate HasStatus(db: Db, k: Key, status: SwapStatus) {
    k in db.swaps && db.swaps[k].status == status
  }

  /** A rejected deposit ends as what it was rejected for, or as failed, and gets no result row. */
  lemma RejectedDeposit(w: World, k: Key, status: SwapStatus, memo: string, env: Env, ok: seq<bool>)
    requires HasStatus(w.db, k, TxNotStable) && !env.blacklisted && FaultFree(ok)
    ensures var named := status == TxWithWrongValue || status == TxWithWrongPath || status == MissTokenConfig ||
                         status == NoUnderlyingToken || status == TxMaybeUnsafe;
            EndsAs(w, After(w, Verify(k, Rejected(status, memo), env), ok), k, if named then status else TxVerifyFailed)
  {
    var named := status == TxWithWrongValue || status == TxWithWrongPath || status == MissTokenConfig ||
                 status == NoUnderlyingToken || status == TxMaybeUnsafe;
    VerifyWithOneWrite(w, k, Rejected(status, memo), env, ok, if named then status else TxVerifyFailed, memo);
  }

  /** A big one waits for the admin. */
  lemma BigDeposit(w: World, k: Key, info: string, env: Env, ok: seq<bool>)
    requires HasStatus(w.db, k, TxNotStable) && !env.blacklisted && FaultFree(ok)
    ensures EndsAs(w, After(w, Verify(k, Verified(info, true), env), ok), k, TxWithBigValue)
  {
    VerifyWithOneWrite(w, k, Verified(info, true), env, ok, TxWithBigValue, "big swap value");
  }

  /** One that is not stable yet keeps waiting with its height noted, and is given up once it is too old. */
  lemma UnstableDeposit(w: World, k: Key, height: nat, tooOld: bool, memo: string, env: Env, ok: seq<bool>)
    requires HasStatus(w.db, k, TxNotStable) && k !in w.db.results && !env.blacklisted && FaultFree(ok)
    ensures var w' := After(w, Verify(k, Unstable(height, tooOld, memo), env), ok);
            && EndsAs(w, w', k, if tooOld then TxVerifyFailed else TxNotStable)
            && w'.db.swaps[k].txHeight == if height > 0 then height else w.db.swaps[k].txHeight
  {
    var note := Try(SetHeight(k, height));
    var a, b := Try(SetSwapStatus(k, TxVerifyFailed, env.now, memo)), Try(SetResultStatus(k, TxVerifyFailed, env.now, memo));
    var w1 := if height > 0 then Perform(w, note.effect).0 else w;
    UnstablePlanIs(w, k, height, tooOld, memo, env);
    CarryIsExec(w, VerifyPlan(w, k, Unstable(height, tooOld, memo), env), ok);
    if tooOld {
      if height > 0 { CarryThree(w, note, a, b); }
      CarryTwo(w1, a, b);
      GivesUp(w1, k, env.now, memo);
    } else if height > 0 {
      CarryOne(w, note);
    }
  }

  lemma UnstablePlanIs(w: World, k: Key, height: nat, tooOld: bool, memo: string, env: Env)
    requires HasStatus(w.db, k, TxNotStable) && !env.blacklisted
    ensures var note := Try(SetHeight(k, height));
            var a, b := Try(SetSwapStatus(k, TxVerifyFailed, env.now, memo)), Try(SetResultStatus(k, TxVerifyFailed, env.now, memo));
            VerifyPlan(w, k, Unstable(height, tooOld, memo), env) ==
            if tooOld then if height > 0 then [note, a, b] else [a, b] else if height > 0 then [note] else []
  {
  }

  lemma GivesUp(w: World, k: Key, now: int, memo: string)
    requires k in w.db.swaps && k !in w.db.results
    ensures var w1 := Perform(w, OnDb(SetSwapStatus(k, TxVerifyFailed, now, memo))).0;
            var w2 := Perform(w1, OnDb(SetResultStatus(k, TxVerifyFailed, now, memo))).0;
            EndsAs(w, w2, k, TxVerifyFailed) && w2.db.swaps[k].txHeight == w.db.swaps[k].txHeight
  {
  }

  /** The row that starts a payout or holds a forbidden one. */
  function FirstRow(info: string, status: SwapStatus, now: int): Result {
    Result(info, "", "", [], 0, 0, "0", 0, status, now, "", 0)
  }

  /** A verified one of ordinary value gets its result row and waits for its payout. */
  lemma VerifiedDeposit(w: World, k: Key, info: string, env: Env, ok: seq<bool>)
    requires HasOnly(w.db, k, TxNotStable) && !env.blacklisted && FaultFree(ok)
    ensures After(w, Verify(k, Verified(info, false), env), ok) ==
            w.(db := Db(w.db.swaps[k := w.db.swaps[k].(status := TxNotSwapped, timestamp := env.now)],
                        w.db.results[k := FirstRow(info, MatchTxEmpty, env.now)]))
  {
    var plan := VerifyPlan(w, k, Verified(info, false), env);
    CarryIsExec(w, plan, ok);
    CarryTwo(w, plan[0], plan[1]);
  }

  /** A forbidden swapout is held back in both tables. */
  lemma ForbiddenDeposit(w: World, k: Key, info: string, env: Env, ok: seq<bool>)
    requires HasOnly(w.db, k, TxNotStable) && !env.blacklisted && FaultFree(ok)
    ensures After(w, Verify(k, Forbidden(info), env), ok) ==
            w.(db := Db(w.db.swaps[k := w.db.swaps[k].(status := SwapoutForbidden, timestamp := env.now)],
                        w.db.results[k := FirstRow(info, SwapoutForbidden, env.now)]))
  {
    var plan := VerifyPlan(w, k, Forbidden(info), env);
    CarryIsExec(w, plan, ok);
    CarryTwo(w, plan[0], plan[1]);
  }

  // ---------------------------------------------------------------- admin releases

  /** The admin pass of a big value releases exactly a swap that waits for it. */
  lemma PassBigValueIff(w: World, k: Key, info: string, env: Env, ok: seq<bool>)
    requires FaultFree(ok)
    ensures var w' := After(w, PassBigValue(k, info, env), ok);
            if HasOnly(w.db, k, TxWithBigValue)
            then Waits(w'.db, k) && w'.db.results == w.db.results[k := FirstRow(info, MatchTxEmpty, env.now)] && OnlyTables(w, w')
            else w' == w
  {
    var plan := PassBigValuePlan(w, k, info, env);
    CarryIsExec(w, plan, ok);
    if plan != [] { CarryTwo(w, plan[0], plan[1]); }
  }

  /** That of a forbidden swapout releases exactly a result row that is held back for it. */
  lemma PassForbiddenIff(w: World, k: Key, env: Env, ok: seq<bool>)
    requires FaultFree(ok)
    ensures var w' := After(w, PassForbidden(k, env), ok);
            if k in w.db.results && w.db.results[k].status == SwapoutForbidden
            then && w'.db.results == w.db.results[k := w.db.results[k].(status := MatchTxEmpty, timestamp := env.now)]
                 && (k in w.db.swaps ==> HasStatus(w'.db, k, TxNotSwapped)) && OnlyTables(w, w')
            else w' == w
  {
    var plan := PassForbiddenPlan(w, k, env);
    CarryIsExec(w, plan, ok);
    if plan != [] { CarryTwo(w, plan[0], plan[1]); }
  }

  /** Forbidding a swap by hand stops it in both tables. */
  lemma ForbidStops(w: World, k: Key, env: Env, memo: string, ok: seq<bool>)
    requires FaultFree(ok)
    ensures var w' := After(w, Forbid(k, env, memo), ok);
            && OnlyTables(w, w')
            && (k in w.db.swaps ==> HasStatus(w'.db, k, ManualMakeFail))
            && (k in w.db.results ==> k in w'.db.results && w'.db.results[k].status == ManualMakeFail)
  {
    var plan := Plan(w, Forbid(k, env, memo));
    CarryIsExec(w, plan, ok);
    CarryTwo(w, plan[0], plan[1]);
  }

  /** The same rows, both in the blacklist. */
  ghost predicate IsBlacklisted(w: World, w': World, k: Key) {
    && OnlyTables(w, w') && SameElsewhere(w.db.swaps, w'.db.swaps, k) && SameElsewhere(w.db.results, w'.db.results, k)
    && (k in w.db.swaps ==> HasStatus(w'.db, k, SwapInBlacklist))
    && (k in w.db.results <==> k in w'.db.results)
    && (k in w.db.results ==>
          w'.db.results[k] == w.db.results[k].(status := SwapInBlacklist, timestamp := w'.db.results[k].timestamp, memo := "swap in blacklist"))
  }

  lemma BlacklistPlanStops(w: World, k: Key, env: Env, ok: seq<bool>)
    requires FaultFree(ok)
    ensures IsBlacklisted(w, Exec(w, BlacklistPlan(k, env), ok), k)
  {
    var plan := BlacklistPlan(k, env);
    CarryIsExec(w, plan, ok);
    CarryTwo(w, plan[0], plan[1]);
  }

  // ---------------------------------------------------------------- the swap pass

  /** A waiting swap that is blacklisted by then is stopped in both tables and not paid. */
  lemma BlacklistedSwapIsStopped(w: World, k: Key, env: Env, signed: Signed, ok: seq<bool>)
    requires HasStatus(w.db, k, TxNotSwapped) && env.blacklisted && FaultFree(ok)
    ensures IsBlacklisted(w, After(w, DoSwap(k, env, signed), ok), k)
  {
    BlacklistPlanStops(w, k, env, ok);
  }

  /** The row has never been paid: no nonce, no transaction, no height, in one of the two waiting states. */
  predicate IsUnpaid(r: Result) {
    r.swapNonce == 0 && r.swapTx == "" && r.swapHeight == 0 && r.oldSwapTxs == [] && (r.status == MatchTxEmpty || r.status == Reswapping)
  }

  predicate MaySwap(db: Db, k: Key, env: Env) {
    && HasStatus(db, k, TxNotSwapped) && k in db.results && IsUnpaid(db.results[k])
    && !env.blacklisted && !env.delayed && env.routerMPC != ""
  }

  /** A signed payout is recorded with all its data and sent. */
  lemma SignedSwapIsSent(w: World, k: Key, env: Env, h: TxHash, nonce: nat, value: string, ttl: nat, ok: seq<bool>)
    requires MaySwap(w.db, k, env) && h != "" && value != "" && FaultFree(ok)
    ensures var w', r := After(w, DoSwap(k, env, SignedTx(h, nonce, value, ttl)), ok), w.db.results[k];
            && w'.sent == w.sent + {h} && w'.chain == w.chain && w'.book == w.book
            && w'.db.results == w.db.results[k := Result(r.info, env.routerMPC, h, [], 0, r.swapTime, value, nonce, MatchTxNotStable,
                                                         env.now, "", if ttl != 0 then ttl else r.ttl)]
            && w'.db.swaps == w.db.swaps[k := w.db.swaps[k].(status := TxProcessed, timestamp := env.now)]
  {
    var record := Must(UpdateResult(k, RecordItems(h, nonce, env.routerMPC, value, env.now, ttl)));
    var mark, send := Must(SetSwapStatus(k, TxProcessed, env.now, "")), Write(Deliver(h), true);
    var plan := SwapPlan(w, k, env, SignedTx(h, nonce, value, ttl));
    assert plan == [record, mark, send];
    CarryIsExec(w, plan, ok);
    CarryThree(w, record, mark, send);
    PayoutIsRecorded(w, k, h, nonce, env.routerMPC, value, env.now, ttl);
    var w1 := Perform(w, record.effect).0;
    CarryTwo(w1, mark, send);
    PayoutIsMarked(w1, k, env.now);
  }

  lemma PayoutIsRecorded(w: World, k: Key, h: TxHash, nonce: nat, mpc: string, value: string, now: int, ttl: nat)
    requires k in w.db.results && IsUnpaid(w.db.results[k]) && h != "" && value != "" && mpc != ""
    ensures var r := w.db.results[k];
            Perform(w, OnDb(UpdateResult(k, RecordItems(h, nonce, mpc, value, now, ttl)))) ==
            (w.(db := Db(w.db.swaps, w.db.results[k := Result(r.info, mpc, h, [], 0, r.swapTime, value, nonce, MatchTxNotStable,
                                                              now, "", if ttl != 0 then ttl else r.ttl)])), true)
  {
  }

  lemma PayoutIsMarked(w: World, k: Key, now: int)
    requires k in w.db.swaps
    ensures Perform(w, OnDb(SetSwapStatus(k, TxProcessed, now, ""))) ==
            (w.(db := Db(w.db.swaps[k := w.db.swaps[k].(status := TxProcessed, timestamp := now)], w.db.results)), true)
  {
  }

  lemma SwapPlanWithoutSend(w: World, k: Key, env: Env, signed: Signed, i: nat)
    requires !MaySwap(w.db, k, env) || !signed.SignedTx?
    requires i < |SwapPlan(w, k, env, signed)|
    ensures SwapPlan(w, k, env, signed)[i].effect.OnDb?
  {
  }

  lemma {:induction false} SendsNothing(w: World, plan: seq<Write>, ok: seq<bool>)
    requires forall i :: 0 <= i < |plan| ==> plan[i].effect.OnDb?
    ensures Exec(w, plan, ok).sent == w.sent
    decreases |plan|
  {
    if plan != [] && ok != [] {
      SendsNothing(w, plan[1..], ok[1..]);
      SendsNothing(Perform(w, plan[0].effect).0, plan[1..], ok[1..]);
    }
  }

  /** The swap pass sends under exactly these conditions, and under no fault script otherwise. */
  lemma SwapPassSendsIff(w: World, k: Key, env: Env, signed: Signed, ok: seq<bool>)
    requires signed.SignedTx? ==> signed.hash != "" && signed.hash !in w.sent && signed.value != ""
    ensures FaultFree(ok) ==>
              (After(w, DoSwap(k, env, signed), ok).sent != w.sent <==> signed.SignedTx? && MaySwap(w.db, k, env))
    ensures !(signed.SignedTx? && MaySwap(w.db, k, env)) ==> After(w, DoSwap(k, env, signed), ok).sent == w.sent
  {
    if signed.SignedTx? && MaySwap(w.db, k, env) {
      if FaultFree(ok) { SignedSwapIsSent(w, k, env, signed.hash, signed.nonce, signed.value, signed.ttl, ok); }
    } else {
      forall i | 0 <= i < |SwapPlan(w, k, env, signed)| ensures SwapPlan(w, k, env, signed)[i].effect.OnDb? {
        SwapPlanWithoutSend(w, k, env, signed, i);
      }
      SendsNothing(w, SwapPlan(w, k, env, signed), ok);
    }
  }

  /** A swap whose row carries a trace of a payout is taken off the queue. */
  lemma PaidSwapIsTakenOff(w: World, k: Key, env: Env, signed: Signed, ok: seq<bool>)
    requires HasStatus(w.db, k, TxNotSwapped) && k in w.db.results && !IsUnpaid(w.db.results[k])
    requires !env.blacklisted && !env.delayed && FaultFree(ok)
    ensures EndsAs(w, After(w, DoSwap(k, env, signed), ok), k, TxProcessed)
  {
    var plan := SwapPlan(w, k, env, signed);
    CarryIsExec(w, plan, ok);
    CarryOne(w, plan[0]);
  }

  /** A build failure with a delay leaves a memo in the row; one without leaves nothing. */
  lemma FailedBuildLeavesMemo(w: World, k: Key, env: Env, memo: string, ok: seq<bool>)
    requires MaySwap(w.db, k, env) && FaultFree(ok)
    ensures var w' := After(w, DoSwap(k, env, BuildFailed(memo)), ok);
            w' == if memo == "" then w
                  else w.(db := w.db.(results := w.db.results[k := w.db.results[k].(memo := memo, timestamp := env.now)]))
  {
    var plan := SwapPlan(w, k, env, BuildFailed(memo));
    CarryIsExec(w, plan, ok);
    if plan != [] { CarryOne(w, plan[0]); }
  }

  /** Signers that disagree stop a waiting swap exactly if its deposit fails the second verification. */
  lemma DisagreementStopsIff(w: World, k: Key, env: Env, fails: bool, ok: seq<bool>)
    requires MaySwap(w.db, k, env) && FaultFree(ok)
    ensures var w' := After(w, DoSwap(k, env, Disagree(fails)), ok);
            && OnlyTables(w, w') && w'.db.swaps == w.db.swaps && k in w'.db.results
            && (!fails ==> w'.db == w.db)
            && (fails ==> w'.db.results[k].status == TxNotStable && !MaySwap(w'.db, k, env))
  {
    var plan := SwapPlan(w, k, env, Disagree(fails));
    CarryIsExec(w, plan, ok);
    if plan != [] { CarryTwo(w, plan[0], plan[1]); }
  }

  // ---------------------------------------------------------------- replacement

  ghost predicate NoneLanded(w: World, k: Key)
    requires k in w.db.results
  {
    forall h :: KnownTx(w.db.results[k], h) ==> h !in w.chain.landed
  }

  /** The nonce of the row is consumed. */
  predicate NonceIsUsed(w: World, r: Result) {
    r.swapNonce > 0 && Latest(w.chain, r.mpc) > r.swapNonce
  }

  ghost predicate MayReplace(w: World, k: Key, manual: bool, env: Env) {
    && HasStatus(w.db, k, TxProcessed) && k in w.db.results && !env.blacklisted
    && var r := w.db.results[k];
    && r.status == MatchTxNotStable && r.swapTx != "" && r.mpc == env.routerMPC
    && (manual || (r.swapNonce != 0 && r.swapHeight == 0))
    && NoneLanded(w, k) && !NonceIsUsed(w, r)
  }

  lemma LookupIff(w: World, k: Key, confKnown: bool)
    requires k in w.db.results
    ensures FindOnChain(w.chain, w.db.results[k], confKnown).None? <==> NoneLanded(w, k)
  {
    Found(w.chain, w.db.results[k], confKnown);
  }

  lemma ReplacePlanIs(w: World, k: Key, manual: bool, env: Env, h: TxHash, nonce: nat, value: string, ttl: nat)
    requires MayReplace(w, k, manual, env)
    ensures ReplacePlan(w, k, manual, env, SignedTx(h, nonce, value, ttl)) ==
            [Try(UpdateResult(k, KEEP.(timestamp := env.now))), Must(AppendOldTx(k, h, env.now)), Write(Deliver(h), true)]
  {
    LookupIff(w, k, env.confKnown);
  }

  function Replaced(r: Result, h: TxHash, now: int): Result {
    r.(swapTx := h, timestamp := now, oldSwapTxs := (if r.oldSwapTxs == [] then [r.swapTx] else r.oldSwapTxs) + [h])
  }

  lemma CarryReplacement(w: World, k: Key, h: TxHash, now: int)
    requires IsSentOut(w, k) && h != "" && !KnownTx(w.db.results[k], h)
    ensures Carry(w, [Try(UpdateResult(k, KEEP.(timestamp := now))), Must(AppendOldTx(k, h, now)), Write(Deliver(h), true)]) ==
            w.(sent := w.sent + {h}, db := w.db.(results := w.db.results[k := Replaced(w.db.results[k], h, now)]))
  {
    var touch, add, send := Try(UpdateResult(k, KEEP.(timestamp := now))), Must(AppendOldTx(k, h, now)), Write(Deliver(h), true);
    CarryThree(w, touch, add, send);
    var w1 := Perform(w, touch.effect).0;
    assert w1 == w.(db := w.db.(results := w.db.results[k := w.db.results[k].(timestamp := now)]));
    CarryTwo(w1, add, send);
    assert [w.db.results[k].swapTx] + [h] == [w.db.results[k].swapTx, h];
    assert OldTxAppended(w1.db.results[k], h, now) == Replaced(w.db.results[k], h, now);
    assert w1.db.results[k := Replaced(w.db.results[k], h, now)] == w.db.results[k := Replaced(w.db.results[k], h, now)];
  }

  /** A replacement becomes the current transaction, joins the list of all of its attempt, and is sent. */
  lemma ReplacementIsSent(w: World, k: Key, manual: bool, env: Env, h: TxHash, nonce: nat, value: string, ttl: nat, ok: seq<bool>)
    requires MayReplace(w, k, manual, env) && h != "" && !KnownTx(w.db.results[k], h) && FaultFree(ok)
    ensures var w', r := After(w, Replace(k, manual, env, SignedTx(h, nonce, value, ttl)), ok), w.db.results[k];
            && w' == w.(sent := w.sent + {h}, db := w'.db) && w'.db.swaps == w.db.swaps
            && w'.db.results == w.db.results[k := Replaced(r, h, env.now)]
  {
    ReplacePlanIs(w, k, manual, env, h, nonce, value, ttl);
    CarryIsExec(w, ReplacePlan(w, k, manual, env, SignedTx(h, nonce, value, ttl)), ok);
    CarryReplacement(w, k, h, env.now);
  }

  lemma ReplacePlanWithoutSend(w: World, k: Key, manual: bool, env: Env, signed: Signed, i: nat)
    requires !MayReplace(w, k, manual, env) || !signed.SignedTx?
    requires i < |ReplacePlan(w, k, manual, env, signed)|
    ensures ReplacePlan(w, k, manual, env, signed)[i].effect.OnDb?
  {
    if k in w.db.results { LookupIff(w, k, env.confKnown); }
  }

  /** A replacement is sent under exactly these conditions, and under no fault script otherwise. */
  lemma ReplacePassSendsIff(w: World, k: Key, manual: bool, env: Env, signed: Signed, ok: seq<bool>)
    requires signed.SignedTx? ==> signed.hash != "" && signed.hash !in w.sent &&
                                  (k in w.db.results ==> !KnownTx(w.db.results[k], signed.hash))
    ensures FaultFree(ok) ==>
              (After(w, Replace(k, manual, env, signed), ok).sent != w.sent <==> signed.SignedTx? && MayReplace(w, k, manual, env))
    ensures !(signed.SignedTx? && MayReplace(w, k, manual, env)) ==> After(w, Replace(k, manual, env, signed), ok).sent == w.sent
  {
    if signed.SignedTx? && MayReplace(w, k, manual, env) {
      if FaultFree(ok) { ReplacementIsSent(w, k, manual, env, signed.hash, signed.nonce, signed.value, signed.ttl, ok); }
    } else {
      forall i | 0 <= i < |ReplacePlan(w, k, manual, env, signed)| ensures ReplacePlan(w, k, manual, env, signed)[i].effect.OnDb? {
        ReplacePlanWithoutSend(w, k, manual, env, signed, i);
      }
      SendsNothing(w, ReplacePlan(w, k, manual, env, signed), ok);
    }
  }

  lemma BlacklistedReplacement(w: World, k: Key, manual: bool, env: Env, signed: Signed, ok: seq<bool>)
    requires k in w.db.swaps && k in w.db.results && env.blacklisted && FaultFree(ok)
    ensures IsBlacklisted(w, After(w, Replace(k, manual, env, signed), ok), k)
  {
    BlacklistPlanStops(w, k, env, ok);
  }

  // ---------------------------------------------------------------- the stable pass

  /** Only the result row of the swap changes, to this. */
  predicate BecomesRow(w: World, w': World, k: Key, r: Result) {
    w' == w.(db := w.db.(results := w.db.results[k := r]))
  }

  predicate IsSentOut(w: World, k: Key) {
    k in w.db.results && w.db.results[k].status == MatchTxNotStable
  }

  /** With nothing on chain the pass gives up exactly on an old row whose nonce is consumed. */
  lemma ConsumedNonceFails(w: World, k: Key, env: Env, ok: seq<bool>)
    requires IsSentOut(w, k) && w.db.results[k].swapHeight == 0 && NoneLanded(w, k) && FaultFree(ok)
    ensures var w', r := After(w, Stable(k, env), ok), w.db.results[k];
            if NonceIsUsed(w, r) && r.timestamp < env.sepTime
            then BecomesRow(w, w', k, r.(status := MatchTxFailed, timestamp := env.now)) else w' == w
  {
    LookupIff(w, k, env.confKnown);
    var plan := StablePlan(w, k, env);
    CarryIsExec(w, plan, ok);
    if plan != [] { CarryOne(w, plan[0]); }
  }

  lemma StablePlanFinds(w: World, k: Key, env: Env, h: TxHash)
    requires Inv(w) && IsSentOut(w, k) && w.db.results[k].swapHeight == 0
    requires KnownTx(w.db.results[k], h) && h in w.chain.landed
    ensures h != ""
    ensures StablePlan(w, k, env) ==
            [Must(UpdateResult(k, KEEP.(swapTx := if h != w.db.results[k].swapTx then h else "", timestamp := env.now,
                                        swapHeight := w.chain.landed[h].height, swapTime := env.blockTime)))]
  {
    LookupFindsIt(w, k, h, env.confKnown);
    assert h in w.sent;
  }

  /** The first pass that finds the landed transaction records it with its height and time. */
  lemma StablePassRecordsHeight(w: World, k: Key, env: Env, h: TxHash, ok: seq<bool>)
    requires Inv(w) && IsSentOut(w, k) && w.db.results[k].swapHeight == 0 && FaultFree(ok)
    requires KnownTx(w.db.results[k], h) && h in w.chain.landed && w.chain.landed[h].height > 0
    ensures var r := w.db.results[k];
            BecomesRow(w, After(w, Stable(k, env), ok), k,
                       r.(swapTx := h, swapHeight := w.chain.landed[h].height, timestamp := env.now,
                          swapTime := if env.blockTime != 0 then env.blockTime else r.swapTime))
  {
    StablePlanFinds(w, k, env, h);
    var plan, r := StablePlan(w, k, env), w.db.results[k];
    CarryIsExec(w, plan, ok);
    CarryOne(w, plan[0]);
    HeightIsWritten(w, k, if h != r.swapTx then h else "", w.chain.landed[h].height, env.blockTime, env.now);
  }

  lemma HeightIsWritten(w: World, k: Key, tx: TxHash, height: nat, time: nat, now: int)
    requires IsSentOut(w, k) && height > 0
    ensures var r := w.db.results[k];
            BecomesRow(w, Perform(w, OnDb(UpdateResult(k, KEEP.(swapTx := tx, swapHeight := height, swapTime := time, timestamp := now)))).0, k,
                       r.(swapTx := if tx != "" then tx else r.swapTx, swapHeight := height, timestamp := now,
                          swapTime := if time != 0 then time else r.swapTime))
  {
  }

  /** Deep enough for the configured number of confirmations. */
  predicate IsDeep(c: Chain, h: TxHash) {
    h in c.landed && c.landed[h].height + c.required <= c.tip
  }

  predicate IsKnownFailure(c: Chain, h: TxHash) {
    h in c.landed && c.reportsStatus && !c.landed[h].ok
  }

  /** A later pass, once the transaction is deep enough, marks the swap by how it ended, with that transaction as the current one. */
  lemma StablePassDecides(w: World, k: Key, env: Env, h: TxHash, ok: seq<bool>)
    requires Inv(w) && IsSentOut(w, k) && w.db.results[k].swapHeight != 0 && KnownTx(w.db.results[k], h) && FaultFree(ok)
    requires w.db.results[k].swapHeight + w.chain.required <= env.cachedTip && env.confKnown && IsDeep(w.chain, h)
    ensures var r := w.db.results[k];
            BecomesRow(w, After(w, Stable(k, env), ok), k,
                       r.(swapTx := h, status := if IsKnownFailure(w.chain, h) then MatchTxFailed else MatchTxStable, timestamp := env.now))
  {
    assert h in w.sent;
    LookupFindsIt(w, k, h, true);
    StablePlanIs(w, k, env, h);
    CarryIsExec(w, StablePlan(w, k, env), ok);
    CarryMark(w, k, h, if IsKnownFailure(w.chain, h) then MatchTxFailed else MatchTxStable, env.now);
  }

  lemma StablePlanIs(w: World, k: Key, env: Env, h: TxHash)
    requires IsSentOut(w, k) && w.db.results[k].swapHeight != 0 && env.confKnown && IsDeep(w.chain, h)
    requires w.db.results[k].swapHeight + w.chain.required <= env.cachedTip
    requires FindOnChain(w.chain, w.db.results[k], true) == Some((h, Query(w.chain, h, true).value))
    ensures var status := if IsKnownFailure(w.chain, h) then MatchTxFailed else MatchTxStable;
            var mark := Must(SetResultStatus(k, status, env.now, ""));
            StablePlan(w, k, env) ==
            if h == w.db.results[k].swapTx then [mark] else [Try(UpdateResult(k, KEEP.(swapTx := h, timestamp := env.now))), mark]
  {
  }

  lemma CarryMark(w: World, k: Key, h: TxHash, status: SwapStatus, now: int)
    requires IsSentOut(w, k) && h != "" && status != Reswapping
    ensures var mark := Must(SetResultStatus(k, status, now, ""));
            var plan := if h == w.db.results[k].swapTx then [mark] else [Try(UpdateResult(k, KEEP.(swapTx := h, timestamp := now))), mark];
            BecomesRow(w, Carry(w, plan), k, w.db.results[k].(swapTx := h, status := status, timestamp := now))
  {
    var exchange, mark := Try(UpdateResult(k, KEEP.(swapTx := h, timestamp := now))), Must(SetResultStatus(k, status, now, ""));
    if h == w.db.results[k].swapTx {
      CarryOne(w, mark);
      StatusIsSet(w, k, status, now);
    } else {
      CarryTwo(w, exchange, mark);
      TxIsExchanged(w, k, h, now);
      StatusIsSet(Perform(w, exchange.effect).0, k, status, now);
    }
  }

  lemma TxIsExchanged(w: World, k: Key, h: TxHash, now: int)
    requires IsSentOut(w, k) && h != ""
    ensures BecomesRow(w, Perform(w, OnDb(UpdateResult(k, KEEP.(swapTx := h, timestamp := now)))).0, k,
                       w.db.results[k].(swapTx := h, timestamp := now))
  {
  }

  lemma StatusIsSet(w: World, k: Key, status: SwapStatus, now: int)
    requires k in w.db.results && status != Reswapping
    ensures BecomesRow(w, Perform(w, OnDb(SetResultStatus(k, status, now, ""))).0, k,
                       w.db.results[k].(status := status, timestamp := now))
  {
  }

  /** Before that it leaves the swap alone, under every fault script. */
  lemma EarlyStablePassWaits(w: World, k: Key, env: Env, ok: seq<bool>)
    requires Inv(w) && IsSentOut(w, k) && w.db.results[k].swapHeight != 0
    requires var r := w.db.results[k];
             || r.swapHeight + w.chain.required > env.cachedTip
             || (forall h :: KnownTx(r, h) && h in w.chain.landed ==> !IsDeep(w.chain, h) && w.chain.required > 0)
    ensures After(w, Stable(k, env), ok) == w
  {
    Found(w.chain, w.db.results[k], env.confKnown);
  }

  /** Only swaps that were sent and are not stable yet are looked at. */
  lemma NothingToStabilise(w: World, k: Key, env: Env, ok: seq<bool>)
    requires !IsSentOut(w, k)
    ensures After(w, Stable(k, env), ok) == w
  {
  }

  lemma TipKeepsInv(w: World, tip: nat)
    requires Inv(w)
    ensures Inv(w.(chain := w.chain.(tip := tip)))
  {
    var w' := w.(chain := w.chain.(tip := tip));
    forall h | h in w'.sent ensures h != "" && h in w'.book && (Current(w', h) || Dead(w'.book, w'.chain, h)) {
      assert Current(w, h) || Dead(w.book, w.chain, h);
      if Current(w, h) { assert Current(w', h); }
    }
    forall g, h | g in w'.chain.landed && h in w'.chain.landed && SameSlot(w'.book, g, h) ensures g == h {
      assert SameSlot(w.book, g, h);
    }
    forall k | k in w'.db.results ensures RowInv(w'.book, k, w'.db.results[k]) {
      assert RowInv(w.book, k, w.db.results[k]);
    }
  }

  /**
    A landed payout becomes stable in two passes: the first records it, and the second, at a tip
    deep enough, marks the swap stable, or failed if the transaction is known to have failed.
   */
  lemma LandedSwapBecomesStable(w: World, k: Key, first: Env, second: Env, h: TxHash, tip: nat, ok: seq<bool>)
    requires Inv(w) && IsSentOut(w, k) && w.db.results[k].swapHeight == 0 && FaultFree(ok)
    requires KnownTx(w.db.results[k], h) && h in w.chain.landed && w.chain.landed[h].height > 0
    requires w.chain.landed[h].height + w.chain.required <= tip && tip <= second.cachedTip && second.confKnown
    ensures var w1 := After(w, Stable(k, first), ok);
            var w2 := After(w1.(chain := w1.chain.(tip := tip)), Stable(k, second), ok);
            var r := w.db.results[k];
            BecomesRow(w.(chain := w.chain.(tip := tip)), w2, k,
                       r.(swapTx := h, swapHeight := w.chain.landed[h].height, timestamp := second.now,
                          swapTime := if first.blockTime != 0 then first.blockTime else r.swapTime,
                          status := if IsKnownFailure(w.chain, h) then MatchTxFailed else MatchTxStable))
  {
    StablePassRecordsHeight(w, k, first, h, ok);
    PassKeepsInv(w, Stable(k, first), ok);
    var w1 := After(w, Stable(k, first), ok);
    assert Step(w, RunPass(Stable(k, first), ok)) == w1;
    TipKeepsInv(w1, tip);
    StablePassDecides(w1.(chain := w1.chain.(tip := tip)), k, second, h, ok);
  }

  // ---------------------------------------------------------------- failed swaps

  /** A pass with a plan of one status write, or none. */
  lemma OneStatusWrite(w: World, k: Key, plan: seq<Write>, w': World, status: SwapStatus, now: int, ok: seq<bool>)
    requires k in w.db.results && FaultFree(ok) && w' == Exec(w, plan, ok) && status != Reswapping
    requires plan == [Must(SetResultStatus(k, status, now, ""))] || plan == [Try(SetResultStatus(k, status, now, ""))]
    ensures BecomesRow(w, w', k, w.db.results[k].(status := status, timestamp := now))
  {
    CarryIsExec(w, plan, ok);
    CarryOne(w, plan[0]);
    StatusIsSet(w, k, status, now);
  }

  /** The check of a failed swap: with nothing on chain it is taken back exactly if its nonce may still be used. */
  lemma CheckFailedWithoutTx(w: World, k: Key, env: Env, ok: seq<bool>)
    requires CheckIsDue(w, k, env) && FaultFree(ok) && NoneLanded(w, k)
    ensures var w', r := After(w, CheckFailed(k, env), ok), w.db.results[k];
            if Latest(w.chain, r.mpc) <= r.swapNonce then BecomesRow(w, w', k, r.(status := MatchTxNotStable, timestamp := env.now))
            else w' == w
  {
    LookupIff(w, k, env.confKnown);
    var plan := CheckFailedPlan(w, k, env);
    if plan != [] { OneStatusWrite(w, k, plan, Exec(w, plan, ok), MatchTxNotStable, env.now, ok); }
  }

  /** With a transaction on chain it stays failed exactly if that one is known to have failed, and else is stable or not by its depth. */
  lemma CheckFailedWithTx(w: World, k: Key, env: Env, h: TxHash, ok: seq<bool>)
    requires Inv(w) && CheckIsDue(w, k, env) && FaultFree(ok) && KnownTx(w.db.results[k], h) && h in w.chain.landed
    ensures var w', r := After(w, CheckFailed(k, env), ok), w.db.results[k];
            var deep := IsDeep(w.chain, h) || w.chain.required == 0;
            if IsKnownFailure(w.chain, h) then w' == w
            else BecomesRow(w, w', k, r.(status := if deep then MatchTxStable else MatchTxNotStable, timestamp := env.now))
  {
    LookupFindsIt(w, k, h, env.confKnown);
    CheckFailedPlanIs(w, k, env, h);
    var plan := CheckFailedPlan(w, k, env);
    if plan != [] {
      var deep := IsDeep(w.chain, h) || w.chain.required == 0;
      OneStatusWrite(w, k, plan, Exec(w, plan, ok), if deep then MatchTxStable else MatchTxNotStable, env.now, ok);
    }
  }

  lemma CheckFailedPlanIs(w: World, k: Key, env: Env, h: TxHash)
    requires CheckIsDue(w, k, env) && h in w.chain.landed
    requires FindOnChain(w.chain, w.db.results[k], env.confKnown) == Some((h, Query(w.chain, h, env.confKnown).value))
    ensures var deep := IsDeep(w.chain, h) || w.chain.required == 0;
            CheckFailedPlan(w, k, env) ==
            if IsKnownFailure(w.chain, h) then []
            else [Must(SetResultStatus(k, if deep then MatchTxStable else MatchTxNotStable, env.now, ""))]
  {
  }

  /** Other swaps are not checked. */
  lemma NothingToCheck(w: World, k: Key, env: Env, ok: seq<bool>)
    requires env.confKnown && !CheckIsDue(w, k, env)
    ensures After(w, CheckFailed(k, env), ok) == w
  {
  }

  predicate MayAskReswap(w: World, k: Key) {
    && HasStatus(w.db, k, TxProcessed) && k in w.db.results
    && w.db.results[k].status == MatchTxFailed && w.db.results[k].swapTx != ""
  }

  /** A reswap that may not be asked for changes nothing. */
  lemma NothingToReswap(w: World, k: Key, env: Env, ok: seq<bool>)
    requires !MayAskReswap(w, k)
    ensures After(w, Reswap(k, env), ok) == w
  {
  }

  /** One of the recorded transactions is on chain and not known to have failed. */
  ghost predicate IsAlive(w: World, k: Key)
    requires k in w.db.results
  {
    exists h :: KnownTx(w.db.results[k], h) && h in w.chain.landed && !IsKnownFailure(w.chain, h)
  }

  lemma LookupIsAliveIff(w: World, k: Key, confKnown: bool)
    requires Inv(w) && k in w.db.results
    ensures var found := FindOnChain(w.chain, w.db.results[k], confKnown);
            found.Some? && !found.value.1.failed <==> IsAlive(w, k)
  {
    var r := w.db.results[k];
    Found(w.chain, r, confKnown);
    if h :| KnownTx(r, h) && h in w.chain.landed && !IsKnownFailure(w.chain, h) { LookupFindsIt(w, k, h, confKnown); }
  }

  /** A row without any trace of an attempt. */
  function ClearedRow(r: Result, now: int): Result {
    Result(r.info, r.mpc, "", [], 0, 0, r.swapValue, 0, Reswapping, now, "", r.ttl)
  }

  lemma CarryReswap(w: World, k: Key, now: int)
    requires k in w.db.swaps && k in w.db.results
    ensures Carry(w, [Must(SetResultStatus(k, Reswapping, now, "")), Must(SetSwapStatus(k, TxNotSwapped, now, ""))]) ==
            w.(db := Db(w.db.swaps[k := w.db.swaps[k].(status := TxNotSwapped, timestamp := now, memo := "")],
                        w.db.results[k := ClearedRow(w.db.results[k], now)]))
  {
    CarryTwo(w, Must(SetResultStatus(k, Reswapping, now, "")), Must(SetSwapStatus(k, TxNotSwapped, now, "")));
    ClearsRow(w, k, now);
    QueuesAgain(Perform(w, OnDb(SetResultStatus(k, Reswapping, now, ""))).0, k, now);
  }

  lemma ClearsRow(w: World, k: Key, now: int)
    requires k in w.db.results
    ensures Perform(w, OnDb(SetResultStatus(k, Reswapping, now, ""))) ==
            (w.(db := Db(w.db.swaps, w.db.results[k := ClearedRow(w.db.results[k], now)])), true)
  {
  }

  lemma QueuesAgain(w: World, k: Key, now: int)
    requires k in w.db.swaps
    ensures Perform(w, OnDb(SetSwapStatus(k, TxNotSwapped, now, ""))) ==
            (w.(db := Db(w.db.swaps[k := w.db.swaps[k].(status := TxNotSwapped, timestamp := now, memo := "")], w.db.results)), true)
  {
  }

  lemma ReswapPlanIs(w: World, k: Key, env: Env)
    requires MayAskReswap(w, k)
    ensures var found := FindOnChain(w.chain, w.db.results[k], env.confKnown);
            found.Some? && !found.value.1.failed ==> ReswapPlan(w, k, env) == [Try(SetResultStatus(k, MatchTxNotStable, env.now, ""))]
  {
  }

  /** The admin's reswap takes back a swap whose transaction turned up unfailed. */
  lemma ReswapTakesBack(w: World, k: Key, env: Env, ok: seq<bool>)
    requires Inv(w) && MayAskReswap(w, k) && FaultFree(ok) && IsAlive(w, k)
    ensures BecomesRow(w, After(w, Reswap(k, env), ok), k, w.db.results[k].(status := MatchTxNotStable, timestamp := env.now))
  {
    LookupIsAliveIff(w, k, env.confKnown);
    ReswapPlanIs(w, k, env);
    var plan := ReswapPlan(w, k, env);
    OneStatusWrite(w, k, plan, Exec(w, plan, ok), MatchTxNotStable, env.now, ok);
  }

  /** It refuses one whose nonce is still free, and otherwise clears every trace of the attempt. */
  lemma ReswapClearsIff(w: World, k: Key, env: Env, ok: seq<bool>)
    requires Inv(w) && MayAskReswap(w, k) && FaultFree(ok) && !IsAlive(w, k)
    ensures var w', r := After(w, Reswap(k, env), ok), w.db.results[k];
            if Latest(w.chain, r.mpc) <= r.swapNonce then w' == w
            else w' == w.(db := Db(w.db.swaps[k := w.db.swaps[k].(status := TxNotSwapped, timestamp := env.now, memo := "")],
                                   w.db.results[k := ClearedRow(r, env.now)]))
  {
    LookupIsAliveIff(w, k, env.confKnown);
    var plan := ReswapPlan(w, k, env);
    if plan != [] {
      assert plan == [Must(SetResultStatus(k, Reswapping, env.now, "")), Must(SetSwapStatus(k, TxNotSwapped, env.now, ""))];
      CarryIsExec(w, plan, ok);
      CarryReswap(w, k, env.now);
    }
  }
}
