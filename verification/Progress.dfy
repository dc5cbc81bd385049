/** The guards that keep a swap from being paid twice do not keep it from being paid. */
module Progress {
  import opened SwapStatuses
  import opened Ledger
  import opened Passes
  import opened Payout
  import opened Stability
  import opened Workers
  import opened Options

  /** The swap waits for its payout and carries no trace of an earlier one. */
  predicate Waits(db: Db, k: Key) {
    k in db.swaps && db.swaps[k].status == TxNotSwapped && k in db.results && !IsNonEmpty(db.results[k])
  }

  predicate Quiet(env: Env) {
    !env.blacklisted && !env.delayed && env.routerMPC != ""
  }

  const THREE := [true, true, true]

  /** A script under which no plan of at most three writes meets a fault. */
  predicate FaultFree(ok: seq<bool>) {
    |ok| >= 3 && forall i :: 0 <= i < |ok| ==> ok[i]
  }

  /** A waiting swap is recorded and sent by one pass without faults. */
  lemma WaitingSwapIsSent(w: World, k: Key, env: Env, h: TxHash, nonce: nat, value: string, ttl: nat)
    requires Waits(w.db, k) && Quiet(env) && h != ""
    ensures var w' := Exec(w, SwapPlan(w, k, env, SignedTx(h, nonce, value, ttl)), THREE);
            && w'.sent == w.sent + {h} && w'.book == w.book && w'.chain == w.chain
            && k in w'.db.results && w'.db.results[k].swapTx == h && w'.db.results[k].status == MatchTxNotStable
            && k in w'.db.swaps && w'.db.swaps[k].status == TxProcessed
  {
    var record := Must(UpdateResult(k, RecordItems(h, nonce, env.routerMPC, value, env.now, ttl)));
    var mark, send := Must(SetSwapStatus(k, TxProcessed, env.now, "")), Write(Deliver(h), true);
    var plan := [record, mark, send];
    assert SwapPlan(w, k, env, SignedTx(h, nonce, value, ttl)) == plan;
    CarryIsExec(w, plan, THREE);
    CarryThree(w, record, mark, send);
    CarryTwo(Perform(w, record.effect).0, mark, send);
  }

  /** From any state in which a swap waits, a pass and the landing of its transaction pay it. */
  lemma WaitingSwapCanBePaid(w: World, k: Key, env: Env, h: TxHash, nonce: nat, value: string, ttl: nat)
    requires Waits(w.db, k) && Quiet(env) && h !in w.chain.landed
    requires SignsFor(w.book, h, Tx(k, env.routerMPC, nonce)) && nonce == Latest(w.chain, env.routerMPC)
    ensures var pay := RunPass(DoSwap(k, env, SignedTx(h, nonce, value, ttl)), THREE);
            Enabled(w, pay) && Enabled(Step(w, pay), Land(h, true)) &&
            Succeeded(Step(Step(w, pay), Land(h, true)).chain, h)
  {
    WaitingSwapIsSent(w, k, env, h, nonce, value, ttl);
  }

  /** No recorded transaction is on chain without a known failure, and the nonce is used up. */
  predicate MayReswap(w: World, r: Result, confKnown: bool) {
    var found := FindOnChain(w.chain, r, confKnown);
    Latest(w.chain, r.mpc) > r.swapNonce && (found.Some? ==> found.value.1.failed)
  }

  lemma ClearedRowWaits(w: World, k: Key, now: int)
    requires k in w.db.swaps && k in w.db.results
    ensures Waits(Carry(w, [Must(SetResultStatus(k, Reswapping, now, "")), Must(SetSwapStatus(k, TxNotSwapped, now, ""))]).db, k)
  {
    CarryTwo(w, Must(SetResultStatus(k, Reswapping, now, "")), Must(SetSwapStatus(k, TxNotSwapped, now, "")));
  }

  lemma ResultWriteKeepsRegister(w: World, plan: seq<Write>)
    requires |plan| <= 1 && (plan != [] ==> plan[0].effect.OnDb? && plan[0].effect.call.SetResultStatus?)
    ensures Carry(w, plan).db.swaps == w.db.swaps
  {
  }

  /** The admin's reswap makes a failed swap wait again exactly if none of its transactions can have paid or still pay. */
  lemma ReswapWaitsIff(w: World, k: Key, env: Env, ok: seq<bool>)
    requires k in w.db.swaps && w.db.swaps[k].status == TxProcessed
    requires k in w.db.results && w.db.results[k].status == MatchTxFailed && w.db.results[k].swapTx != ""
    requires FaultFree(ok)
    ensures Waits(Step(w, RunPass(Reswap(k, env), ok)).db, k) <==> MayReswap(w, w.db.results[k], env.confKnown)
  {
    var plan := ReswapPlan(w, k, env);
    CarryIsExec(w, plan, ok);
    assert Step(w, RunPass(Reswap(k, env), ok)) == Carry(w, plan);
    if MayReswap(w, w.db.results[k], env.confKnown) {
      ClearedRowWaits(w, k, env.now);
    } else {
      ResultWriteKeepsRegister(w, plan);
    }
  }

  // ---------------------------------------------------------------- becoming stable

  /** At most one recorded transaction can be on chain, so the lookup finds it in whatever order it looks. */
  lemma LookupFindsIt(w: World, k: Key, h: TxHash, confKnown: bool)
    requires Inv(w) && k in w.db.results && KnownTx(w.db.results[k], h) && h in w.chain.landed
    ensures FindOnChain(w.chain, w.db.results[k], confKnown) == Some((h, Query(w.chain, h, confKnown).value))
  {
    var r := w.db.results[k];
    Found(w.chain, r, confKnown);
    var g := FindOnChain(w.chain, r, confKnown).value.0;
    assert RowInv(w.book, k, r);
    assert h in w.sent && g in w.sent;
    assert SameSlot(w.book, g, h);
  }

  lemma MarkedStable(w: World, k: Key, tx: TxHash, now: int, plan: seq<Write>)
    requires k in w.db.results
    requires var mark := Must(SetResultStatus(k, MatchTxStable, now, ""));
             plan == [mark] || plan == [Try(UpdateResult(k, KEEP.(swapTx := tx, timestamp := now))), mark]
    ensures IsStable(Carry(w, plan), k)
  {
    var mark := Must(SetResultStatus(k, MatchTxStable, now, ""));
    if plan == [mark] {
      assert plan[1..] == [];
    } else {
      CarryTwo(w, plan[0], mark);
    }
  }

  /** A due stable pass: its height is known and old enough. */
  predicate StableIsDue(w: World, k: Key, env: Env) {
    && HasHeight(w, k) && w.db.results[k].status == MatchTxNotStable
    && w.db.results[k].swapHeight + w.chain.required <= env.cachedTip && env.confKnown
  }

  lemma StablePlanMarks(w: World, k: Key, env: Env, h: TxHash)
    requires Inv(w) && StableIsDue(w, k, env) && ConfirmedBy(w, k, h)
    ensures IsStable(Carry(w, StablePlan(w, k, env)), k)
    ensures |StablePlan(w, k, env)| <= 3
  {
    LookupFindsIt(w, k, h, true);
    MarkedStable(w, k, h, env.now, StablePlan(w, k, env));
  }

  lemma OnlyConfirmedIsMarked(w: World, p: Pass, ok: seq<bool>, k: Key)
    requires p.Stable? || p.CheckFailed?
    requires !IsStable(w, k) && IsStable(Exec(w, Plan(w, p), ok), k)
    ensures exists h :: ConfirmedBy(w, k, h)
  {
    StableIsJustified(w, RunPass(p, ok), k);
  }

  /** Once it is due, the stable pass marks a swap exactly if one of its recorded transactions is confirmed. */
  lemma StablePassIff(w: World, k: Key, env: Env, ok: seq<bool>)
    requires Inv(w) && StableIsDue(w, k, env) && FaultFree(ok)
    ensures IsStable(Step(w, RunPass(Stable(k, env), ok)), k) <==> exists h :: ConfirmedBy(w, k, h)
  {
    if h :| ConfirmedBy(w, k, h) {
      StablePlanMarks(w, k, env, h);
      CarryIsExec(w, StablePlan(w, k, env), ok);
    } else if IsStable(Step(w, RunPass(Stable(k, env), ok)), k) {
      OnlyConfirmedIsMarked(w, Stable(k, env), ok, k);
    }
  }

  /** A failed swap that the check looks at. */
  predicate CheckIsDue(w: World, k: Key, env: Env) {
    && k in w.db.results && w.db.results[k].status == MatchTxFailed && env.confKnown
    && w.db.results[k].swapTx != "" && w.db.results[k].mpc == env.routerMPC
    && (w.db.results[k].swapNonce != 0 || w.db.results[k].swapHeight != 0)
  }

  lemma CheckFailedPlanMarks(w: World, k: Key, env: Env, h: TxHash)
    requires Inv(w) && CheckIsDue(w, k, env) && ConfirmedBy(w, k, h)
    ensures IsStable(Carry(w, CheckFailedPlan(w, k, env)), k)
    ensures |CheckFailedPlan(w, k, env)| <= 3
  {
    LookupFindsIt(w, k, h, true);
    MarkedStable(w, k, h, env.now, CheckFailedPlan(w, k, env));
  }

  /** The check of failed swaps brings one back as stable under the same condition. */
  lemma CheckFailedPassIff(w: World, k: Key, env: Env, ok: seq<bool>)
    requires Inv(w) && CheckIsDue(w, k, env) && FaultFree(ok)
    ensures IsStable(Step(w, RunPass(CheckFailed(k, env), ok)), k) <==> exists h :: ConfirmedBy(w, k, h)
  {
    if h :| ConfirmedBy(w, k, h) {
      CheckFailedPlanMarks(w, k, env, h);
      CarryIsExec(w, CheckFailedPlan(w, k, env), ok);
    } else if IsStable(Step(w, RunPass(CheckFailed(k, env), ok)), k) {
      OnlyConfirmedIsMarked(w, CheckFailed(k, env), ok, k);
    }
  }

  // ---------------------------------------------------------------- a lost result row

  /** A registered swap in this state without a result row. */
  predicate HasOnly(db: Db, k: Key, status: SwapStatus) {
    k in db.swaps && db.swaps[k].status == status && k !in db.results
  }

  /** A verified swap whose result row was not written. */
  predicate IsLost(db: Db, k: Key) {
    HasOnly(db, k, TxNotSwapped)
  }

  /** Such a swap comes from a verification that stops between its two writes. */
  lemma StoppedVerificationLosesSwap(w: World, k: Key, info: string, env: Env)
    requires HasOnly(w.db, k, TxNotStable) && !env.blacklisted
    ensures IsLost(Step(w, RunPass(Verify(k, Verified(info, false), env), [true, false])).db, k)
  {
    var plan := VerifyPlan(w, k, Verified(info, false), env);
    var w1 := Perform(w, plan[0].effect).0;
    assert [true, false][1..] == [false];
    assert Exec(w1, plan[1..], [false]) == w1;
  }

  /** The states it can be in from then on: no result row, and a register row that no worker verifies. */
  predicate IsIdle(db: Db, k: Key) {
    HasOnly(db, k, TxNotSwapped) || HasOnly(db, k, ManualMakeFail) || HasOnly(db, k, SwapInBlacklist)
  }

  /** A blacklisted swap is registered once more. */
  predicate RegistersAnew(w: World, a: Action, k: Key) {
    a.RunPass? && a.pass.Register? && a.pass.key == k && k in w.db.swaps && w.db.swaps[k].status == SwapInBlacklist
  }

  /** Calls that leave an idle swap idle. */
  predicate LeavesIdle(c: Call, k: Key) {
    c.key != k || c.SetResultStatus? || c.AddSwap? ||
    (c.SetSwapStatus? && c.status in {TxNotStable, ManualMakeFail, SwapInBlacklist})
  }

  predicate AllLeaveIdle(plan: seq<Write>, k: Key) {
    forall i :: 0 <= i < |plan| && plan[i].effect.OnDb? ==> LeavesIdle(plan[i].effect.call, k)
  }

  lemma CallLeavesIdle(db: Db, c: Call, k: Key)
    requires IsIdle(db, k) && LeavesIdle(c, k)
    ensures IsIdle(Apply(db, c).db, k)
  {
  }

  lemma {:induction false} ExecLeavesIdle(w: World, plan: seq<Write>, ok: seq<bool>, k: Key)
    requires IsIdle(w.db, k) && AllLeaveIdle(plan, k)
    ensures IsIdle(Exec(w, plan, ok).db, k)
    decreases |plan|
  {
    if plan != [] && ok != [] {
      ExecLeavesIdle(w, plan[1..], ok[1..], k);
      if plan[0].effect.OnDb? { CallLeavesIdle(w.db, plan[0].effect.call, k); }
      ExecLeavesIdle(Perform(w, plan[0].effect).0, plan[1..], ok[1..], k);
    }
  }

  lemma PayoutPlansStayOnTheirKey(w: World, p: Pass, k: Key)
    requires p.key != k && (p.DoSwap? || p.Replace?)
    ensures AllLeaveIdle(Plan(w, p), k)
  {
  }

  lemma PlansStayOnTheirKey(w: World, p: Pass, k: Key)
    requires p.key != k
    ensures AllLeaveIdle(Plan(w, p), k)
  {
    if p.DoSwap? || p.Replace? { PayoutPlansStayOnTheirKey(w, p, k); }
  }

  lemma PlanLeavesIdle(w: World, p: Pass, ok: seq<bool>, k: Key)
    requires IsIdle(w.db, k) && !RegistersAnew(w, RunPass(p, ok), k)
    ensures AllLeaveIdle(Plan(w, p), k)
  {
    if p.key != k { PlansStayOnTheirKey(w, p, k); }
  }

  lemma {:induction false} StaysIdle(worlds: seq<World>, actions: seq<Action>, i: nat, j: nat, k: Key)
    requires IsRun(worlds, actions) && i <= j < |worlds| && IsIdle(worlds[i].db, k)
    requires forall m :: i <= m < j ==> !RegistersAnew(worlds[m], actions[m], k)
    ensures IsIdle(worlds[j].db, k)
    decreases j
  {
    if i < j {
      StaysIdle(worlds, actions, i, j - 1, k);
      var w, a := worlds[j - 1], actions[j - 1];
      if a.RunPass? {
        PlanLeavesIdle(w, a.pass, a.ok, k);
        ExecLeavesIdle(w, Plan(w, a.pass), a.ok, k);
      }
    }
  }

  /**
    A lost swap gets no result row and no payout in any continuation of the run, unless it is
    blacklisted and then registered anew.
   */
  lemma LostSwapIsNotPaid(worlds: seq<World>, actions: seq<Action>, i: nat, j: nat, k: Key)
    requires IsRun(worlds, actions) && IsInitial(worlds[0]) && i <= j < |worlds| && IsLost(worlds[i].db, k)
    requires forall m :: i <= m < j ==> !RegistersAnew(worlds[m], actions[m], k)
    ensures k !in worlds[j].db.results
    ensures forall h :: h in worlds[j].chain.landed ==> h in worlds[j].book && worlds[j].book[h].key != k
  {
    StaysIdle(worlds, actions, i, j, k);
    InvHolds(worlds, actions, j);
    SentHasRowHolds(worlds, actions, j);
  }

  lemma LostSwapIsBlacklisted(w: World, k: Key, env: Env, signed: Signed)
    requires IsLost(w.db, k) && env.blacklisted
    ensures HasOnly(Exec(w, SwapPlan(w, k, env, signed), THREE).db, k, SwapInBlacklist)
  {
    var plan := BlacklistPlan(k, env);
    CarryIsExec(w, plan, THREE);
    CarryTwo(w, plan[0], plan[1]);
  }

  lemma BlacklistedSwapIsRegistered(w: World, k: Key, env: Env, swap: Swap)
    requires HasOnly(w.db, k, SwapInBlacklist)
    ensures HasOnly(Exec(w, RegisterPlan(w, k, swap, env), THREE).db, k, swap.status)
  {
    var plan := RegisterPlan(w, k, swap, env);
    assert plan[1..] == [];
    CarryIsExec(w, plan, THREE);
  }

  lemma VerifiedSwapWaits(w: World, k: Key, env: Env, info: string)
    requires HasOnly(w.db, k, TxNotStable) && !env.blacklisted
    ensures Waits(Exec(w, VerifyPlan(w, k, Verified(info, false), env), THREE).db, k)
  {
    var plan := VerifyPlan(w, k, Verified(info, false), env);
    CarryIsExec(w, plan, THREE);
    CarryTwo(w, plan[0], plan[1]);
  }

  /** That way out works: blacklisted, registered anew and verified, it waits for its payout. */
  lemma LostSwapCanComeBack(w: World, k: Key, off: Env, env: Env, signed: Signed, swap: Swap, info: string)
    requires IsLost(w.db, k) && off.blacklisted && !env.blacklisted && swap.status == TxNotStable
    requires Enabled(w, RunPass(DoSwap(k, off, signed), THREE))
    ensures var w1 := Step(w, RunPass(DoSwap(k, off, signed), THREE));
            var w2 := Step(w1, RunPass(Register(k, swap, env), THREE));
            RegistersAnew(w1, RunPass(Register(k, swap, env), THREE), k) &&
            Waits(Step(w2, RunPass(Verify(k, Verified(info, false), env), THREE)).db, k)
  {
    LostSwapIsBlacklisted(w, k, off, signed);
    var w1 := Step(w, RunPass(DoSwap(k, off, signed), THREE));
    BlacklistedSwapIsRegistered(w1, k, env, swap);
    var w2 := Step(w1, RunPass(Register(k, swap, env), THREE));
    VerifiedSwapWaits(w2, k, env, info);
  }
}
