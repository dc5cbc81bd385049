/** Where a result row and a payout come from, over every run of passes with faults. */
module Origins {
  import opened SwapStatuses
  import opened Ledger
  import opened Passes
  import opened Payout
  import opened Progress
  import opened Outcomes

  // ---------------------------------------------------------------- steps that let a swap on

  /** The step verifies the deposit of the swap, which is still to be verified and not blacklisted. */
  predicate Verifies(w: World, a: Action, k: Key) {
    a.RunPass? && a.pass.Verify? && a.pass.key == k && !a.pass.env.blacklisted && HasStatus(w.db, k, TxNotStable)
  }

  predicate FindsOrdinary(w: World, a: Action, k: Key) {
    Verifies(w, a, k) && a.pass.verdict.Verified? && !a.pass.verdict.big
  }

  predicate FindsBig(w: World, a: Action, k: Key) {
    Verifies(w, a, k) && a.pass.verdict.Verified? && a.pass.verdict.big
  }

  predicate FindsForbidden(w: World, a: Action, k: Key) {
    Verifies(w, a, k) && a.pass.verdict.Forbidden?
  }

  predicate ReleasesBig(w: World, a: Action, k: Key) {
    a.RunPass? && a.pass.PassBigValue? && a.pass.key == k && HasOnly(w.db, k, TxWithBigValue)
  }

  predicate ReleasesForbidden(w: World, a: Action, k: Key) {
    a.RunPass? && a.pass.PassForbidden? && a.pass.key == k && IsForbidden(w.db, k)
  }

  predicate OpensRow(w: World, a: Action, k: Key) {
    FindsOrdinary(w, a, k) || FindsForbidden(w, a, k) || ReleasesBig(w, a, k)
  }

  predicate Admits(w: World, a: Action, k: Key) {
    FindsOrdinary(w, a, k) || ReleasesBig(w, a, k) || ReleasesForbidden(w, a, k)
  }

  // ---------------------------------------------------------------- what the tables say of a swap

  predicate HasRow(db: Db, k: Key) {
    k in db.results
  }

  predicate IsForbidden(db: Db, k: Key) {
    k in db.results && db.results[k].status == SwapoutForbidden
  }

  predicate IsBig(db: Db, k: Key) {
    HasStatus(db, k, TxWithBigValue)
  }

  /** Forbidden, blacklisted, stopped by hand or failed: no worker pays a row in one of these states. */
  predicate HoldsBack(status: SwapStatus) {
    status == SwapoutForbidden || status == SwapInBlacklist || status == ManualMakeFail || status == TxVerifyFailed
  }

  /** The swap has a result row that is not held back. */
  predicate IsOpen(db: Db, k: Key) {
    k in db.results && !HoldsBack(db.results[k].status)
  }

  // ---------------------------------------------------------------- from a step to one of its writes

  /** If a plan makes a condition on the tables true, one of its calls does. */
  lemma {:induction false} SomeCallTurns(w: World, plan: seq<Write>, ok: seq<bool>, cond: Db -> bool) returns (i: nat, db: Db)
    requires !cond(w.db) && cond(Exec(w, plan, ok).db)
    ensures i < |plan| && plan[i].effect.OnDb? && !cond(db) && cond(Apply(db, plan[i].effect.call).db)
    decreases |plan|
  {
    var w' := if ok[0] then Perform(w, plan[0].effect).0 else w;
    if cond(w'.db) {
      i, db := 0, w.db;
    } else {
      i, db := SomeCallTurns(w', plan[1..], ok[1..], cond);
      i := i + 1;
    }
  }

  lemma {:induction false} SomeWriteSends(w: World, plan: seq<Write>, ok: seq<bool>, h: TxHash) returns (i: nat)
    requires h !in w.sent && h in Exec(w, plan, ok).sent
    ensures i < |plan| && plan[i].effect == Deliver(h)
    decreases |plan|
  {
    var w' := if ok[0] then Perform(w, plan[0].effect).0 else w;
    if h in w'.sent {
      i := 0;
    } else {
      i := SomeWriteSends(w', plan[1..], ok[1..], h);
      i := i + 1;
    }
  }

  // ---------------------------------------------------------------- from the write to the step

  predicate Opens(c: Call, k: Key) {
    c.key == k && ((c.AddResult? && !HoldsBack(c.result.status)) || (c.SetResultStatus? && !HoldsBack(c.status)) ||
                   c.UpdateResult? || c.AllocateNonce?)
  }

  lemma OpeningCall(db: Db, c: Call, k: Key)
    requires !IsOpen(db, k) && IsOpen(Apply(db, c).db, k)
    ensures Opens(c, k)
  {
  }

  lemma SwapPlanOpens(w: World, k: Key, env: Env, signed: Signed, i: nat)
    requires !IsOpen(w.db, k) && i < |SwapPlan(w, k, env, signed)|
    ensures var e := SwapPlan(w, k, env, signed)[i].effect; e.OnDb? && !Opens(e.call, k)
  {
  }

  lemma ReplacePlanOpens(w: World, k: Key, manual: bool, env: Env, signed: Signed, i: nat)
    requires !IsOpen(w.db, k) && i < |ReplacePlan(w, k, manual, env, signed)|
    ensures var e := ReplacePlan(w, k, manual, env, signed)[i].effect; e.OnDb? && !Opens(e.call, k)
  {
  }

  lemma PayoutPlanIsOnKey(w: World, p: Pass, i: nat)
    requires (p.DoSwap? || p.Replace?) && i < |Plan(w, p)| && Plan(w, p)[i].effect.OnDb?
    ensures Plan(w, p)[i].effect.call.key == p.key
  {
  }

  lemma PlanIsOnKey(w: World, p: Pass, i: nat)
    requires i < |Plan(w, p)| && Plan(w, p)[i].effect.OnDb?
    ensures Plan(w, p)[i].effect.call.key == p.key
  {
    if p.DoSwap? || p.Replace? { PayoutPlanIsOnKey(w, p, i); }
  }

  lemma FollowUpPlanOpens(w: World, p: Pass)
    requires p.Stable? || p.CheckFailed? || p.Reswap?
    requires !IsOpen(w.db, p.key)
    ensures Plan(w, p) == []
  {
  }

  lemma OpeningPass(w: World, p: Pass, ok: seq<bool>, i: nat)
    requires !IsOpen(w.db, p.key) && i < |Plan(w, p)| && Plan(w, p)[i].effect.OnDb? && Opens(Plan(w, p)[i].effect.call, p.key)
    ensures Admits(w, RunPass(p, ok), p.key)
  {
    match p
    case DoSwap(k, env, signed) => SwapPlanOpens(w, k, env, signed, i);
    case Replace(k, manual, env, signed) => ReplacePlanOpens(w, k, manual, env, signed, i);
    case _ => if p.Stable? || p.CheckFailed? || p.Reswap? { FollowUpPlanOpens(w, p); }
  }

  /** A swap without an open row gets one only in a step that admits it. */
  lemma OpenStepAdmits(w: World, a: Action, k: Key)
    requires Enabled(w, a) && !IsOpen(w.db, k) && IsOpen(Step(w, a).db, k)
    ensures Admits(w, a, k)
  {
    var plan := Plan(w, a.pass);
    var i, db := SomeCallTurns(w, plan, a.ok, db => IsOpen(db, k));
    OpeningCall(db, plan[i].effect.call, k);
    PlanIsOnKey(w, a.pass, i);
    OpeningPass(w, a.pass, a.ok, i);
  }

  lemma DeliveringPass(w: World, p: Pass, i: nat)
    requires i < |Plan(w, p)| && Plan(w, p)[i].effect.Deliver?
    ensures (p.DoSwap? || p.Replace?) && p.signed.SignedTx? && Plan(w, p)[i].effect.hash == p.signed.hash
  {
  }

  /** Whatever a step sends belongs to a swap with an open row. */
  lemma SendStepIsOpen(w: World, a: Action, h: TxHash)
    requires Enabled(w, a) && h !in w.sent && h in Step(w, a).sent
    ensures h in w.book && IsOpen(w.db, w.book[h].key)
  {
    var p := a.pass;
    var i := SomeWriteSends(w, Plan(w, p), a.ok, h);
    DeliveringPass(w, p, i);
    if !IsOpen(w.db, p.key) {
      if p.DoSwap? { SwapPlanOpens(w, p.key, p.env, p.signed, i); } else { ReplacePlanOpens(w, p.key, p.manual, p.env, p.signed, i); }
    }
  }

  /** The calls that add a row, make one forbidden, or make a swap wait for the admin. */
  predicate Turns(c: Call) {
    match c
    case AddSwap(_, swap, _, _) => swap.status == TxWithBigValue
    case SetSwapStatus(_, status, _, _) => status == TxWithBigValue
    case SetInfoAndStatus(_, _, status, _, _) => status == TxWithBigValue
    case AddResult(_, _) => true
    case SetResultStatus(_, status, _, _) => status == SwapoutForbidden
    case UpdateResult(_, items) => items.status == SwapoutForbidden
    case _ => false
  }

  predicate SetsRegister(c: Call) {
    c.AddSwap? || c.SetSwapStatus? || c.SetInfoAndStatus?
  }

  lemma TurningCall(db: Db, c: Call, k: Key)
    ensures !HasRow(db, k) && HasRow(Apply(db, c).db, k) ==> c.key == k && c.AddResult?
    ensures !IsForbidden(db, k) && IsForbidden(Apply(db, c).db, k) ==>
              c.key == k && Turns(c) && !SetsRegister(c) && (c.AddResult? ==> c.result.status == SwapoutForbidden)
    ensures !IsBig(db, k) && IsBig(Apply(db, c).db, k) ==> c.key == k && Turns(c) && SetsRegister(c)
  {
  }

  /** What a pass with such a call does. */
  predicate IsTurn(w: World, a: Action, c: Call, k: Key) {
    if SetsRegister(c) then FindsBig(w, a, k)
    else c.AddResult? && OpensRow(w, a, k) && (c.result.status == SwapoutForbidden ==> FindsForbidden(w, a, k))
  }

  lemma PayoutPlansDoNotTurn(w: World, p: Pass, i: nat)
    requires (p.DoSwap? || p.Replace?) && i < |Plan(w, p)| && Plan(w, p)[i].effect.OnDb?
    ensures !Turns(Plan(w, p)[i].effect.call)
  {
  }

  lemma TurningPass(w: World, p: Pass, ok: seq<bool>, i: nat)
    requires Enabled(w, RunPass(p, ok)) && i < |Plan(w, p)| && Plan(w, p)[i].effect.OnDb? && Turns(Plan(w, p)[i].effect.call)
    ensures IsTurn(w, RunPass(p, ok), Plan(w, p)[i].effect.call, p.key)
  {
    if p.DoSwap? || p.Replace? { PayoutPlansDoNotTurn(w, p, i); }
  }

  lemma TurningStep(w: World, a: Action, k: Key, cond: Db -> bool) returns (db: Db, c: Call)
    requires Enabled(w, a) && !cond(w.db) && cond(Step(w, a).db)
    ensures !cond(db) && cond(Apply(db, c).db)
    ensures Turns(c) && c.key == k ==> IsTurn(w, a, c, k)
  {
    var i;
    i, db := SomeCallTurns(w, Plan(w, a.pass), a.ok, cond);
    c := Plan(w, a.pass)[i].effect.call;
    PlanIsOnKey(w, a.pass, i);
    if Turns(c) { TurningPass(w, a.pass, a.ok, i); }
  }

  /** A swap gets its result row only in a step that opens it. */
  lemma NewRowIsOpened(w: World, a: Action, k: Key)
    requires Enabled(w, a) && k !in w.db.results && k in Step(w, a).db.results
    ensures OpensRow(w, a, k)
  {
    var db, c := TurningStep(w, a, k, db => HasRow(db, k));
    TurningCall(db, c, k);
  }

  /** A row is forbidden only from the verification that found so. */
  lemma ForbiddenIsFound(w: World, a: Action, k: Key)
    requires Enabled(w, a) && !IsForbidden(w.db, k) && IsForbidden(Step(w, a).db, k)
    ensures FindsForbidden(w, a, k)
  {
    var db, c := TurningStep(w, a, k, db => IsForbidden(db, k));
    TurningCall(db, c, k);
  }

  /** A swap waits for the admin only from the verification that found it big. */
  lemma BigIsFound(w: World, a: Action, k: Key)
    requires Enabled(w, a) && !IsBig(w.db, k) && IsBig(Step(w, a).db, k)
    ensures FindsBig(w, a, k)
  {
    var db, c := TurningStep(w, a, k, db => IsBig(db, k));
    TurningCall(db, c, k);
  }

  // ---------------------------------------------------------------- one verification under every fault script

  lemma ExecTwo(w: World, a: Write, b: Write, ok: seq<bool>)
    requires a.must && Perform(w, a.effect).1
    ensures var w1 := Perform(w, a.effect).0;
            Exec(w, [a, b], ok) == if ok == [] || !ok[0] then w else if |ok| < 2 || !ok[1] then w1 else Perform(w1, b.effect).0
  {
    assert [a, b][1..] == [b] && [b][1..] == [];
    var w1 := Perform(w, a.effect).0;
    if ok != [] {
      assert Exec(w1, [b], ok[1..]) == if |ok| < 2 || !ok[1] then w1 else Perform(w1, b.effect).0;
    }
  }

  /** The verification makes a swap wait for its payout exactly if it may run, finds an ordinary deposit, and both writes get through. */
  lemma VerifyAddsPayableIff(w: World, k: Key, verdict: Verdict, env: Env, ok: seq<bool>)
    requires k !in w.db.results
    ensures var db := After(w, Verify(k, verdict, env), ok).db;
            && (k in db.results && IsPending(db.results[k].status) <==> Waits(db, k))
            && (Waits(db, k) <==> FindsOrdinary(w, RunPass(Verify(k, verdict, env), ok), k) && |ok| >= 2 && ok[0] && ok[1])
            && (Waits(db, k) ==> db.results[k] == FirstRow(verdict.info, MatchTxEmpty, env.now))
  {
    var plan, a := VerifyPlan(w, k, verdict, env), RunPass(Verify(k, verdict, env), ok);
    if FindsOrdinary(w, a, k) {
      ExecTwo(w, plan[0], plan[1], ok);
    } else if IsOpen(Step(w, a).db, k) {
      OpenStepAdmits(w, a, k);
    }
  }

  // ---------------------------------------------------------------- theorems over runs

  /** Every result row was opened by an earlier step. */
  lemma {:induction false} RowWasOpened(worlds: seq<World>, actions: seq<Action>, i: nat, k: Key) returns (j: nat)
    requires IsRun(worlds, actions) && IsInitial(worlds[0]) && i < |worlds| && k in worlds[i].db.results
    ensures j < i && OpensRow(worlds[j], actions[j], k)
    decreases i
  {
    if k in worlds[i - 1].db.results {
      j := RowWasOpened(worlds, actions, i - 1, k);
    } else {
      j := i - 1;
      NewRowIsOpened(worlds[j], actions[j], k);
    }
  }

  lemma {:induction false} OpenWasAdmitted(worlds: seq<World>, actions: seq<Action>, i: nat, k: Key) returns (j: nat)
    requires IsRun(worlds, actions) && IsInitial(worlds[0]) && i < |worlds| && IsOpen(worlds[i].db, k)
    ensures j < i && Admits(worlds[j], actions[j], k)
    decreases i
  {
    if IsOpen(worlds[i - 1].db, k) {
      j := OpenWasAdmitted(worlds, actions, i - 1, k);
    } else {
      j := i - 1;
      OpenStepAdmits(worlds[j], actions[j], k);
    }
  }

  /** Whatever was sent belongs to a swap that an earlier step admitted. */
  lemma {:induction false} SentWasAdmitted(worlds: seq<World>, actions: seq<Action>, i: nat, h: TxHash) returns (j: nat)
    requires IsRun(worlds, actions) && IsInitial(worlds[0]) && i < |worlds| && h in worlds[i].sent
    ensures h in worlds[i].book && j < i && Admits(worlds[j], actions[j], worlds[i].book[h].key)
    decreases i
  {
    var w, a := worlds[i - 1], actions[i - 1];
    if a.RunPass? { ExecLeavesChain(w, Plan(w, a.pass), a.ok); } else { ChainStepAdvances(w, a); }
    if h in w.sent {
      j := SentWasAdmitted(worlds, actions, i - 1, h);
    } else {
      SendStepIsOpen(w, a, h);
      j := OpenWasAdmitted(worlds, actions, i - 1, w.book[h].key);
    }
  }

  lemma {:induction false} ForbiddenWasFound(worlds: seq<World>, actions: seq<Action>, i: nat, k: Key) returns (j: nat)
    requires IsRun(worlds, actions) && IsInitial(worlds[0]) && i < |worlds| && IsForbidden(worlds[i].db, k)
    ensures j < i && FindsForbidden(worlds[j], actions[j], k)
    decreases i
  {
    if IsForbidden(worlds[i - 1].db, k) {
      j := ForbiddenWasFound(worlds, actions, i - 1, k);
    } else {
      j := i - 1;
      ForbiddenIsFound(worlds[j], actions[j], k);
    }
  }

  lemma {:induction false} BigWasFound(worlds: seq<World>, actions: seq<Action>, i: nat, k: Key) returns (j: nat)
    requires IsRun(worlds, actions) && IsInitial(worlds[0]) && i < |worlds| && IsBig(worlds[i].db, k)
    ensures j < i && FindsBig(worlds[j], actions[j], k)
    decreases i
  {
    if IsBig(worlds[i - 1].db, k) {
      j := BigWasFound(worlds, actions, i - 1, k);
    } else {
      j := i - 1;
      BigIsFound(worlds[j], actions[j], k);
    }
  }

  /** Before step i the swap was found to be in order, or it was found big or forbidden and later released by the admin. */
  ghost predicate WasLetThrough(worlds: seq<World>, actions: seq<Action>, i: nat, k: Key)
    requires |worlds| == |actions| + 1 && i < |worlds|
  {
    || (exists j: nat :: j < i && FindsOrdinary(worlds[j], actions[j], k))
    || (exists j: nat, m: nat :: j < m < i && ReleasesBig(worlds[m], actions[m], k) && FindsBig(worlds[j], actions[j], k))
    || (exists j: nat, m: nat :: j < m < i && ReleasesForbidden(worlds[m], actions[m], k) && FindsForbidden(worlds[j], actions[j], k))
  }

  /** No transaction ever lands, paid or failed, for a swap whose deposit was not verified and let through before. */
  lemma LandedWasLetThrough(worlds: seq<World>, actions: seq<Action>, i: nat, h: TxHash)
    requires IsRun(worlds, actions) && IsInitial(worlds[0]) && i < |worlds| && (h in worlds[i].sent || h in worlds[i].chain.landed)
    ensures h in worlds[i].book && WasLetThrough(worlds, actions, i, worlds[i].book[h].key)
  {
    InvHolds(worlds, actions, i);
    var m := SentWasAdmitted(worlds, actions, i, h);
    var k := worlds[i].book[h].key;
    if ReleasesBig(worlds[m], actions[m], k) {
      var j := BigWasFound(worlds, actions, m, k);
    } else if ReleasesForbidden(worlds[m], actions[m], k) {
      var j := ForbiddenWasFound(worlds, actions, m, k);
    }
  }
}
