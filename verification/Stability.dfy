/** What it takes for a swap result to be marked stable. */
module Stability {
  import opened SwapStatuses
  import opened Ledger
  import opened Passes
  import opened Payout

  predicate IsStable(w: World, k: Key) {
    k in w.db.results && w.db.results[k].status == MatchTxStable
  }

  predicate HasHeight(w: World, k: Key) {
    k in w.db.results && w.db.results[k].swapHeight != 0
  }

  /** The calls that can mark a row stable or give it a height. */
  predicate Marks(c: Call, k: Key) {
    c.key == k && ((c.SetResultStatus? && c.status == MatchTxStable) ||
                   (c.AddResult? && c.result.status == MatchTxStable) ||
                   (c.UpdateResult? && c.items.status == MatchTxStable))
  }

  predicate Raises(c: Call, k: Key) {
    c.key == k && ((c.AddResult? && c.result.swapHeight != 0) || (c.UpdateResult? && c.items.swapHeight != 0))
  }

  predicate SomeCall(plan: seq<Write>, p: Call -> bool) {
    exists i :: 0 <= i < |plan| && plan[i].effect.OnDb? && p(plan[i].effect.call)
  }

  lemma {:induction false} StableNeedsMark(w: World, plan: seq<Write>, ok: seq<bool>, k: Key)
    requires !IsStable(w, k) && IsStable(Exec(w, plan, ok), k)
    ensures SomeCall(plan, c => Marks(c, k))
    decreases |plan|
  {
    var w' := Perform(w, plan[0].effect).0;
    if !ok[0] {
      StableNeedsMark(w, plan[1..], ok[1..], k);
    } else if IsStable(w', k) {
      assert Marks(plan[0].effect.call, k);
    } else {
      StableNeedsMark(w', plan[1..], ok[1..], k);
    }
  }

  lemma {:induction false} HeightNeedsRaise(w: World, plan: seq<Write>, ok: seq<bool>, k: Key)
    requires !HasHeight(w, k) && HasHeight(Exec(w, plan, ok), k)
    ensures SomeCall(plan, c => Raises(c, k))
    decreases |plan|
  {
    var w' := Perform(w, plan[0].effect).0;
    if !ok[0] {
      HeightNeedsRaise(w, plan[1..], ok[1..], k);
    } else if HasHeight(w', k) {
      assert Raises(plan[0].effect.call, k);
    } else {
      HeightNeedsRaise(w', plan[1..], ok[1..], k);
    }
  }

  /** A transaction recorded for the swap is on chain, not known to have failed and deep enough. */
  ghost predicate ConfirmedBy(w: World, k: Key, h: TxHash) {
    && k in w.db.results && KnownTx(w.db.results[k], h)
    && h in w.chain.landed
    && !(w.chain.reportsStatus && !w.chain.landed[h].ok)
    && (w.chain.required == 0 || w.chain.landed[h].height + w.chain.required <= w.chain.tip)
  }

  /**
    A swap becomes stable only in the stable pass or the check of failed swaps, only while one
    of its recorded transactions is confirmed, and in the stable pass only with a height from before.
   */
  lemma StableIsJustified(w: World, a: Action, k: Key)
    requires Enabled(w, a) && !IsStable(w, k) && IsStable(Step(w, a), k)
    ensures a.RunPass? && a.pass.key == k && (a.pass.Stable? || a.pass.CheckFailed?)
    ensures exists h :: ConfirmedBy(w, k, h)
    ensures a.pass.Stable? ==> HasHeight(w, k)
  {
    var plan := Plan(w, a.pass);
    StableNeedsMark(w, plan, a.ok, k);
    var i :| 0 <= i < |plan| && plan[i].effect.OnDb? && Marks(plan[i].effect.call, k);
    MarkingPasses(w, a.pass, i, k);
    var r := w.db.results[k];
    Found(w.chain, r, a.pass.env.confKnown);
    var h := FindOnChain(w.chain, r, a.pass.env.confKnown).value.0;
    assert ConfirmedBy(w, k, h);
  }

  /** Calls that neither mark a row stable nor give it a height. */
  predicate Modest(c: Call) {
    match c
    case SetResultStatus(_, status, _, _) => status != MatchTxStable
    case AddResult(_, r) => r.status != MatchTxStable && r.swapHeight == 0
    case UpdateResult(_, items) => items.status != MatchTxStable && items.swapHeight == 0
    case _ => true
  }

  predicate AllModest(plan: seq<Write>) {
    forall i :: 0 <= i < |plan| && plan[i].effect.OnDb? ==> Modest(plan[i].effect.call)
  }

  lemma SwapPlanIsModest(w: World, k: Key, env: Env, signed: Signed)
    ensures AllModest(SwapPlan(w, k, env, signed))
  {
  }

  lemma ReplacePlanIsModest(w: World, k: Key, manual: bool, env: Env, signed: Signed)
    ensures AllModest(ReplacePlan(w, k, manual, env, signed))
  {
  }

  lemma OtherPlansAreModest(w: World, p: Pass)
    requires !p.Stable? && !p.CheckFailed?
    ensures AllModest(Plan(w, p))
  {
    match p
    case DoSwap(k, env, signed) => SwapPlanIsModest(w, k, env, signed);
    case Replace(k, manual, env, signed) => ReplacePlanIsModest(w, k, manual, env, signed);
    case _ =>
  }

  lemma MarkingPasses(w: World, p: Pass, i: nat, k: Key)
    requires i < |Plan(w, p)| && Plan(w, p)[i].effect.OnDb? && Marks(Plan(w, p)[i].effect.call, k)
    ensures p.key == k && (p.Stable? || p.CheckFailed?) && k in w.db.results
    ensures var f := FindOnChain(w.chain, w.db.results[k], p.env.confKnown);
            f.Some? && !f.value.1.failed && f.value.1.confirmations >= w.chain.required
    ensures p.Stable? ==> HasHeight(w, k)
  {
    if !p.Stable? && !p.CheckFailed? {
      OtherPlansAreModest(w, p);
    }
  }

  lemma RaisingPasses(w: World, p: Pass, i: nat, k: Key)
    requires i < |Plan(w, p)| && Plan(w, p)[i].effect.OnDb? && Raises(Plan(w, p)[i].effect.call, k)
    ensures p.Stable? && p.key == k
  {
    if !p.Stable? && !p.CheckFailed? {
      OtherPlansAreModest(w, p);
    }
  }

  // ---------------------------------------------------------------- theorems over runs

  /** Step j is a stable pass that gave the row its height. */
  ghost predicate RecordsHeight(worlds: seq<World>, actions: seq<Action>, j: nat, k: Key)
    requires |worlds| == |actions| + 1 && j < |actions|
  {
    actions[j].RunPass? && actions[j].pass.Stable? && actions[j].pass.key == k &&
    !HasHeight(worlds[j], k) && HasHeight(worlds[j + 1], k)
  }

  lemma {:induction false} HeightWasRecorded(worlds: seq<World>, actions: seq<Action>, i: nat, k: Key) returns (j: nat)
    requires IsRun(worlds, actions) && IsInitial(worlds[0]) && i < |worlds| && HasHeight(worlds[i], k)
    ensures j < i && RecordsHeight(worlds, actions, j, k)
    decreases i
  {
    var w, a := worlds[i - 1], actions[i - 1];
    if HasHeight(w, k) {
      j := HeightWasRecorded(worlds, actions, i - 1, k);
    } else {
      var plan := Plan(w, a.pass);
      HeightNeedsRaise(w, plan, a.ok, k);
      var m :| 0 <= m < |plan| && plan[m].effect.OnDb? && Raises(plan[m].effect.call, k);
      RaisingPasses(w, a.pass, m, k);
      j := i - 1;
    }
  }

  /**
    Step i of a run marks swap k stable: a recorded transaction is confirmed; if the stable
    worker does it, it wrote the height in an earlier step; and if the chain reports success
    flags, that transaction has really paid this swap.
   */
  lemma StableSwapIsPaid(worlds: seq<World>, actions: seq<Action>, i: nat, k: Key)
    requires IsRun(worlds, actions) && IsInitial(worlds[0]) && i < |actions|
    requires !IsStable(worlds[i], k) && IsStable(worlds[i + 1], k)
    ensures exists h :: ConfirmedBy(worlds[i], k, h) && h in worlds[i].book && worlds[i].book[h].key == k &&
                        (worlds[i].chain.reportsStatus ==> Succeeded(worlds[i].chain, h))
    ensures actions[i].RunPass?
    ensures actions[i].pass.Stable? ==> exists j: nat :: j < i && RecordsHeight(worlds, actions, j, k)
  {
    var w := worlds[i];
    InvHolds(worlds, actions, i);
    StableIsJustified(w, actions[i], k);
    var h :| ConfirmedBy(w, k, h);
    assert RowInv(w.book, k, w.db.results[k]);
    if actions[i].pass.Stable? {
      var j := HeightWasRecorded(worlds, actions, i, k);
    }
  }

  // ---------------------------------------------------------------- the recorded height is that of a recorded transaction

  /** A recorded height is the one at which a recorded transaction landed. */
  ghost predicate HasRealHeight(w: World, k: Key) {
    HasHeight(w, k) ==> exists h :: IsAtHeight(w, k, h, w.db.results[k].swapHeight)
  }

  ghost predicate IsAtHeight(w: World, k: Key, h: TxHash, height: nat) {
    h != "" && k in w.db.results && KnownTx(w.db.results[k], h) && h in w.chain.landed && w.chain.landed[h].height == height
  }

  ghost predicate HeightsAreReal(w: World) {
    forall k :: k in w.db.results ==> HasRealHeight(w, k)
  }

  predicate GivesNoHeight(c: Call) {
    (c.AddResult? ==> c.result.swapHeight == 0) && (c.UpdateResult? ==> c.items.swapHeight == 0)
  }

  ghost predicate GivesRealHeight(w: World, c: Call) {
    GivesNoHeight(c) || (c.UpdateResult? && exists h :: IsAtHeight(w, c.key, h, c.items.swapHeight))
  }

  lemma KeepsKnownTx(w: World, c: Call, h: TxHash)
    requires Inv(w) && Justified(w, OnDb(c)) && h != "" && c.key in w.db.results && KnownTx(w.db.results[c.key], h)
    requires !ClearsNonce(c, c.key)
    ensures c.key in Apply(w.db, c).db.results && KnownTx(Apply(w.db, c).db.results[c.key], h)
  {
    if Harmless(c) {
      HarmlessKeepsRow(w, c, c.key);
    } else if !c.SetResultStatus? {
      CarefulForgetsNothing(w, c, h);
    }
  }

  lemma CallKeepsHeights(w: World, c: Call)
    requires Inv(w) && HeightsAreReal(w) && Justified(w, OnDb(c)) && GivesRealHeight(w, c)
    ensures HeightsAreReal(w.(db := Apply(w.db, c).db))
  {
    var w' := w.(db := Apply(w.db, c).db);
    CallIsLocal(w.db, c);
    forall k | k in w'.db.results ensures HasRealHeight(w', k) {
      if k != c.key {
        assert HasRealHeight(w, k);
        if HasHeight(w', k) {
          var h :| IsAtHeight(w, k, h, w.db.results[k].swapHeight);
          assert IsAtHeight(w', k, h, w'.db.results[k].swapHeight);
        }
      } else if HasHeight(w', k) {
        assert HasRealHeight(w, k);
        var height := w'.db.results[k].swapHeight;
        assert exists h :: IsAtHeight(w, k, h, height);
        var h :| IsAtHeight(w, k, h, height);
        KeepsKnownTx(w, c, h);
        assert IsAtHeight(w', k, h, height);
      }
    }
  }

  predicate AllGiveNoHeight(plan: seq<Write>) {
    forall i :: 0 <= i < |plan| && plan[i].effect.OnDb? ==> GivesNoHeight(plan[i].effect.call)
  }

  lemma DeliveryKeepsHeights(w: World, h: TxHash)
    requires HeightsAreReal(w)
    ensures HeightsAreReal(w.(sent := w.sent + {h}))
  {
    var w' := w.(sent := w.sent + {h});
    forall k | k in w'.db.results ensures HasRealHeight(w', k) {
      assert HasRealHeight(w, k);
      if HasHeight(w, k) {
        var g :| IsAtHeight(w, k, g, w.db.results[k].swapHeight);
        assert IsAtHeight(w', k, g, w'.db.results[k].swapHeight);
      }
    }
  }

  lemma {:induction false} PlanKeepsHeights(w: World, plan: seq<Write>, ok: seq<bool>)
    requires Inv(w) && HeightsAreReal(w) && SafePlan(w, plan) && AllGiveNoHeight(plan)
    ensures HeightsAreReal(Exec(w, plan, ok))
    decreases |plan|
  {
    if plan != [] && ok != [] {
      if !ok[0] {
        if !plan[0].must { PlanKeepsHeights(w, plan[1..], ok[1..]); }
      } else {
        JustifiedKeepsInv(w, plan[0].effect);
        match plan[0].effect {
          case OnDb(c) => CallKeepsHeights(w, c);
          case Deliver(h) => DeliveryKeepsHeights(w, h);
        }
        PlanKeepsHeights(Perform(w, plan[0].effect).0, plan[1..], ok[1..]);
      }
    }
  }

  lemma StablePassKeepsHeights(w: World, k: Key, env: Env, ok: seq<bool>)
    requires Inv(w) && HeightsAreReal(w)
    ensures HeightsAreReal(Exec(w, StablePlan(w, k, env), ok))
  {
    var plan := StablePlan(w, k, env);
    StablePlanIsSafe(w, k, env);
    if AllGiveNoHeight(plan) {
      PlanKeepsHeights(w, plan, ok);
    } else {
      var c := plan[0].effect.call;
      assert |plan| == 1 && plan[1..] == [];
      Found(w.chain, w.db.results[k], env.confKnown);
      var h := FindOnChain(w.chain, w.db.results[k], env.confKnown).value.0;
      assert h in w.sent;
      assert IsAtHeight(w, k, h, c.items.swapHeight);
      CallKeepsHeights(w, c);
      assert Exec(w, plan, ok) == w || Exec(w, plan, ok) == w.(db := Apply(w.db, c).db);
    }
  }

  lemma CheckFailedGivesNoHeight(w: World, k: Key, env: Env)
    ensures AllGiveNoHeight(CheckFailedPlan(w, k, env))
  {
  }

  lemma OtherPlansGiveNoHeight(w: World, p: Pass)
    requires !p.Stable?
    ensures AllGiveNoHeight(Plan(w, p))
  {
    if p.CheckFailed? { CheckFailedGivesNoHeight(w, p.key, p.env); } else { OtherPlansAreModest(w, p); }
  }

  lemma PassKeepsHeights(w: World, p: Pass, ok: seq<bool>)
    requires Inv(w) && HeightsAreReal(w) && Enabled(w, RunPass(p, ok))
    ensures HeightsAreReal(Step(w, RunPass(p, ok)))
  {
    if p.Stable? {
      StablePassKeepsHeights(w, p.key, p.env, ok);
    } else {
      PassIsSafe(w, p, ok);
      OtherPlansGiveNoHeight(w, p);
      PlanKeepsHeights(w, Plan(w, p), ok);
    }
  }

  lemma ChainStepKeepsHeights(w: World, a: Action)
    requires HeightsAreReal(w) && Enabled(w, a) && !a.RunPass?
    ensures HeightsAreReal(Step(w, a))
  {
    var w' := Step(w, a);
    ChainStepAdvances(w, a);
    forall k | k in w'.db.results ensures HasRealHeight(w', k) {
      assert HasRealHeight(w, k);
      if HasHeight(w, k) {
        var h :| IsAtHeight(w, k, h, w.db.results[k].swapHeight);
        assert IsAtHeight(w', k, h, w'.db.results[k].swapHeight);
      }
    }
  }

  /** In every world of every run a recorded height is the height at which a recorded transaction of that swap landed. */
  lemma {:induction false} RecordedHeightIsReal(worlds: seq<World>, actions: seq<Action>, i: nat)
    requires IsRun(worlds, actions) && IsInitial(worlds[0]) && i < |worlds|
    ensures HeightsAreReal(worlds[i])
  {
    if i > 0 {
      var w, a := worlds[i - 1], actions[i - 1];
      RecordedHeightIsReal(worlds, actions, i - 1);
      InvHolds(worlds, actions, i - 1);
      if a.RunPass? { PassKeepsHeights(w, a.pass, a.ok); } else { ChainStepKeepsHeights(w, a); }
    }
  }
}
