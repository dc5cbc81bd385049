/** How the register table and the result table agree, over every run. */
module TwoTables {
  import opened SwapStatuses
  import opened Ledger
  import opened Passes

  /** A swap with a result row: it is registered and no longer waits for verification. */
  predicate Settled(db: Db, k: Key) {
    k in db.results && k in db.swaps && db.swaps[k].status != TxNotStable
  }

  ghost predicate TablesInv(db: Db) {
    forall k :: k in db.results ==> Settled(db, k)
  }

  // ---------------------------------------------------------------- any interleaving of calls

  lemma CallKeepsSettled(db: Db, c: Call, k: Key)
    requires Settled(db, k)
    ensures Settled(Apply(db, c).db, k)
    ensures Apply(db, c).db.swaps[k].info == db.swaps[k].info
  {
  }

  /**
    Once a verified swap has a result row, no call whatsoever brings its register status back
    to TxNotStable or changes its registered swap info.
   */
  lemma {:induction false} SettledForever(db: Db, calls: seq<Call>, k: Key, i: nat, j: nat)
    requires i <= j <= |calls| && Settled(Run(db, calls[..i]), k)
    ensures Settled(Run(db, calls[..j]), k)
    ensures Run(db, calls[..j]).swaps[k].info == Run(db, calls[..i]).swaps[k].info
    decreases j
  {
    if i < j {
      SettledForever(db, calls, k, i, j - 1);
      RunStep(db, calls, j - 1);
      CallKeepsSettled(Run(db, calls[..j - 1]), calls[j - 1], k);
    }
  }

  // ---------------------------------------------------------------- passes

  lemma {:induction false} ExecKeepsSettled(w: World, plan: seq<Write>, ok: seq<bool>, k: Key)
    requires Settled(w.db, k)
    ensures Settled(Exec(w, plan, ok).db, k)
    ensures Exec(w, plan, ok).db.swaps[k].info == w.db.swaps[k].info
    decreases |plan|
  {
    if plan != [] && ok != [] {
      ExecKeepsSettled(w, plan[1..], ok[1..], k);
      if plan[0].effect.OnDb? { CallKeepsSettled(w.db, plan[0].effect.call, k); }
      ExecKeepsSettled(Perform(w, plan[0].effect).0, plan[1..], ok[1..], k);
    }
  }

  predicate AddsNoResult(plan: seq<Write>) {
    forall i :: 0 <= i < |plan| ==> plan[i].effect.OnDb? ==> !plan[i].effect.call.AddResult?
  }

  lemma {:induction false} NoNewResult(w: World, plan: seq<Write>, ok: seq<bool>)
    requires AddsNoResult(plan)
    ensures Exec(w, plan, ok).db.results.Keys == w.db.results.Keys
    decreases |plan|
  {
    if plan != [] && ok != [] {
      NoNewResult(w, plan[1..], ok[1..]);
      NoNewResult(Perform(w, plan[0].effect).0, plan[1..], ok[1..]);
    }
  }

  /** A plan whose second write adds the result row of a swap whose register status the first write sets. */
  lemma SecondWriteAdds(w: World, plan: seq<Write>, ok: seq<bool>, k: Key)
    requires |plan| == 2 && plan[0].effect.OnDb? && plan[1].effect.OnDb?
    requires !plan[0].effect.call.AddResult? && plan[1].effect.call.AddResult? && plan[1].effect.call.key == k
    requires plan[0].must || |ok| < 2 || ok[0] || !ok[1]
    requires var w1 := Perform(w, plan[0].effect).0; k in w1.db.swaps && w1.db.swaps[k].status != TxNotStable
    ensures forall m :: m in Exec(w, plan, ok).db.results && m !in w.db.results ==> Settled(Exec(w, plan, ok).db, m)
  {
    var w1 := Perform(w, plan[0].effect).0;
    assert plan[1..][1..] == [];
    if |ok| >= 1 && ok[0] {
      assert Exec(w, plan, ok) == w1 || Exec(w, plan, ok) == Exec(w1, plan[1..], ok[1..]);
      assert Exec(w1, plan[1..], ok[1..]) in {w1, Perform(w1, plan[1].effect).0};
    } else if |ok| >= 1 && !plan[0].must {
      assert Exec(w, plan, ok) == Exec(w, plan[1..], ok[1..]) == w;
    }
  }

  /** Saving the result of a forbidden swapout whose register write failed while the result write got through. */
  predicate LosesStatusWrite(w: World, a: Action) {
    && a.RunPass? && a.pass.Verify? && a.pass.verdict.Forbidden?
    && !a.pass.env.blacklisted
    && a.pass.key in w.db.swaps && w.db.swaps[a.pass.key].status == TxNotStable
    && |a.ok| >= 2 && !a.ok[0] && a.ok[1]
  }

  lemma OnlyTwoPassesAdd(w: World, p: Pass)
    requires !AddsNoResult(Plan(w, p))
    ensures p.Verify? || p.PassBigValue?
  {
  }

  lemma PassSettlesNewRows(w: World, a: Action, k: Key)
    requires Enabled(w, a) && a.RunPass? && !LosesStatusWrite(w, a)
    requires k !in w.db.results && k in Step(w, a).db.results
    ensures Settled(Step(w, a).db, k)
  {
    var plan := Plan(w, a.pass);
    if AddsNoResult(plan) {
      NoNewResult(w, plan, a.ok);
    } else {
      OnlyTwoPassesAdd(w, a.pass);
      SecondWriteAdds(w, plan, a.ok, a.pass.key);
    }
  }

  lemma StepKeepsTables(w: World, a: Action)
    requires Enabled(w, a) && TablesInv(w.db) && !LosesStatusWrite(w, a)
    ensures TablesInv(Step(w, a).db)
  {
    if a.RunPass? {
      forall k | k in Step(w, a).db.results ensures Settled(Step(w, a).db, k) {
        if k in w.db.results {
          ExecKeepsSettled(w, Plan(w, a.pass), a.ok, k);
        } else {
          PassSettlesNewRows(w, a, k);
        }
      }
    }
  }

  lemma LostWriteBreaksTables(w: World, a: Action)
    requires Enabled(w, a) && TablesInv(w.db) && LosesStatusWrite(w, a)
    ensures !TablesInv(Step(w, a).db)
  {
    var k, plan := a.pass.key, Plan(w, a.pass);
    assert k !in w.db.results by { assert !Settled(w.db, k); }
    var w1 := Perform(w, plan[1].effect).0;
    assert plan[1..] == [plan[1]] && plan[1..][1..] == [];
    assert Exec(w, plan[1..], a.ok[1..]) == Exec(w1, plan[1..][1..], a.ok[1..][1..]) == w1;
    assert k in Step(w, a).db.results && !Settled(Step(w, a).db, k);
  }

  // ---------------------------------------------------------------- theorems over runs

  lemma {:induction false} TablesUntil(worlds: seq<World>, actions: seq<Action>, i: nat)
    requires IsRun(worlds, actions) && IsInitial(worlds[0]) && i < |worlds|
    requires forall j :: 0 <= j < i ==> !LosesStatusWrite(worlds[j], actions[j])
    ensures TablesInv(worlds[i].db)
  {
    if i > 0 {
      TablesUntil(worlds, actions, i - 1);
      StepKeepsTables(worlds[i - 1], actions[i - 1]);
    }
  }

  /**
    The two tables agree in every world of a run exactly if in no pass the ignored register
    write of a forbidden swapout fails while its result write succeeds.
   */
  lemma TablesAgreeIff(worlds: seq<World>, actions: seq<Action>)
    requires IsRun(worlds, actions) && IsInitial(worlds[0])
    ensures (forall i :: 0 <= i < |worlds| ==> TablesInv(worlds[i].db)) <==>
            (forall j :: 0 <= j < |actions| ==> !LosesStatusWrite(worlds[j], actions[j]))
  {
    if forall j :: 0 <= j < |actions| ==> !LosesStatusWrite(worlds[j], actions[j]) {
      forall i | 0 <= i < |worlds| ensures TablesInv(worlds[i].db) {
        TablesUntil(worlds, actions, i);
      }
    } else {
      var j :| 0 <= j < |actions| && LosesStatusWrite(worlds[j], actions[j]);
      if TablesInv(worlds[j].db) {
        LostWriteBreaksTables(worlds[j], actions[j]);
        assert !TablesInv(worlds[j + 1].db);
      }
    }
  }

  /** From the world in which a verified swap has its result row on, its register row is settled for good. */
  lemma {:induction false} RegisterIsFrozen(worlds: seq<World>, actions: seq<Action>, i: nat, j: nat, k: Key)
    requires IsRun(worlds, actions) && i <= j < |worlds| && Settled(worlds[i].db, k)
    ensures Settled(worlds[j].db, k) && worlds[j].db.swaps[k].info == worlds[i].db.swaps[k].info
    decreases j
  {
    if i < j {
      RegisterIsFrozen(worlds, actions, i, j - 1, k);
      var w, a := worlds[j - 1], actions[j - 1];
      if a.RunPass? { ExecKeepsSettled(w, Plan(w, a.pass), a.ok, k); }
    }
  }
}
