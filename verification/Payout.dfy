/** At most one successful payout per swap, over every run of passes and chain steps. */
module Payout {
  import opened SwapStatuses
  import opened Ledger
  import opened Passes
  import opened Options

  /** The transaction belongs to the attempt its row currently records. */
  ghost predicate Current(w: World, h: TxHash)
    requires h in w.book
  {
    w.book[h].key in w.db.results && KnownTx(w.db.results[w.book[h].key], h)
  }

  ghost predicate Succeeded(c: Chain, h: TxHash) {
    h in c.landed && c.landed[h].ok
  }

  /** The transaction did not pay and can no longer land, because its nonce is used up. */
  ghost predicate Dead(book: map<TxHash, Tx>, c: Chain, h: TxHash)
    requires h in book
  {
    book[h].nonce < Latest(c, book[h].sender) && !Succeeded(c, h)
  }

  /** Whatever was sent is recorded in its row, or can never pay. */
  ghost predicate SentInv(w: World) {
    forall h :: h in w.sent ==> h != "" && h in w.book && (Current(w, h) || Dead(w.book, w.chain, h))
  }

  /** The chain holds only sent transactions, and never two of one sender with the same nonce. */
  ghost predicate ChainInv(sent: set<TxHash>, book: map<TxHash, Tx>, c: Chain) {
    && (forall h :: h in c.landed ==> h in sent && h in book && book[h].nonce < Latest(c, book[h].sender))
    && (forall g, h :: g in c.landed && h in c.landed && SameSlot(book, g, h) ==> g == h)
  }

  ghost predicate SameSlot(book: map<TxHash, Tx>, g: TxHash, h: TxHash) {
    g in book && h in book && book[g].sender == book[h].sender && book[g].nonce == book[h].nonce
  }

  /**
    All transactions of one attempt pay the same swap with the same nonce of the same sender.
    Once a row has a list of older transactions, its current one is on that list.
   */
  ghost predicate RowInv(book: map<TxHash, Tx>, k: Key, r: Result) {
    && (forall h :: h != "" && KnownTx(r, h) ==> SignsFor(book, h, Tx(k, r.mpc, r.swapNonce)))
    && (r.oldSwapTxs != [] ==> r.swapTx == "" || r.swapTx in r.oldSwapTxs)
  }

  ghost predicate RowsInv(w: World) {
    forall k :: k in w.db.results ==> RowInv(w.book, k, w.db.results[k])
  }

  ghost predicate Inv(w: World) {
    SentInv(w) && ChainInv(w.sent, w.book, w.chain) && RowsInv(w)
  }

  // ---------------------------------------------------------------- which writes keep the invariant

  /** Calls that never change the recorded transactions, whatever the tables hold. */
  predicate Harmless(c: Call) {
    match c
    case AllocateNonce(_, _, _, _, _, _) => false
    case AppendOldTx(_, _, _) => false
    case AddResult(_, r) => r.swapTx == "" && r.oldSwapTxs == []
    case SetResultStatus(_, status, _, _) => status != Reswapping
    case UpdateResult(_, items) => items.swapTx == "" && items.swapNonce == 0 && items.mpc == ""
    case _ => true
  }

  /** The row has recorded nothing since it was created or last cleared. */
  predicate Unused(r: Result) {
    r.swapTx == "" && r.oldSwapTxs == [] && r.swapNonce == 0
  }

  ghost predicate Exhausted(w: World, k: Key) {
    forall h :: h in w.sent && h in w.book && w.book[h].key == k ==> Dead(w.book, w.chain, h)
  }

  /** The calls that do change them, and when they are safe. */
  ghost predicate Careful(w: World, c: Call) {
    match c
    case UpdateResult(k, items) =>
      k in w.db.results &&
      ((Unused(w.db.results[k]) && items.mpc != "" && SignsFor(w.book, items.swapTx, Tx(k, items.mpc, items.swapNonce))) ||
       (items.swapTx in w.db.results[k].oldSwapTxs && items.swapNonce == 0 && items.mpc == ""))
    case AppendOldTx(k, tx, _) =>
      k in w.db.results && SignsFor(w.book, tx, Tx(k, w.db.results[k].mpc, w.db.results[k].swapNonce))
    case SetResultStatus(k, _, _, _) => Exhausted(w, k)
    case _ => false
  }

  ghost predicate Justified(w: World, e: Effect) {
    match e
    case OnDb(c) => Harmless(c) || Careful(w, c)
    case Deliver(h) => h != "" && h in w.book && Current(w, h)
  }

  /** Enough for a call to keep the invariant: the rows it leaves behind, and what it forgets. */
  lemma RowWiseCall(w: World, w': World)
    requires Inv(w) && w' == w.(db := w'.db) && RowsInv(w')
    requires forall h :: h in w.sent && h in w.book && Current(w, h) ==> Current(w', h) || Exhausted(w, w.book[h].key)
    ensures Inv(w')
  {
    forall h | h in w'.sent ensures h != "" && h in w'.book && (Current(w', h) || Dead(w'.book, w'.chain, h)) {
      assert Current(w, h) || Dead(w.book, w.chain, h);
    }
  }

  lemma HarmlessKeepsRow(w: World, c: Call, k: Key)
    requires Harmless(c) && k in w.db.results && RowInv(w.book, k, w.db.results[k])
    ensures k in Apply(w.db, c).db.results
    ensures var r, r' := w.db.results[k], Apply(w.db, c).db.results[k];
            r'.swapTx == r.swapTx && r'.oldSwapTxs == r.oldSwapTxs && r'.swapNonce == r.swapNonce && r'.mpc == r.mpc
  {
  }

  lemma HarmlessCall(w: World, c: Call)
    requires Inv(w) && Harmless(c)
    ensures Inv(w.(db := Apply(w.db, c).db))
  {
    var w' := w.(db := Apply(w.db, c).db);
    forall k | k in w'.db.results ensures RowInv(w'.book, k, w'.db.results[k]) {
      if k in w.db.results {
        HarmlessKeepsRow(w, c, k);
        assert forall h :: KnownTx(w'.db.results[k], h) ==> KnownTx(w.db.results[k], h);
      } else {
        assert w'.db.results[k].swapTx == "" && w'.db.results[k].oldSwapTxs == [];
      }
    }
    forall h | h in w.sent && h in w.book && Current(w, h) ensures Current(w', h) {
      HarmlessKeepsRow(w, c, w.book[h].key);
    }
    RowWiseCall(w, w');
  }

  lemma CarefulRow(w: World, c: Call)
    requires Inv(w) && Careful(w, c)
    ensures c.key in Apply(w.db, c).db.results ==> RowInv(w.book, c.key, Apply(w.db, c).db.results[c.key])
  {
    if c.key in w.db.results {
      var r, r' := w.db.results[c.key], Apply(w.db, c).db.results[c.key];
      assert RowInv(w.book, c.key, r);
      forall h | h != "" && KnownTx(r', h) ensures SignsFor(w.book, h, Tx(c.key, r'.mpc, r'.swapNonce)) {
        match c
        case UpdateResult(_, items) =>
          assert h == r'.swapTx || KnownTx(r, h);
        case AppendOldTx(_, tx, _) =>
          assert h == tx || KnownTx(r, h);
        case SetResultStatus(_, _, _, _) =>
          assert KnownTx(r, h);
      }
    }
  }

  lemma CarefulForgetsNothing(w: World, c: Call, h: TxHash)
    requires Inv(w) && Careful(w, c) && !c.SetResultStatus?
    requires c.key in w.db.results && h != "" && KnownTx(w.db.results[c.key], h)
    ensures c.key in Apply(w.db, c).db.results && KnownTx(Apply(w.db, c).db.results[c.key], h)
  {
    assert RowInv(w.book, c.key, w.db.results[c.key]);
  }

  lemma CarefulCall(w: World, c: Call)
    requires Inv(w) && Careful(w, c)
    ensures Inv(w.(db := Apply(w.db, c).db))
  {
    var w' := w.(db := Apply(w.db, c).db);
    assert forall k :: k != c.key ==> (k in w'.db.results <==> k in w.db.results);
    assert forall k :: k != c.key && k in w.db.results ==> w'.db.results[k] == w.db.results[k];
    CarefulRow(w, c);
    forall k | k in w'.db.results ensures RowInv(w'.book, k, w'.db.results[k]) {
      if k != c.key {
        assert RowInv(w.book, k, w.db.results[k]);
      } else {
        assert RowInv(w.book, k, w'.db.results[k]);
      }
    }
    forall h | h in w.sent && h in w.book && Current(w, h)
      ensures Current(w', h) || Exhausted(w, w.book[h].key)
    {
      if w.book[h].key == c.key && !c.SetResultStatus? {
        CarefulForgetsNothing(w, c, h);
      }
    }
    RowWiseCall(w, w');
  }

  lemma DeliveryKeepsInv(w: World, h: TxHash)
    requires Inv(w) && h != "" && h in w.book && Current(w, h)
    ensures Inv(w.(sent := w.sent + {h}))
  {
    var w' := w.(sent := w.sent + {h});
    forall g | g in w'.sent ensures g != "" && g in w'.book && (Current(w', g) || Dead(w'.book, w'.chain, g)) {
      if g != h { assert Current(w, g) || Dead(w.book, w.chain, g); }
    }
    forall k | k in w'.db.results ensures RowInv(w'.book, k, w'.db.results[k]) {
      assert RowInv(w.book, k, w.db.results[k]);
    }
  }

  lemma JustifiedKeepsInv(w: World, e: Effect)
    requires Inv(w) && Justified(w, e)
    ensures Inv(Perform(w, e).0)
  {
    match e
    case OnDb(c) =>
      if Harmless(c) { HarmlessCall(w, c); } else { CarefulCall(w, c); }
    case Deliver(h) =>
      DeliveryKeepsInv(w, h);
  }

  // ---------------------------------------------------------------- plans keep the invariant

  /** Every write of the plan is justified when it is its turn, whichever optional writes failed before. */
  ghost predicate SafePlan(w: World, plan: seq<Write>)
    decreases |plan|
  {
    plan == [] ||
    (Justified(w, plan[0].effect) && SafePlan(Perform(w, plan[0].effect).0, plan[1..]) &&
     (!plan[0].must ==> SafePlan(w, plan[1..])))
  }

  lemma {:induction false} SafePlanKeepsInv(w: World, plan: seq<Write>, ok: seq<bool>)
    requires Inv(w) && SafePlan(w, plan)
    ensures Inv(Exec(w, plan, ok))
    decreases |plan|
  {
    if plan != [] && ok != [] {
      if !ok[0] {
        if !plan[0].must { SafePlanKeepsInv(w, plan[1..], ok[1..]); }
      } else {
        JustifiedKeepsInv(w, plan[0].effect);
        SafePlanKeepsInv(Perform(w, plan[0].effect).0, plan[1..], ok[1..]);
      }
    }
  }

  predicate AllHarmless(plan: seq<Write>) {
    forall i :: 0 <= i < |plan| ==> plan[i].effect.OnDb? && Harmless(plan[i].effect.call)
  }

  lemma {:induction false} HarmlessPlan(w: World, plan: seq<Write>)
    requires AllHarmless(plan)
    ensures SafePlan(w, plan)
    decreases |plan|
  {
    if plan != [] {
      HarmlessPlan(Perform(w, plan[0].effect).0, plan[1..]);
      HarmlessPlan(w, plan[1..]);
    }
  }

  lemma {:induction false} FoundInList(c: Chain, txs: seq<TxHash>, confKnown: bool)
    ensures FindIn(c, txs, confKnown).Some? ==>
              var (h, st) := FindIn(c, txs, confKnown).value; h in txs && Query(c, h, confKnown) == Some(st)
    ensures FindIn(c, txs, confKnown).None? ==> forall h :: h in txs ==> h !in c.landed
  {
    if txs != [] { FoundInList(c, txs[1..], confKnown); }
  }

  /** What looking up a row on chain tells: some recorded transaction is there, or none is. */
  lemma Found(c: Chain, r: Result, confKnown: bool)
    ensures FindOnChain(c, r, confKnown).Some? ==>
              var (h, st) := FindOnChain(c, r, confKnown).value;
              KnownTx(r, h) && Query(c, h, confKnown) == Some(st) && (h != r.swapTx ==> h in r.oldSwapTxs)
    ensures FindOnChain(c, r, confKnown).None? ==> forall h :: KnownTx(r, h) ==> h !in c.landed
  {
    FoundInList(c, r.oldSwapTxs, confKnown);
  }

  /** The admin check of a reswap: once it passes, no transaction sent so far can ever pay. */
  lemma ReswapMeansExhausted(w: World, k: Key, confKnown: bool)
    requires Inv(w) && k in w.db.results
    requires Latest(w.chain, w.db.results[k].mpc) > w.db.results[k].swapNonce
    requires FindOnChain(w.chain, w.db.results[k], confKnown).Some? ==>
               FindOnChain(w.chain, w.db.results[k], confKnown).value.1.failed
    ensures Exhausted(w, k)
  {
    var r := w.db.results[k];
    Found(w.chain, r, confKnown);
    assert RowInv(w.book, k, r);
    forall h | h in w.sent && h in w.book && w.book[h].key == k ensures Dead(w.book, w.chain, h) {
      assert Current(w, h) || Dead(w.book, w.chain, h);
      if Current(w, h) && Succeeded(w.chain, h) {
        var g := FindOnChain(w.chain, r, confKnown).value.0;
        assert g in w.chain.landed && g in w.sent;
        assert SameSlot(w.book, g, h);
        assert false;
      }
    }
  }

  lemma RecordAndDeliverIsSafe(w: World, k: Key, h: TxHash, nonce: nat, mpc: string, value: string, now: int, ttl: nat)
    requires Inv(w) && k in w.db.results && !IsNonEmpty(w.db.results[k]) && mpc != ""
    requires SignsFor(w.book, h, Tx(k, mpc, nonce))
    ensures SafePlan(w, [Must(UpdateResult(k, RecordItems(h, nonce, mpc, value, now, ttl))),
                         Must(SetSwapStatus(k, TxProcessed, now, "")),
                         Write(Deliver(h), true)])
  {
    var record := Must(UpdateResult(k, RecordItems(h, nonce, mpc, value, now, ttl)));
    var mark := Must(SetSwapStatus(k, TxProcessed, now, ""));
    var send := Write(Deliver(h), true);
    var w1 := Perform(w, record.effect).0;
    var w2 := Perform(w1, mark.effect).0;
    assert Current(w2, h) by {
      assert KnownTx(w1.db.results[k], h);
      assert w2.db.results == w1.db.results;
    }
    assert [send][1..] == [];
    assert SafePlan(w2, [send]);
    assert [mark, send][1..] == [send];
    assert SafePlan(w1, [mark, send]);
    assert [record, mark, send][1..] == [mark, send];
  }

  lemma SwapPlanIsSafe(w: World, k: Key, env: Env, signed: Signed)
    requires Inv(w)
    requires signed.SignedTx? ==> SignsFor(w.book, signed.hash, Tx(k, env.routerMPC, signed.nonce))
    ensures SafePlan(w, SwapPlan(w, k, env, signed))
  {
    var plan := SwapPlan(w, k, env, signed);
    if AllHarmless(plan) {
      HarmlessPlan(w, plan);
    } else {
      RecordAndDeliverIsSafe(w, k, signed.hash, signed.nonce, env.routerMPC, signed.value, env.now, signed.ttl);
    }
  }

  lemma ReplacePlanIsSafe(w: World, k: Key, manual: bool, env: Env, signed: Signed)
    requires Inv(w)
    requires signed.SignedTx? && k in w.db.results ==>
               SignsFor(w.book, signed.hash, Tx(k, w.db.results[k].mpc, w.db.results[k].swapNonce))
    ensures SafePlan(w, ReplacePlan(w, k, manual, env, signed))
  {
    var plan := ReplacePlan(w, k, manual, env, signed);
    if !AllHarmless(plan) {
      assert plan[0].effect.OnDb? && Harmless(plan[0].effect.call);
      AppendAndDeliverIsSafe(w, k, signed.hash, env.now);
      var w1 := Perform(w, plan[0].effect).0;
      HarmlessCall(w, plan[0].effect.call);
      HarmlessKeepsRow(w, plan[0].effect.call, k);
      AppendAndDeliverIsSafe(w1, k, signed.hash, env.now);
      assert plan[1..] == [Must(AppendOldTx(k, signed.hash, env.now)), Write(Deliver(signed.hash), true)];
    } else {
      HarmlessPlan(w, plan);
    }
  }

  lemma AppendAndDeliverIsSafe(w: World, k: Key, h: TxHash, now: int)
    requires Inv(w) && k in w.db.results
    requires SignsFor(w.book, h, Tx(k, w.db.results[k].mpc, w.db.results[k].swapNonce))
    ensures SafePlan(w, [Must(AppendOldTx(k, h, now)), Write(Deliver(h), true)])
  {
    var plan := [Must(AppendOldTx(k, h, now)), Write(Deliver(h), true)];
    var w1 := Perform(w, plan[0].effect).0;
    assert KnownTx(w1.db.results[k], h);
    assert Current(w1, h);
    assert plan[1..] == [plan[1]];
    assert SafePlan(w1, [plan[1]]);
  }

  lemma StablePlanIsSafe(w: World, k: Key, env: Env)
    requires Inv(w)
    ensures SafePlan(w, StablePlan(w, k, env))
  {
    var plan := StablePlan(w, k, env);
    if !AllHarmless(plan) {
      var r := w.db.results[k];
      Found(w.chain, r, env.confKnown);
      assert RowInv(w.book, k, r);
      assert Careful(w, plan[0].effect.call);
      assert AllHarmless(plan[1..]);
      HarmlessPlan(w, plan[1..]);
      HarmlessPlan(Perform(w, plan[0].effect).0, plan[1..]);
    } else {
      HarmlessPlan(w, plan);
    }
  }

  lemma ReswapPlanIsSafe(w: World, k: Key, env: Env)
    requires Inv(w)
    ensures SafePlan(w, ReswapPlan(w, k, env))
  {
    var plan := ReswapPlan(w, k, env);
    if !AllHarmless(plan) {
      ReswapMeansExhausted(w, k, env.confKnown);
      assert AllHarmless(plan[1..]);
      HarmlessPlan(Perform(w, plan[0].effect).0, plan[1..]);
    } else {
      HarmlessPlan(w, plan);
    }
  }

  predicate PlansCarefully(p: Pass) {
    p.DoSwap? || p.Replace? || p.Stable? || p.Reswap?
  }

  lemma OtherPlansAreHarmless(w: World, p: Pass)
    requires !PlansCarefully(p)
    ensures AllHarmless(Plan(w, p))
  {
  }

  lemma PassIsSafe(w: World, p: Pass, ok: seq<bool>)
    requires Inv(w) && Enabled(w, RunPass(p, ok))
    ensures SafePlan(w, Plan(w, p))
  {
    match p
    case DoSwap(k, env, signed) => SwapPlanIsSafe(w, k, env, signed);
    case Replace(k, manual, env, signed) => ReplacePlanIsSafe(w, k, manual, env, signed);
    case Stable(k, env) => StablePlanIsSafe(w, k, env);
    case Reswap(k, env) => ReswapPlanIsSafe(w, k, env);
    case _ =>
      OtherPlansAreHarmless(w, p);
      HarmlessPlan(w, Plan(w, p));
  }

  lemma PassKeepsInv(w: World, p: Pass, ok: seq<bool>)
    requires Inv(w) && Enabled(w, RunPass(p, ok))
    ensures Inv(Step(w, RunPass(p, ok)))
  {
    PassIsSafe(w, p, ok);
    SafePlanKeepsInv(w, Plan(w, p), ok);
  }

  /** The chain only moves forward. */
  ghost predicate Advances(c: Chain, c': Chain) {
    && (forall s :: Latest(c, s) <= Latest(c', s))
    && (forall h :: h in c.landed ==> h in c'.landed && c'.landed[h] == c.landed[h])
  }

  lemma ChainStepAdvances(w: World, a: Action)
    requires Enabled(w, a) && !a.RunPass?
    ensures Advances(w.chain, Step(w, a).chain)
    ensures Step(w, a) == w.(chain := Step(w, a).chain)
  {
  }

  lemma ChainStepKeepsInv(w: World, a: Action)
    requires Inv(w) && Enabled(w, a) && !a.RunPass?
    ensures Inv(Step(w, a))
  {
    var w' := Step(w, a);
    ChainStepAdvances(w, a);
    forall h | h in w'.sent ensures h != "" && h in w'.book && (Current(w', h) || Dead(w'.book, w'.chain, h)) {
      assert Current(w, h) || Dead(w.book, w.chain, h);
      if Current(w, h) { assert Current(w', h); }
    }
    forall g, h | g in w'.chain.landed && h in w'.chain.landed && SameSlot(w'.book, g, h) ensures g == h {
      assert SameSlot(w.book, g, h);
    }
    forall k | k in w'.db.results ensures RowInv(w'.book, k, w'.db.results[k]) {
      assert RowInv(w.book, k, w.db.results[k]);
    }
  }

  // ---------------------------------------------------------------- theorems over runs

  lemma {:induction false} InvHolds(worlds: seq<World>, actions: seq<Action>, i: nat)
    requires IsRun(worlds, actions) && IsInitial(worlds[0]) && i < |worlds|
    ensures Inv(worlds[i])
  {
    if i > 0 {
      InvHolds(worlds, actions, i - 1);
      var a := actions[i - 1];
      if a.RunPass? { PassKeepsInv(worlds[i - 1], a.pass, a.ok); } else { ChainStepKeepsInv(worlds[i - 1], a); }
    }
  }

  /** No two different successful transactions ever pay the same swap. */
  lemma AtMostOnePayout(worlds: seq<World>, actions: seq<Action>, i: nat, g: TxHash, h: TxHash)
    requires IsRun(worlds, actions) && IsInitial(worlds[0]) && i < |worlds|
    requires Succeeded(worlds[i].chain, g) && Succeeded(worlds[i].chain, h)
    ensures g in worlds[i].book && h in worlds[i].book
    ensures worlds[i].book[g].key == worlds[i].book[h].key ==> g == h
  {
    InvHolds(worlds, actions, i);
    var w := worlds[i];
    if w.book[g].key == w.book[h].key {
      assert Current(w, g) && Current(w, h);
      assert RowInv(w.book, w.book[g].key, w.db.results[w.book[g].key]);
      assert SameSlot(w.book, g, h);
    }
  }

  lemma {:induction false} ExecLeavesChain(w: World, plan: seq<Write>, ok: seq<bool>)
    ensures Exec(w, plan, ok).chain == w.chain && Exec(w, plan, ok).book == w.book
    decreases |plan|
  {
    if plan != [] && ok != [] {
      ExecLeavesChain(w, plan[1..], ok[1..]);
      ExecLeavesChain(Perform(w, plan[0].effect).0, plan[1..], ok[1..]);
    }
  }

  lemma StepKeepsPaid(w: World, a: Action, h: TxHash)
    requires Enabled(w, a) && Succeeded(w.chain, h)
    ensures Succeeded(Step(w, a).chain, h) && Step(w, a).book == w.book
  {
    if a.RunPass? { ExecLeavesChain(w, Plan(w, a.pass), a.ok); } else { ChainStepAdvances(w, a); }
  }

  lemma {:induction false} PaidStaysPaid(worlds: seq<World>, actions: seq<Action>, i: nat, j: nat, h: TxHash)
    requires IsRun(worlds, actions) && i <= j < |worlds|
    requires Succeeded(worlds[i].chain, h)
    ensures Succeeded(worlds[j].chain, h) && worlds[j].book == worlds[i].book
    decreases j
  {
    if i < j {
      PaidStaysPaid(worlds, actions, i, j - 1, h);
      StepKeepsPaid(worlds[j - 1], actions[j - 1], h);
    }
  }

  /** A payout is final: from then on it stays the only successful transaction of its swap. */
  lemma PayoutIsFinal(worlds: seq<World>, actions: seq<Action>, i: nat, j: nat, g: TxHash, h: TxHash)
    requires IsRun(worlds, actions) && IsInitial(worlds[0]) && i <= j < |worlds|
    requires Succeeded(worlds[i].chain, g) && Succeeded(worlds[j].chain, h)
    ensures g in worlds[j].book && h in worlds[j].book && Succeeded(worlds[j].chain, g)
    ensures worlds[j].book[h].key == worlds[j].book[g].key ==> h == g
  {
    PaidStaysPaid(worlds, actions, i, j, g);
    AtMostOnePayout(worlds, actions, j, g, h);
  }

  // ---------------------------------------------------------------- nothing is sent without a result row

  ghost predicate SentHasRow(w: World) {
    forall h :: h in w.sent ==> h in w.book && w.book[h].key in w.db.results
  }

  lemma {:induction false} SafePlanKeepsRows(w: World, plan: seq<Write>, ok: seq<bool>)
    requires Inv(w) && SafePlan(w, plan) && SentHasRow(w)
    ensures SentHasRow(Exec(w, plan, ok))
    decreases |plan|
  {
    if plan != [] && ok != [] {
      if !ok[0] {
        if !plan[0].must { SafePlanKeepsRows(w, plan[1..], ok[1..]); }
      } else {
        JustifiedKeepsInv(w, plan[0].effect);
        SafePlanKeepsRows(Perform(w, plan[0].effect).0, plan[1..], ok[1..]);
      }
    }
  }

  /** In every world of every run, whatever was sent belongs to a swap with a result row. */
  lemma {:induction false} SentHasRowHolds(worlds: seq<World>, actions: seq<Action>, i: nat)
    requires IsRun(worlds, actions) && IsInitial(worlds[0]) && i < |worlds|
    ensures SentHasRow(worlds[i])
  {
    if i > 0 {
      var w, a := worlds[i - 1], actions[i - 1];
      SentHasRowHolds(worlds, actions, i - 1);
      InvHolds(worlds, actions, i - 1);
      if a.RunPass? {
        PassIsSafe(w, a.pass, a.ok);
        SafePlanKeepsRows(w, Plan(w, a.pass), a.ok);
      } else {
        ChainStepAdvances(w, a);
      }
    }
  }
}
