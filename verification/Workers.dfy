/**
  The passes as methods that follow the code step by step, reading the tables, querying the
  chain and calling the database layer.  Each is proved to carry out, when nothing fails,
  exactly the plan that module Passes gives for it.
 */
module Workers {
  import opened SwapStatuses
  import opened Ledger
  import opened Passes
  import opened Store
  import opened Options

  /** A plan carried out without any fault. */
  function Carry(w: World, plan: seq<Write>): World
    decreases |plan|
  {
    if plan == [] then w
    else
      var (w', done) := Perform(w, plan[0].effect);
      if plan[0].must && !done then w' else Carry(w', plan[1..])
  }

  lemma {:induction false} CarryIsExec(w: World, plan: seq<Write>, ok: seq<bool>)
    requires |ok| >= |plan| && forall i :: 0 <= i < |ok| ==> ok[i]
    ensures Carry(w, plan) == Exec(w, plan, ok)
    decreases |plan|
  {
    if plan != [] { CarryIsExec(Perform(w, plan[0].effect).0, plan[1..], ok[1..]); }
  }

  lemma CarryTwo(w: World, a: Write, b: Write)
    ensures Carry(w, [a, b]) ==
            var (w', done) := Perform(w, a.effect);
            if a.must && !done then w' else Perform(w', b.effect).0
  {
    var w' := Perform(w, a.effect).0;
    assert [b][1..] == [];
    assert Carry(w', [b]) == Perform(w', b.effect).0;
    assert [a, b][1..] == [b];
  }

  lemma CarryThree(w: World, a: Write, b: Write, c: Write)
    ensures Carry(w, [a, b, c]) ==
            var (w', done) := Perform(w, a.effect);
            if a.must && !done then w' else Carry(w', [b, c])
  {
    assert [a, b, c][1..] == [b, c];
  }

  /** Looks for the transaction of a row on chain; an older one that is found becomes the current one. */
  method GetSwapTxStatus(c: Chain, swap: Result, confKnown: bool) returns (st: Option<TxStatus>, swapTx: TxHash)
    ensures FindOnChain(c, swap, confKnown) == if st.Some? then Some((swapTx, st.value)) else None
    ensures st.None? ==> swapTx == swap.swapTx
  {
    st, swapTx := Query(c, swap.swapTx, confKnown), swap.swapTx;
    if st.Some? {
      return;
    }
    var olds := swap.oldSwapTxs;
    for i := 0 to |olds|
      invariant FindIn(c, olds, confKnown) == FindIn(c, olds[i..], confKnown)
    {
      assert olds[i..][1..] == olds[i + 1..];
      if swap.swapTx == olds[i] {
        continue;
      }
      var found := Query(c, olds[i], confKnown);
      if found.Some? {
        return found, olds[i];
      }
    }
  }

  class Router {
    const store: SwapStore
    const book: map<TxHash, Tx>
    var sent: set<TxHash>
    var chain: Chain

    function State(): World
      reads this, store
    {
      World(store.Tables(), sent, book, chain)
    }

    constructor (store: SwapStore, book: map<TxHash, Tx>, chain: Chain)
      ensures State() == World(store.Tables(), {}, book, chain) && this.store == store
    {
      this.store, this.book, this.chain, this.sent := store, book, chain, {};
    }

    /** Adds the row that starts the payout of a verified swap, after the register status says so. */
    method PassVerification(k: Key, info: string, env: Env)
      modifies store
      ensures State() == Carry(old(State()), [Must(PassVerify(k, env.now)),
                                              Must(AddResult(k, InitialResult(info, MatchTxEmpty, env.now)))])
    {
      CarryTwo(State(), Must(PassVerify(k, env.now)), Must(AddResult(k, InitialResult(info, MatchTxEmpty, env.now))));
      var dbErr := store.PassRouterSwapVerify(k, env.now);
      if dbErr == NoError {
        dbErr := store.AddRouterSwapResult(k, InitialResult(info, MatchTxEmpty, env.now));
      }
    }

    /** The failure of the register write is ignored here. */
    method SaveSpecialSwapResult(k: Key, info: string, status: SwapStatus, env: Env)
      modifies store
      ensures State() == Carry(old(State()), [Try(SetSwapStatus(k, status, env.now, "")),
                                              Must(AddResult(k, InitialResult(info, status, env.now)))])
    {
      CarryTwo(State(), Try(SetSwapStatus(k, status, env.now, "")), Must(AddResult(k, InitialResult(info, status, env.now))));
      var err := store.UpdateRouterSwapStatus(k, status, env.now, "");
      err := store.AddRouterSwapResult(k, InitialResult(info, status, env.now));
    }

    /** A deposit that is still not stable: note its height, and give up once it is too old. */
    method KeepWaiting(k: Key, height: nat, tooOld: bool, memo: string, env: Env)
      modifies store
      ensures State() == Carry(old(State()),
                (if height > 0 then [Try(SetHeight(k, height))] else []) +
                (if tooOld then [Try(SetSwapStatus(k, TxVerifyFailed, env.now, memo)),
                                 Try(SetResultStatus(k, TxVerifyFailed, env.now, memo))] else []))
    {
      ghost var note := Try(SetHeight(k, height));
      ghost var a, b := Try(SetSwapStatus(k, TxVerifyFailed, env.now, memo)), Try(SetResultStatus(k, TxVerifyFailed, env.now, memo));
      assert [note] + [a, b] == [note, a, b] && [] + [a, b] == [a, b] && [note] + [] == [note];
      assert Carry(State(), [note]) == Perform(State(), note.effect).0;
      CarryThree(State(), note, a, b);
      var err;
      if height > 0 {
        err := store.UpdateRouterSwapHeight(k, height);
      }
      if tooOld {
        CarryTwo(State(), a, b);
        err := store.UpdateRouterSwapStatus(k, TxVerifyFailed, env.now, memo);
        err := store.UpdateRouterSwapResultStatus(k, TxVerifyFailed, env.now, memo);
      }
    }

    method ProcessRouterSwapVerify(k: Key, verdict: Verdict, env: Env)
      modifies store
      ensures State() == Carry(old(State()), VerifyPlan(old(State()), k, verdict, env))
    {
      if k !in store.swaps || store.swaps[k].status != TxNotStable {
        return;
      }
      var dbErr;
      if env.blacklisted {
        dbErr := store.UpdateRouterSwapStatus(k, SwapInBlacklist, env.now, "swap in blacklist");
        return;
      }
      match verdict
      case Verified(info, big) =>
        if big {
          dbErr := store.UpdateRouterSwapStatus(k, TxWithBigValue, env.now, "big swap value");
        } else {
          PassVerification(k, info, env);
        }
      case Unstable(height, tooOld, memo) =>
        KeepWaiting(k, height, tooOld, memo, env);
      case Rejected(status, memo) =>
        if status in {TxWithWrongValue, TxWithWrongPath, MissTokenConfig, NoUnderlyingToken, TxMaybeUnsafe} {
          dbErr := store.UpdateRouterSwapStatus(k, status, env.now, memo);
        } else {
          dbErr := store.UpdateRouterSwapStatus(k, TxVerifyFailed, env.now, memo);
        }
      case Forbidden(info) =>
        SaveSpecialSwapResult(k, info, SwapoutForbidden, env);
    }

    method RouterAdminPassBigValue(k: Key, info: string, env: Env)
      modifies store
      ensures State() == Carry(old(State()), PassBigValuePlan(old(State()), k, info, env))
    {
      if k !in store.swaps || store.swaps[k].status != TxWithBigValue {
        return;
      }
      if k in store.results {
        return;
      }
      CarryTwo(State(), Must(SetSwapStatus(k, TxNotSwapped, env.now, "")),
               Try(AddResult(k, InitialResult(info, MatchTxEmpty, env.now))));
      var err := store.UpdateRouterSwapStatus(k, TxNotSwapped, env.now, "");
      if err != NoError {
        return;
      }
      err := store.AddRouterSwapResult(k, InitialResult(info, MatchTxEmpty, env.now));
    }

    method RouterAdminPassForbiddenSwapout(k: Key, env: Env)
      modifies store
      ensures State() == Carry(old(State()), PassForbiddenPlan(old(State()), k, env))
    {
      if k !in store.results || store.results[k].status != SwapoutForbidden {
        return;
      }
      CarryTwo(State(), Try(SetResultStatus(k, MatchTxEmpty, env.now, "")), Must(SetSwapStatus(k, TxNotSwapped, env.now, "")));
      var err := store.UpdateRouterSwapResultStatus(k, MatchTxEmpty, env.now, "");
      err := store.UpdateRouterSwapStatus(k, TxNotSwapped, env.now, "");
    }

    method ProcessRouterSwapStable(k: Key, env: Env)
      modifies this, store
      ensures State() == Carry(old(State()), StablePlan(old(State()), k, env))
    {
      if k !in store.results || store.results[k].status != MatchTxNotStable {
        return;
      }
      var swap := store.results[k];
      if swap.swapHeight != 0 && swap.swapHeight + chain.required > env.cachedTip {
        return;
      }
      var st, swapTx := GetSwapTxStatus(chain, swap, env.confKnown);
      var err;
      if st.None? {
        if swap.swapHeight == 0 {
          var refused := CheckIfSwapNonceHasPassed(k, swap, false, env);
        }
        return;
      }
      if swap.swapHeight != 0 {
        if st.value.confirmations < chain.required {
          return;
        }
        if swapTx != swap.swapTx {
          CarryTwo(State(), Try(UpdateResult(k, KEEP.(swapTx := swapTx, timestamp := env.now))),
                   Must(SetResultStatus(k, if st.value.failed then MatchTxFailed else MatchTxStable, env.now, "")));
          err := store.UpdateRouterSwapResult(k, KEEP.(swapTx := swapTx, timestamp := env.now));
        }
        if st.value.failed {
          err := store.UpdateRouterSwapResultStatus(k, MatchTxFailed, env.now, "");
        } else {
          err := store.UpdateRouterSwapResultStatus(k, MatchTxStable, env.now, "");
        }
        return;
      }
      var items := KEEP.(swapHeight := st.value.height, swapTime := env.blockTime, timestamp := env.now);
      if swapTx != swap.swapTx {
        items := items.(swapTx := swapTx);
      }
      err := store.UpdateRouterSwapResult(k, items);
    }

    /**
      A row whose nonce is used up without any of its transactions on chain is marked failed.
      A replacement is refused if one of them is on chain or the nonce is used up.
     */
    method CheckIfSwapNonceHasPassed(k: Key, swap: Result, isReplace: bool, env: Env) returns (refused: bool)
      modifies store
      ensures var found := FindOnChain(old(State()).chain, swap, env.confKnown).Some?;
              && State() == Carry(old(State()), if found then [] else NoncePassedPlan(old(State()), k, swap, env))
              && (refused <==> isReplace && (found || Latest(old(State()).chain, swap.mpc) > swap.swapNonce > 0))
    {
      var nonce := Latest(chain, swap.mpc);
      var st, swapTx := GetSwapTxStatus(chain, swap, env.confKnown);
      if st.Some? {
        return isReplace;
      }
      refused := false;
      if nonce > swap.swapNonce && swap.swapNonce > 0 {
        refused := isReplace;
        if swap.timestamp < env.sepTime {
          if swap.status == Reswapping {
            return;
          }
          var err := store.UpdateRouterSwapResultStatus(k, MatchTxFailed, env.now, "");
        }
      }
    }

    method CheckFailedRouterSwap(k: Key, env: Env)
      modifies store
      ensures State() == Carry(old(State()), CheckFailedPlan(old(State()), k, env))
    {
      if k !in store.results || store.results[k].status != MatchTxFailed {
        return;
      }
      var swap := store.results[k];
      if (swap.swapNonce == 0 && swap.swapHeight == 0) || swap.swapTx == "" {
        return;
      }
      if swap.mpc != env.routerMPC {
        return;
      }
      var st, swapTx := GetSwapTxStatus(chain, swap, env.confKnown);
      var err;
      if st.Some? {
        if st.value.failed {
          return;
        }
        if st.value.confirmations < chain.required {
          err := store.UpdateRouterSwapResultStatus(k, MatchTxNotStable, env.now, "");
          return;
        }
        err := store.UpdateRouterSwapResultStatus(k, MatchTxStable, env.now, "");
        return;
      }
      var nonce := Latest(chain, swap.mpc);
      if nonce <= swap.swapNonce {
        err := store.UpdateRouterSwapResultStatus(k, MatchTxNotStable, env.now, "");
      }
    }

    method RouterAdminReswap(k: Key, env: Env)
      modifies store
      ensures State() == Carry(old(State()), ReswapPlan(old(State()), k, env))
    {
      if k !in store.swaps || store.swaps[k].status != TxProcessed {
        return;
      }
      if k !in store.results || store.results[k].status != MatchTxFailed {
        return;
      }
      var res := store.results[k];
      if res.swapTx == "" {
        return;
      }
      var st, swapTx := GetSwapTxStatus(chain, res, env.confKnown);
      var err;
      if st.Some? && !st.value.failed {
        err := store.UpdateRouterSwapResultStatus(k, MatchTxNotStable, env.now, "");
        return;
      }
      var nonce := Latest(chain, res.mpc);
      if nonce <= res.swapNonce {
        return;
      }
      CarryTwo(State(), Must(SetResultStatus(k, Reswapping, env.now, "")), Must(SetSwapStatus(k, TxNotSwapped, env.now, "")));
      err := store.UpdateRouterSwapResultStatus(k, Reswapping, env.now, "");
      if err != NoError {
        return;
      }
      err := store.UpdateRouterSwapStatus(k, TxNotSwapped, env.now, "");
    }

    method Blacklist(k: Key, env: Env)
      modifies store
      ensures State() == Carry(old(State()), BlacklistPlan(k, env))
    {
      CarryTwo(State(), Try(SetSwapStatus(k, SwapInBlacklist, env.now, "swap in blacklist")),
               Try(SetResultStatus(k, SwapInBlacklist, env.now, "swap in blacklist")));
      var err := store.UpdateRouterSwapStatus(k, SwapInBlacklist, env.now, "swap in blacklist");
      err := store.UpdateRouterSwapResultStatus(k, SwapInBlacklist, env.now, "swap in blacklist");
    }

    method ReverifySwap(k: Key, fails: bool, env: Env)
      modifies store
      ensures State() == Carry(old(State()), ReverifyPlan(old(State()), k, fails, env))
    {
      if k in store.results && !IsPending(store.results[k].status) {
        return;
      }
      if fails {
        CarryTwo(State(), Try(SetSwapStatus(k, TxNotStable, env.now, "")),
                 Try(SetResultStatus(k, TxNotStable, env.now, "reverify failed")));
        var err := store.UpdateRouterSwapStatus(k, TxNotStable, env.now, "");
        err := store.UpdateRouterSwapResultStatus(k, TxNotStable, env.now, "reverify failed");
      }
    }

    /** Picks up a swap that waits for its payout, records the signed transaction and only then sends it. */
    method ProcessRouterSwap(k: Key, env: Env, signed: Signed)
      modifies this, store
      ensures State() == Carry(old(State()), SwapPlan(old(State()), k, env, signed))
    {
      if k !in store.swaps || store.swaps[k].status != TxNotSwapped {
        return;
      }
      if env.blacklisted {
        Blacklist(k, env);
        return;
      }
      var err;
      if k !in store.results {
        err := store.UpdateRouterSwapStatus(k, TxNotStable, env.now, "");
        return;
      }
      if env.delayed {
        return;
      }
      var res := store.results[k];
      if res.swapNonce > 0 || !IsPending(res.status) || res.swapTx != "" || res.swapHeight != 0 || |res.oldSwapTxs| > 0 {
        err := store.UpdateRouterSwapStatus(k, TxProcessed, env.now, "");
        return;
      }
      if env.routerMPC == "" {
        return;
      }
      DoSwap(k, env, signed);
    }

    method DoSwap(k: Key, env: Env, signed: Signed)
      requires k in store.swaps && store.swaps[k].status == TxNotSwapped && k in store.results
      requires !IsNonEmpty(store.results[k]) && !env.blacklisted && !env.delayed && env.routerMPC != ""
      modifies this, store
      ensures State() == Carry(old(State()), SwapPlan(old(State()), k, env, signed))
    {
      var err;
      match signed
      case BuildFailed(memo) =>
        if memo != "" {
          err := store.UpdateRouterSwapResult(k, KEEP.(memo := memo, timestamp := env.now));
        }
      case Disagree(fails) =>
        ReverifySwap(k, fails, env);
      case SignedTx(h, nonce, value, ttl) =>
        var items := RecordItems(h, nonce, env.routerMPC, value, env.now, ttl);
        CarryThree(State(), Must(UpdateResult(k, items)), Must(SetSwapStatus(k, TxProcessed, env.now, "")), Write(Deliver(h), true));
        err := store.UpdateRouterSwapResult(k, items);
        if err != NoError {
          return;
        }
        CarryTwo(State(), Must(SetSwapStatus(k, TxProcessed, env.now, "")), Write(Deliver(h), true));
        err := store.UpdateRouterSwapStatus(k, TxProcessed, env.now, "");
        if err != NoError {
          return;
        }
        sent := sent + {h};
    }

    /** Sends a further transaction with the nonce of the row, after adding it to the row. */
    method ReplaceRouterSwap(k: Key, manual: bool, env: Env, signed: Signed)
      modifies this, store
      ensures State() == Carry(old(State()), ReplacePlan(old(State()), k, manual, env, signed))
    {
      if k !in store.results || k !in store.swaps {
        return;
      }
      if env.blacklisted {
        Blacklist(k, env);
        return;
      }
      var res := store.results[k];
      if store.swaps[k].status != TxProcessed || res.swapTx == "" || (res.swapNonce == 0 && !manual) {
        return;
      }
      if res.status != MatchTxNotStable || (res.swapHeight != 0 && !manual) {
        return;
      }
      var refused := CheckIfSwapNonceHasPassed(k, res, true, env);
      if refused {
        return;
      }
      if res.mpc != env.routerMPC {
        return;
      }
      SignAndSendReplaceTx(k, env, signed);
    }

    method SignAndSendReplaceTx(k: Key, env: Env, signed: Signed)
      requires k in store.results && store.results[k].status == MatchTxNotStable
      modifies this, store
      ensures State() == Carry(old(State()), [Try(UpdateResult(k, KEEP.(timestamp := env.now)))] +
                match signed
                case BuildFailed(_) => []
                case Disagree(fails) => ReverifyPlan(old(State()), k, fails, env)
                case SignedTx(h, _, _, _) => [Must(AppendOldTx(k, h, env.now)), Write(Deliver(h), true)])
    {
      ghost var touch := Try(UpdateResult(k, KEEP.(timestamp := env.now)));
      ghost var before := State();
      var err := store.UpdateRouterSwapResult(k, KEEP.(timestamp := env.now));
      match signed
      case BuildFailed(_) =>
      case Disagree(fails) =>
        ReverifySwap(k, fails, env);
      case SignedTx(h, _, _, _) =>
        CarryThree(before, touch, Must(AppendOldTx(k, h, env.now)), Write(Deliver(h), true));
        CarryTwo(State(), Must(AppendOldTx(k, h, env.now)), Write(Deliver(h), true));
        assert [touch] + [Must(AppendOldTx(k, h, env.now)), Write(Deliver(h), true)] ==
               [touch, Must(AppendOldTx(k, h, env.now)), Write(Deliver(h), true)];
        err := store.UpdateRouterOldSwapTxs(k, h, env.now);
        if err != NoError {
          return;
        }
        sent := sent + {h};
    }
  }
}
