/** The whole way of a deposit: registered, verified, paid, landed, recorded and stable. */
module Lifecycle {
  import opened SwapStatuses
  import opened Ledger
  import opened Passes
  import opened Payout
  import opened Progress
  import opened Outcomes

  /** Inputs of the passes that see to one deposit. */
  datatype Trip = Trip(key: Key, swap: Swap, info: string, verify: Env, pay: Env, find: Env, mark: Env,
                       hash: TxHash, nonce: nat, value: string, ttl: nat, success: bool, tip: nat)

  predicate IsFresh(w: World, t: Trip) {
    && t.key !in w.db.swaps && t.key !in w.db.results && t.swap.status == TxNotStable
    && !t.verify.blacklisted && Quiet(t.pay) && t.value != ""
    && SignsFor(w.book, t.hash, Tx(t.key, t.pay.routerMPC, t.nonce))
    && t.nonce == Latest(w.chain, t.pay.routerMPC) && t.hash !in w.chain.landed
  }

  /** The first three passes of the trip. */
  function Paid(w: World, t: Trip, ok: seq<bool>): World {
    var w1 := After(w, Register(t.key, t.swap, t.verify), ok);
    var w2 := After(w1, Verify(t.key, Verified(t.info, false), t.verify), ok);
    After(w2, DoSwap(t.key, t.pay, SignedTx(t.hash, t.nonce, t.value, t.ttl)), ok)
  }

  function PaidTables(db: Db, t: Trip): Db {
    Db(db.swaps[t.key := t.swap.(status := TxProcessed, timestamp := t.pay.now)],
       db.results[t.key := Result(t.info, t.pay.routerMPC, t.hash, [], 0, 0, t.value, t.nonce, MatchTxNotStable, t.pay.now, "", t.ttl)])
  }

  /** They leave the two rows of the payout and send it. */
  lemma FreshDepositIsPaid(w: World, t: Trip, ok: seq<bool>)
    requires IsFresh(w, t) && FaultFree(ok)
    ensures Paid(w, t, ok) == World(PaidTables(w.db, t), w.sent + {t.hash}, w.book, w.chain)
  {
    NewSwapIsRegistered(w, t.key, t.swap, t.verify, ok);
    var w1 := After(w, Register(t.key, t.swap, t.verify), ok);
    VerifiedDeposit(w1, t.key, t.info, t.verify, ok);
    var w2 := After(w1, Verify(t.key, Verified(t.info, false), t.verify), ok);
    SignedSwapIsSent(w2, t.key, t.pay, t.hash, t.nonce, t.value, t.ttl, ok);
    var w3 := Paid(w, t, ok);
    assert w3.db.swaps == w.db.swaps[t.key := t.swap.(status := TxProcessed, timestamp := t.pay.now)];
    assert w3.db.results == w.db.results[t.key := w3.db.results[t.key]];
  }

  lemma PaidKeepsInv(w: World, t: Trip, ok: seq<bool>)
    requires Inv(w) && IsFresh(w, t) && FaultFree(ok)
    ensures Inv(Paid(w, t, ok))
  {
    PassKeepsInv(w, Register(t.key, t.swap, t.verify), ok);
    var w1 := After(w, Register(t.key, t.swap, t.verify), ok);
    PassKeepsInv(w1, Verify(t.key, Verified(t.info, false), t.verify), ok);
    var w2 := After(w1, Verify(t.key, Verified(t.info, false), t.verify), ok);
    ExecLeavesChain(w, Plan(w, Register(t.key, t.swap, t.verify)), ok);
    ExecLeavesChain(w1, Plan(w1, Verify(t.key, Verified(t.info, false), t.verify)), ok);
    PassKeepsInv(w2, DoSwap(t.key, t.pay, SignedTx(t.hash, t.nonce, t.value, t.ttl)), ok);
  }

  lemma PaidDepositLands(w: World, t: Trip, ok: seq<bool>)
    requires Inv(w) && IsFresh(w, t) && FaultFree(ok)
    ensures Enabled(Paid(w, t, ok), Land(t.hash, t.success))
    ensures var w4 := Step(Paid(w, t, ok), Land(t.hash, t.success));
            && Inv(w4) && w4 == World(PaidTables(w.db, t), w.sent + {t.hash}, w.book, w4.chain)
            && w4.chain.required == w.chain.required && w4.chain.reportsStatus == w.chain.reportsStatus
            && w4.chain.landed == w.chain.landed[t.hash := Receipt(w.chain.tip, t.success)]
  {
    FreshDepositIsPaid(w, t, ok);
    PaidKeepsInv(w, t, ok);
    ChainStepKeepsInv(Paid(w, t, ok), Land(t.hash, t.success));
  }

  /**
    Without faults the transaction of a fresh deposit can land once it was sent, with success or
    without.  After two stable passes, the second at a tip deep enough, its result row holds
    exactly what was verified, signed and landed, and is failed exactly if the chain says so.
   */
  lemma DepositRunsThrough(w: World, t: Trip, ok: seq<bool>)
    requires Inv(w) && IsFresh(w, t) && FaultFree(ok)
    requires 0 < w.chain.tip && w.chain.tip + w.chain.required <= t.tip <= t.mark.cachedTip && t.mark.confKnown
    ensures Enabled(Paid(w, t, ok), Land(t.hash, t.success))
    ensures var w4 := Step(Paid(w, t, ok), Land(t.hash, t.success));
            var w5 := After(w4, Stable(t.key, t.find), ok);
            var w6 := After(w5.(chain := w5.chain.(tip := t.tip)), Stable(t.key, t.mark), ok);
            && w6.db.swaps == w.db.swaps[t.key := t.swap.(status := TxProcessed, timestamp := t.pay.now)]
            && w6.db.results == w.db.results[t.key :=
                 Result(t.info, t.pay.routerMPC, t.hash, [], w.chain.tip, t.find.blockTime, t.value, t.nonce,
                        if w.chain.reportsStatus && !t.success then MatchTxFailed else MatchTxStable, t.mark.now, "", t.ttl)]
            && w6.sent == w.sent + {t.hash} && w6.chain.landed == w.chain.landed[t.hash := Receipt(w.chain.tip, t.success)]
  {
    PaidDepositLands(w, t, ok);
    var w4 := Step(Paid(w, t, ok), Land(t.hash, t.success));
    LandedSwapBecomesStable(w4, t.key, t.find, t.mark, t.hash, t.tip, ok);
  }
}
