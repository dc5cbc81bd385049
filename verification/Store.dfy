/**
  The calls of the database layer as methods that update the two tables in place.  Each
  method is proved to be the atomic step that module Ledger describes, so that what is
  proved about runs of calls holds of any interleaving of these methods.
 */
module Store {
  import opened SwapStatuses
  import opened Ledger

  class SwapStore {
    var swaps: map<Key, Swap>
    var results: map<Key, Result>

    function Tables(): Db
      reads this
    {
      Db(swaps, results)
    }

    constructor ()
      ensures Tables() == Db(map[], map[])
    {
      swaps, results := map[], map[];
    }

    method AddRouterSwap(k: Key, swap: Swap, valid: bool, now: int) returns (err: Error)
      modifies this
      ensures Reply(Tables(), err) == Apply(old(Tables()), AddSwap(k, swap, valid, now))
    {
      if !valid {
        return InvalidSwap;
      }
      if k !in swaps {
        swaps := swaps[k := swap];
        return NoError;
      }
      var present := swaps[k];
      if present.status == TxNotSwapped {
        if present.timestamp + DUP_REFRESH_SECONDS < now {
          swaps := swaps[k := present.(timestamp := now)];
        }
      }
      err := ItemIsDup;
    }

    method PassRouterSwapVerify(k: Key, now: int) returns (err: Error)
      modifies this`swaps
      ensures Reply(Tables(), err) == Apply(old(Tables()), PassVerify(k, now))
    {
      if k !in swaps {
        return ForbidPassVerify;
      }
      if swaps[k].status != TxNotStable {
        return ForbidPassVerify;
      }
      swaps := swaps[k := swaps[k].(status := TxNotSwapped, timestamp := now)];
      err := NoError;
    }

    method UpdateRouterSwapHeight(k: Key, height: nat) returns (err: Error)
      modifies this`swaps
      ensures Reply(Tables(), err) == Apply(old(Tables()), SetHeight(k, height))
    {
      if k in swaps {
        swaps := swaps[k := swaps[k].(txHeight := height)];
      }
      err := NoError;
    }

    method UpdateRouterSwapStatus(k: Key, status: SwapStatus, now: int, memo: string) returns (err: Error)
      modifies this`swaps
      ensures Reply(Tables(), err) == Apply(old(Tables()), SetSwapStatus(k, status, now, memo))
    {
      if status == TxNotStable {
        return ForbidNotStable;
      }
      if k in swaps {
        var row := swaps[k].(status := status, timestamp := now);
        if memo != "" {
          row := row.(memo := memo);
        } else if status == TxNotSwapped {
          row := row.(memo := "");
        }
        swaps := swaps[k := row];
      }
      err := NoError;
    }

    method UpdateRouterSwapInfoAndStatus(k: Key, info: string, status: SwapStatus, now: int, memo: string)
      returns (err: Error)
      modifies this`swaps
      ensures Reply(Tables(), err) == Apply(old(Tables()), SetInfoAndStatus(k, info, status, now, memo))
    {
      if k !in swaps {
        return ForbidUpdateInfo;
      }
      if IsRegisteredOk(swaps[k].status) {
        return ForbidUpdateInfo;
      }
      if k in results {
        return ForbidUpdateInfo;
      }
      var row := swaps[k].(info := info, status := status);
      row := row.(timestamp := now, initTime := now * 1000, memo := memo);
      swaps := swaps[k := row];
      err := NoError;
    }

    method AddRouterSwapResult(k: Key, r: Result) returns (err: Error)
      modifies this`results
      ensures Reply(Tables(), err) == Apply(old(Tables()), AddResult(k, r))
    {
      if k in results {
        return ItemIsDup;
      }
      results := results[k := r];
      err := NoError;
    }

    /**
      `ptr` is the nonce counter the caller points at and `ptr'` its value afterwards:
      a fresh allocation advances it, a recycled one empties it, a refusal leaves it.
      `marked` says whether the register write, whose failure is ignored, gets through.
     */
    method AllocateRouterSwapNonce(k: Key, mpc: string, value: string, ptr: nat, isRecycle: bool, now: int,
                                   marked: bool)
      returns (nonce: nat, err: Error, ptr': nat)
      modifies this
      ensures isRecycle && ptr == 0 ==> err == AlreadyRecycled && Tables() == old(Tables())
      ensures !(isRecycle && ptr == 0) ==> Reply(Tables(), err) == Apply(old(Tables()), AllocateNonce(k, mpc, ptr, value, now, marked))
      ensures err != NoError ==> ptr' == ptr && Tables() == old(Tables())
      ensures err == NoError ==> nonce == ptr && ptr' == if isRecycle then 0 else ptr + 1
    {
      nonce, ptr' := ptr, ptr;
      if isRecycle && nonce == 0 {
        return 0, AlreadyRecycled, ptr';
      }
      if k !in results {
        return 0, ItemNotFound, ptr';
      }
      err := CheckUpdate(results[k]);
      if err != NoError {
        return 0, err, ptr';
      }
      var row := results[k].(mpc := mpc, status := MatchTxNotStable, swapNonce := nonce, timestamp := now);
      if value != "" {
        row := row.(swapValue := value);
      }
      results := results[k := row];
      if marked && k in swaps {
        swaps := swaps[k := swaps[k].(status := TxProcessed, timestamp := now)];
      }
      if isRecycle {
        ptr' := 0;
      } else {
        ptr' := ptr' + 1;
      }
    }

    method UpdateRouterSwapResultStatus(k: Key, status: SwapStatus, now: int, memo: string) returns (err: Error)
      modifies this`results
      ensures Reply(Tables(), err) == Apply(old(Tables()), SetResultStatus(k, status, now, memo))
    {
      if k in results {
        var row := results[k].(status := status, timestamp := now);
        if memo != "" {
          row := row.(memo := memo);
        }
        if status == Reswapping {
          row := row.(memo := "", swapTx := "", oldSwapTxs := []);
          row := row.(swapHeight := 0, swapTime := 0, swapNonce := 0);
        }
        results := results[k := row];
      }
      err := NoError;
    }

    method UpdateRouterOldSwapTxs(k: Key, swapTx: TxHash, now: int) returns (err: Error)
      modifies this`results
      ensures Reply(Tables(), err) == Apply(old(Tables()), AppendOldTx(k, swapTx, now))
    {
      if swapTx == "" {
        return NoError;
      }
      if k !in results {
        return ItemNotFound;
      }
      var res := results[k];
      if swapTx == res.swapTx {
        return NoError;
      }
      for i := 0 to |res.oldSwapTxs|
        invariant swapTx !in res.oldSwapTxs[..i]
        invariant Tables() == old(Tables())
      {
        if swapTx == res.oldSwapTxs[i] {
          return NoError;
        }
      }
      var row := res.(timestamp := now);
      if res.status == TxNeedReswap {
        row := row.(swapTx := "");
      } else if res.status != MatchTxStable {
        row := row.(swapTx := swapTx);
      }
      if |res.oldSwapTxs| == 0 {
        row := row.(oldSwapTxs := [res.swapTx, swapTx]);
      } else {
        row := row.(oldSwapTxs := res.oldSwapTxs + [swapTx]);
      }
      results := results[k := row];
      err := NoError;
    }

    static method SetTextFields(r: Result, items: Items) returns (row: Result)
      ensures var m := ItemsMerged(r, items);
              row == r.(mpc := m.mpc, swapTx := m.swapTx, swapValue := m.swapValue, memo := m.memo)
    {
      row := r;
      if items.mpc != "" { row := row.(mpc := items.mpc); }
      if items.swapTx != "" { row := row.(swapTx := items.swapTx); }
      if items.swapValue != "" { row := row.(swapValue := items.swapValue); }
      if items.memo != "" {
        row := row.(memo := items.memo);
      } else if items.status == MatchTxNotStable {
        row := row.(memo := "");
      }
    }

    static method SetNumberFields(r: Result, items: Items) returns (row: Result)
      ensures var m := ItemsMerged(r, items);
              row == r.(swapHeight := m.swapHeight, swapTime := m.swapTime, ttl := m.ttl)
    {
      row := r;
      if items.swapHeight != 0 { row := row.(swapHeight := items.swapHeight); }
      if items.swapTime != 0 { row := row.(swapTime := items.swapTime); }
      if items.ttl != 0 { row := row.(ttl := items.ttl); }
    }

    method UpdateRouterSwapResult(k: Key, items: Items) returns (err: Error)
      modifies this`results
      ensures Reply(Tables(), err) == Apply(old(Tables()), UpdateResult(k, items))
    {
      if k !in results {
        return ItemNotFound;
      }
      var res := results[k];
      if res.status == MatchTxStable {
        return NoError;
      }
      var row := res.(timestamp := items.timestamp);
      row := SetTextFields(row, items);
      row := SetNumberFields(row, items);
      if items.status != KeepStatus {
        row := row.(status := items.status);
      }
      if items.swapNonce != 0 || items.status == MatchTxNotStable {
        err := CheckUpdate(res);
        if err != NoError {
          return err;
        }
        if items.swapNonce != 0 {
          row := row.(swapNonce := items.swapNonce);
        }
      }
      results := results[k := row];
      err := NoError;
    }
  }
}
