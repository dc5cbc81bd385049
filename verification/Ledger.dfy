/**
  The two database tables of the router and every call that writes to them.

  A call is a value, and `Apply` is what it does to the tables when it runs alone
  under its lock.  Class `Store` in Store.dfy holds the same calls as methods that
  update the tables in place.
 */
module Ledger {
  import opened SwapStatuses

  type Key = string      // fromChainID:txid:logIndex
  type TxHash = string   // the empty string stands for "no transaction"

  const DUP_REFRESH_SECONDS := 3 * 24 * 3600

  /** A row of the register table. */
  datatype Swap = Swap(info: string, status: SwapStatus, txHeight: nat,
                       timestamp: int, initTime: int, memo: string)

  /** A row of the result table. */
  datatype Result = Result(info: string, mpc: string, swapTx: TxHash, oldSwapTxs: seq<TxHash>,
                           swapHeight: nat, swapTime: nat, swapValue: string, swapNonce: nat,
                           status: SwapStatus, timestamp: int, memo: string, ttl: nat)

  datatype Db = Db(swaps: map<Key, Swap>, results: map<Key, Result>)

  /** The optional fields of an update of a result row; zero or empty means "leave alone". */
  datatype Items = Items(mpc: string, swapTx: TxHash, swapHeight: nat, swapTime: nat, swapValue: string,
                         swapNonce: nat, status: SwapStatus, timestamp: int, memo: string, ttl: nat)

  datatype Error =
    | NoError
    | ItemNotFound
    | ItemIsDup
    | InvalidSwap
    | ForbidUpdateNonce
    | ForbidUpdateSwapTx
    | ForbidNotStable
    | ForbidPassVerify
    | ForbidUpdateInfo
    | AlreadyRecycled

  datatype Reply = Reply(db: Db, err: Error)

  datatype Call =
    | AddSwap(key: Key, swap: Swap, valid: bool, now: int)
    | PassVerify(key: Key, now: int)
    | SetHeight(key: Key, height: nat)
    | SetSwapStatus(key: Key, status: SwapStatus, now: int, memo: string)
    | SetInfoAndStatus(key: Key, info: string, status: SwapStatus, now: int, memo: string)
    | AddResult(key: Key, result: Result)
    | AllocateNonce(key: Key, mpc: string, nonce: nat, value: string, now: int, marked: bool)
    | SetResultStatus(key: Key, status: SwapStatus, now: int, memo: string)
    | AppendOldTx(key: Key, tx: TxHash, now: int)
    | UpdateResult(key: Key, items: Items)

  // ---------------------------------------------------------------- the calls

  function Apply(db: Db, c: Call): Reply {
    match c
    case AddSwap(k, swap, valid, now) => ApplyAddSwap(db, k, swap, valid, now)
    case PassVerify(k, now) => ApplyPassVerify(db, k, now)
    case SetHeight(k, h) =>
      Reply(if k in db.swaps then PutSwap(db, k, db.swaps[k].(txHeight := h)) else db, NoError)
    case SetSwapStatus(k, status, now, memo) => ApplySetSwapStatus(db, k, status, now, memo)
    case SetInfoAndStatus(k, info, status, now, memo) => ApplySetInfoAndStatus(db, k, info, status, now, memo)
    case AddResult(k, r) =>
      if k in db.results then Reply(db, ItemIsDup) else Reply(PutResult(db, k, r), NoError)
    case AllocateNonce(k, mpc, nonce, value, now, marked) => ApplyAllocateNonce(db, k, mpc, nonce, value, now, marked)
    case SetResultStatus(k, status, now, memo) => ApplySetResultStatus(db, k, status, now, memo)
    case AppendOldTx(k, tx, now) => ApplyAppendOldTx(db, k, tx, now)
    case UpdateResult(k, items) => ApplyUpdateResult(db, k, items)
  }

  function PutSwap(db: Db, k: Key, s: Swap): Db {
    db.(swaps := db.swaps[k := s])
  }

  function PutResult(db: Db, k: Key, r: Result): Db {
    db.(results := db.results[k := r])
  }

  function ApplyAddSwap(db: Db, k: Key, swap: Swap, valid: bool, now: int): Reply {
    if !valid then
      Reply(db, InvalidSwap)
    else if k !in db.swaps then
      Reply(PutSwap(db, k, swap), NoError)
    else if db.swaps[k].status == TxNotSwapped && db.swaps[k].timestamp + DUP_REFRESH_SECONDS < now then
      Reply(PutSwap(db, k, db.swaps[k].(timestamp := now)), ItemIsDup)
    else
      Reply(db, ItemIsDup)
  }

  function ApplyPassVerify(db: Db, k: Key, now: int): Reply {
    if k !in db.swaps || db.swaps[k].status != TxNotStable then
      Reply(db, ForbidPassVerify)
    else
      Reply(PutSwap(db, k, db.swaps[k].(status := TxNotSwapped, timestamp := now)), NoError)
  }

  function SwapStatusSet(s: Swap, status: SwapStatus, now: int, memo: string): Swap {
    s.(status := status, timestamp := now, memo := if memo != "" || status == TxNotSwapped then memo else s.memo)
  }

  /** An update of a row that is not there matches nothing and reports no error. */
  function ApplySetSwapStatus(db: Db, k: Key, status: SwapStatus, now: int, memo: string): Reply {
    if status == TxNotStable then
      Reply(db, ForbidNotStable)
    else
      Reply(if k in db.swaps then PutSwap(db, k, SwapStatusSet(db.swaps[k], status, now, memo)) else db, NoError)
  }

  function ApplySetInfoAndStatus(db: Db, k: Key, info: string, status: SwapStatus, now: int, memo: string): Reply {
    if k !in db.swaps || IsRegisteredOk(db.swaps[k].status) || k in db.results then
      Reply(db, ForbidUpdateInfo)
    else
      Reply(PutSwap(db, k, db.swaps[k].(info := info, status := status, timestamp := now,
                                        initTime := now * 1000, memo := memo)), NoError)
  }

  /** The guard in front of every write of a nonce. */
  function CheckUpdate(r: Result): Error {
    if r.swapNonce != 0 then ForbidUpdateNonce
    else if r.swapTx != "" then ForbidUpdateSwapTx
    else NoError
  }

  /** `marked` says whether the second write, to the register, gets through; its failure is ignored. */
  function ApplyAllocateNonce(db: Db, k: Key, mpc: string, nonce: nat, value: string, now: int, marked: bool): Reply {
    if k !in db.results then
      Reply(db, ItemNotFound)
    else if CheckUpdate(db.results[k]) != NoError then
      Reply(db, CheckUpdate(db.results[k]))
    else
      var r := db.results[k];
      var r' := r.(mpc := mpc, status := MatchTxNotStable, swapNonce := nonce, timestamp := now,
                   swapValue := if value != "" then value else r.swapValue);
      var db' := PutResult(db, k, r');
      Reply(if marked && k in db.swaps then PutSwap(db', k, db.swaps[k].(status := TxProcessed, timestamp := now)) else db',
            NoError)
  }

  function StatusUpdated(r: Result, status: SwapStatus, now: int, memo: string): Result {
    if status == Reswapping then
      r.(status := status, timestamp := now, memo := "", swapTx := "", oldSwapTxs := [],
         swapHeight := 0, swapTime := 0, swapNonce := 0)
    else
      r.(status := status, timestamp := now, memo := if memo != "" then memo else r.memo)
  }

  function ApplySetResultStatus(db: Db, k: Key, status: SwapStatus, now: int, memo: string): Reply {
    Reply(if k in db.results then PutResult(db, k, StatusUpdated(db.results[k], status, now, memo)) else db, NoError)
  }

  /** The row after a further transaction of the same swap was signed. */
  function OldTxAppended(r: Result, tx: TxHash, now: int): Result {
    r.(timestamp := now,
       swapTx := if r.status == TxNeedReswap then "" else if r.status != MatchTxStable then tx else r.swapTx,
       oldSwapTxs := if r.oldSwapTxs == [] then [r.swapTx, tx] else r.oldSwapTxs + [tx])
  }

  predicate KnownTx(r: Result, tx: TxHash) {
    tx == r.swapTx || tx in r.oldSwapTxs
  }

  function ApplyAppendOldTx(db: Db, k: Key, tx: TxHash, now: int): Reply {
    if tx == "" then Reply(db, NoError)
    else if k !in db.results then Reply(db, ItemNotFound)
    else if KnownTx(db.results[k], tx) then Reply(db, NoError)
    else Reply(PutResult(db, k, OldTxAppended(db.results[k], tx, now)), NoError)
  }

  function ItemsMerged(r: Result, items: Items): Result {
    r.(timestamp := items.timestamp,
       status := if items.status != KeepStatus then items.status else r.status,
       mpc := if items.mpc != "" then items.mpc else r.mpc,
       swapTx := if items.swapTx != "" then items.swapTx else r.swapTx,
       swapHeight := if items.swapHeight != 0 then items.swapHeight else r.swapHeight,
       swapTime := if items.swapTime != 0 then items.swapTime else r.swapTime,
       swapValue := if items.swapValue != "" then items.swapValue else r.swapValue,
       memo := if items.memo != "" || items.status == MatchTxNotStable then items.memo else r.memo,
       ttl := if items.ttl != 0 then items.ttl else r.ttl,
       swapNonce := if items.swapNonce != 0 then items.swapNonce else r.swapNonce)
  }

  predicate Guarded(items: Items) {
    items.swapNonce != 0 || items.status == MatchTxNotStable
  }

  function ApplyUpdateResult(db: Db, k: Key, items: Items): Reply {
    if k !in db.results then
      Reply(db, ItemNotFound)
    else if db.results[k].status == MatchTxStable then
      Reply(db, NoError)
    else if Guarded(items) && CheckUpdate(db.results[k]) != NoError then
      Reply(db, CheckUpdate(db.results[k]))
    else
      Reply(PutResult(db, k, ItemsMerged(db.results[k], items)), NoError)
  }

  // ---------------------------------------------------------------- runs of calls

  /** The tables after the given calls ran one after the other, whoever issued them. */
  function Run(db: Db, calls: seq<Call>): Db {
    if calls == [] then db else Apply(Run(db, calls[..|calls| - 1]), calls[|calls| - 1]).db
  }

  lemma RunStep(db: Db, calls: seq<Call>, i: nat)
    requires i < |calls|
    ensures Run(db, calls[..i + 1]) == Apply(Run(db, calls[..i]), calls[i]).db
  {
    assert calls[..i + 1][..i] == calls[..i];
  }

  predicate ClearsNonce(c: Call, k: Key) {
    c.SetResultStatus? && c.key == k && c.status == Reswapping
  }

  /** The calls that can empty the swap transaction of a row. */
  predicate ClearsTx(db: Db, c: Call, k: Key) {
    ClearsNonce(c, k) ||
    (c.AppendOldTx? && c.key == k && c.tx != "" && k in db.results &&
     db.results[k].status == TxNeedReswap && !KnownTx(db.results[k], c.tx))
  }

  /** A guarded recording of a swap transaction that reaches the row. */
  predicate Records(db: Db, c: Call, k: Key) {
    c.UpdateResult? && c.key == k && c.items.status == MatchTxNotStable && c.items.swapTx != "" &&
    k in db.results && db.results[k].status != MatchTxStable && Apply(db, c).err == NoError
  }

  lemma CallKeepsNonce(db: Db, c: Call, k: Key)
    requires k in db.results && db.results[k].swapNonce != 0 && !ClearsNonce(c, k)
    ensures k in Apply(db, c).db.results
    ensures Apply(db, c).db.results[k].swapNonce == db.results[k].swapNonce
  {
  }

  lemma CallKeepsTx(db: Db, c: Call, k: Key)
    requires k in db.results && db.results[k].swapTx != "" && !ClearsTx(db, c, k)
    ensures k in Apply(db, c).db.results
    ensures Apply(db, c).db.results[k].swapTx != ""
  {
  }

  /**
    A non-zero nonce of a row stays what it is over any further calls, by whichever worker,
    up to the first update of the row to Reswapping.
   */
  lemma {:induction false} NonceIsWriteOnce(db: Db, calls: seq<Call>, k: Key, i: nat, j: nat)
    requires i <= j <= |calls|
    requires k in Run(db, calls[..i]).results
    requires Run(db, calls[..i]).results[k].swapNonce != 0
    requires forall m :: i <= m < j ==> !ClearsNonce(calls[m], k)
    ensures k in Run(db, calls[..j]).results
    ensures Run(db, calls[..j]).results[k].swapNonce == Run(db, calls[..i]).results[k].swapNonce
    decreases j
  {
    if i < j {
      NonceIsWriteOnce(db, calls, k, i, j - 1);
      RunStep(db, calls, j - 1);
      CallKeepsNonce(Run(db, calls[..j - 1]), calls[j - 1], k);
    }
  }

  /** A recorded swap transaction can be exchanged for another one but not be emptied without a clear. */
  lemma {:induction false} TxStaysRecorded(db: Db, calls: seq<Call>, k: Key, i: nat, j: nat)
    requires i <= j <= |calls|
    requires k in Run(db, calls[..i]).results
    requires Run(db, calls[..i]).results[k].swapTx != ""
    requires forall m {:trigger calls[m]} :: i <= m < j ==> !ClearsTx(Run(db, calls[..m]), calls[m], k)
    ensures k in Run(db, calls[..j]).results
    ensures Run(db, calls[..j]).results[k].swapTx != ""
    decreases j
  {
    if i < j {
      TxStaysRecorded(db, calls, k, i, j - 1);
      RunStep(db, calls, j - 1);
      CallKeepsTx(Run(db, calls[..j - 1]), calls[j - 1], k);
    }
  }

  /**
    Two effective guarded recordings for one swap are always separated by a clear, so at most
    one of them takes effect between two clears.
   */
  lemma OneRecordingBetweenClears(db: Db, calls: seq<Call>, k: Key, i: nat, j: nat)
    requires i < j < |calls|
    requires Records(Run(db, calls[..i]), calls[i], k)
    requires Records(Run(db, calls[..j]), calls[j], k)
    ensures exists m {:trigger calls[m]} :: i < m < j && ClearsTx(Run(db, calls[..m]), calls[m], k)
  {
    RunStep(db, calls, i);
    if forall m {:trigger calls[m]} :: i < m < j ==> !ClearsTx(Run(db, calls[..m]), calls[m], k) {
      TxStaysRecorded(db, calls, k, i + 1, j);
      assert false;
    }
  }

  // ---------------------------------------------------------------- what each call does, by the rows it finds

  /** A swap is inserted once; a duplicate refreshes at most the timestamp of a row that waits for three days. */
  lemma AddSwapDoes(db: Db, k: Key, swap: Swap, valid: bool, now: int)
    ensures var r := Apply(db, AddSwap(k, swap, valid, now));
            && (!valid ==> r == Reply(db, InvalidSwap))
            && (valid && k !in db.swaps ==> r == Reply(db.(swaps := db.swaps[k := swap]), NoError))
            && (valid && k in db.swaps ==>
                  && r.err == ItemIsDup && r.db.results == db.results
                  && r.db.swaps == if db.swaps[k].status == TxNotSwapped && db.swaps[k].timestamp + 259200 < now
                                   then db.swaps[k := db.swaps[k].(timestamp := now)] else db.swaps)
  {
  }

  /** Only a swap in TxNotStable passes its verification, to TxNotSwapped. */
  lemma PassVerifyDoes(db: Db, k: Key, now: int)
    ensures var r := Apply(db, PassVerify(k, now));
            if k in db.swaps && db.swaps[k].status == TxNotStable
            then r == Reply(db.(swaps := db.swaps[k := db.swaps[k].(status := TxNotSwapped, timestamp := now)]), NoError)
            else r.db == db && r.err != NoError
  {
  }

  /** A register status is never set back to TxNotStable; the memo changes if one is given or the swap is to be swapped. */
  lemma SetSwapStatusDoes(db: Db, k: Key, status: SwapStatus, now: int, memo: string)
    ensures var r := Apply(db, SetSwapStatus(k, status, now, memo));
            && r.db.results == db.results
            && (status == TxNotStable ==> r.db == db && r.err != NoError)
            && (status != TxNotStable && k !in db.swaps ==> r == Reply(db, NoError))
            && (status != TxNotStable && k in db.swaps ==>
                  var row := db.swaps[k].(status := status, timestamp := now);
                  r.err == NoError && r.db.swaps == db.swaps[k := if memo == "" && status != TxNotSwapped then row else row.(memo := memo)])
  {
  }

  /** New info is taken exactly for a registered swap that was rejected and has no result row. */
  lemma SetInfoAndStatusDoes(db: Db, k: Key, info: string, status: SwapStatus, now: int, memo: string)
    ensures var r := Apply(db, SetInfoAndStatus(k, info, status, now, memo));
            if k in db.swaps && k !in db.results &&
               db.swaps[k].status !in {TxNotStable, TxNotSwapped, TxProcessed, TxMaybeUnsafe, ManualMakeFail}
            then r == Reply(db.(swaps := db.swaps[k := Swap(info, status, db.swaps[k].txHeight, now, now * 1000, memo)]), NoError)
            else r.db == db && r.err != NoError
  {
  }

  lemma SetHeightAndAddResultDo(db: Db, k: Key, height: nat, row: Result)
    ensures Apply(db, SetHeight(k, height)) ==
            Reply(if k in db.swaps then db.(swaps := db.swaps[k := db.swaps[k].(txHeight := height)]) else db, NoError)
    ensures k in db.results ==> Apply(db, AddResult(k, row)).db == db && Apply(db, AddResult(k, row)).err != NoError
    ensures k !in db.results ==> Apply(db, AddResult(k, row)) == Reply(db.(results := db.results[k := row]), NoError)
  {
  }

  /** A nonce goes exactly to a row without nonce and transaction, with its sender and value. */
  lemma AllocateNonceDoes(db: Db, k: Key, mpc: string, nonce: nat, value: string, now: int, marked: bool)
    ensures var r := Apply(db, AllocateNonce(k, mpc, nonce, value, now, marked));
            if k in db.results && db.results[k].swapNonce == 0 && db.results[k].swapTx == ""
            then && r.err == NoError
                 && r.db.results == db.results[k := db.results[k].(mpc := mpc, status := MatchTxNotStable, swapNonce := nonce, timestamp := now,
                                                                  swapValue := if value == "" then db.results[k].swapValue else value)]
                 && r.db.swaps == if marked && k in db.swaps then db.swaps[k := db.swaps[k].(status := TxProcessed, timestamp := now)] else db.swaps
            else r.db == db && r.err != NoError
  {
  }

  /** A result status is set as given; Reswapping alone clears what the attempt left. */
  lemma SetResultStatusDoes(db: Db, k: Key, status: SwapStatus, now: int, memo: string)
    ensures var r := Apply(db, SetResultStatus(k, status, now, memo));
            && r.err == NoError && r.db.swaps == db.swaps && (k !in db.results ==> r.db == db)
            && (k in db.results && status != Reswapping ==>
                  var row := db.results[k].(status := status, timestamp := now);
                  r.db.results == db.results[k := if memo == "" then row else row.(memo := memo)])
            && (k in db.results && status == Reswapping ==>
                  var row := db.results[k];
                  r.db.results == db.results[k := Result(row.info, row.mpc, "", [], 0, 0, row.swapValue, 0, Reswapping, now, "", row.ttl)])
  {
  }

  /** A further transaction is listed once, after the first one, and is current unless the row is stable or to be reswapped. */
  lemma AppendOldTxDoes(db: Db, k: Key, tx: TxHash, now: int)
    ensures var r := Apply(db, AppendOldTx(k, tx, now));
            && (tx != "" && k !in db.results ==> r.db == db && r.err != NoError)
            && (tx == "" || (k in db.results && (tx == db.results[k].swapTx || tx in db.results[k].oldSwapTxs)) ==> r == Reply(db, NoError))
            && (tx != "" && k in db.results && tx != db.results[k].swapTx && tx !in db.results[k].oldSwapTxs ==>
                  var row := db.results[k];
                  && r.err == NoError && r.db.swaps == db.swaps
                  && r.db.results == db.results[k := row.(timestamp := now,
                       swapTx := if row.status == TxNeedReswap then "" else if row.status == MatchTxStable then row.swapTx else tx,
                       oldSwapTxs := (if row.oldSwapTxs == [] then [row.swapTx] else row.oldSwapTxs) + [tx])])
  {
    if k in db.results { assert [db.results[k].swapTx] + [tx] == [db.results[k].swapTx, tx]; }
  }

  /** Field by field: what an update gives replaces the old value, what it leaves empty does not. */
  ghost predicate IsUpdated(r: Result, items: Items, r': Result) {
    && r'.info == r.info && r'.oldSwapTxs == r.oldSwapTxs && r'.timestamp == items.timestamp
    && (if items.status == KeepStatus then r'.status == r.status else r'.status == items.status)
    && (if items.mpc == "" then r'.mpc == r.mpc else r'.mpc == items.mpc)
    && (if items.swapTx == "" then r'.swapTx == r.swapTx else r'.swapTx == items.swapTx)
    && (if items.swapHeight == 0 then r'.swapHeight == r.swapHeight else r'.swapHeight == items.swapHeight)
    && (if items.swapTime == 0 then r'.swapTime == r.swapTime else r'.swapTime == items.swapTime)
    && (if items.swapValue == "" then r'.swapValue == r.swapValue else r'.swapValue == items.swapValue)
    && (if items.swapNonce == 0 then r'.swapNonce == r.swapNonce else r'.swapNonce == items.swapNonce)
    && (if items.ttl == 0 then r'.ttl == r.ttl else r'.ttl == items.ttl)
    && (if items.memo == "" && items.status != MatchTxNotStable then r'.memo == r.memo else r'.memo == items.memo)
  }

  /** A stable row is frozen; a nonce or a new unstable transaction needs a row without either; the rest is set field by field. */
  lemma UpdateResultDoes(db: Db, k: Key, items: Items)
    ensures var r := Apply(db, UpdateResult(k, items));
            && r.db.swaps == db.swaps
            && (k !in db.results ==> r.db == db && r.err != NoError)
            && (k in db.results && db.results[k].status == MatchTxStable ==> r == Reply(db, NoError))
            && (k in db.results && db.results[k].status != MatchTxStable ==>
                  var guarded := items.swapNonce != 0 || items.status == MatchTxNotStable;
                  if guarded && (db.results[k].swapNonce != 0 || db.results[k].swapTx != "") then r.db == db && r.err != NoError
                  else r.err == NoError && k in r.db.results && IsUpdated(db.results[k], items, r.db.results[k]) &&
                       r.db.results == db.results[k := r.db.results[k]])
  {
  }

  // ---------------------------------------------------------------- what a call leaves alone

  ghost predicate SameElsewhere<T>(m: map<Key, T>, m': map<Key, T>, k: Key) {
    forall j :: j != k ==> (j in m <==> j in m') && (j in m ==> m'[j] == m[j])
  }

  /** A call touches only the rows of its own swap and never removes one; a refused one leaves even these, but for a timestamp. */
  lemma CallIsLocal(db: Db, c: Call)
    ensures var db' := Apply(db, c).db;
            && SameElsewhere(db.swaps, db'.swaps, c.key) && SameElsewhere(db.results, db'.results, c.key)
            && db.swaps.Keys <= db'.swaps.Keys && db.results.Keys <= db'.results.Keys
            && (Apply(db, c).err != NoError ==>
                  db'.results == db.results &&
                  (db'.swaps == db.swaps ||
                   (c.key in db.swaps && db'.swaps == db.swaps[c.key := db.swaps[c.key].(timestamp := c.now)])))
  {
  }

  predicate IsAccepted(db: Db, k: Key) {
    k in db.swaps && db.swaps[k].status in {TxNotStable, TxNotSwapped, TxProcessed, TxMaybeUnsafe, ManualMakeFail}
  }

  lemma AcceptedKeepsInfo(db: Db, c: Call, k: Key)
    requires IsAccepted(db, k)
    ensures k in Apply(db, c).db.swaps && Apply(db, c).db.swaps[k].info == db.swaps[k].info
  {
  }

  /** While a swap is registered and not rejected, no call whatsoever changes its registered info. */
  lemma {:induction false} AcceptedInfoIsFixed(db: Db, calls: seq<Call>, k: Key, i: nat, j: nat)
    requires i <= j <= |calls|
    requires forall m {:trigger calls[..m]} :: i <= m < j ==> IsAccepted(Run(db, calls[..m]), k)
    requires k in Run(db, calls[..i]).swaps
    ensures k in Run(db, calls[..j]).swaps
    ensures Run(db, calls[..j]).swaps[k].info == Run(db, calls[..i]).swaps[k].info
    decreases j
  {
    if i < j {
      AcceptedInfoIsFixed(db, calls, k, i, j - 1);
      RunStep(db, calls, j - 1);
      AcceptedKeepsInfo(Run(db, calls[..j - 1]), calls[j - 1], k);
    }
  }
}
