/**
  The workers and the admin actions as passes over one swap.

  A pass reads the tables and the destination chain once, decides, and then carries out a
  plan: a list of database calls and at most one delivery of a transaction.  Any of these
  may fail and the process may stop after any of them, which the fault script of `Exec`
  decides.  The destination chain consumes the nonces of a sender in order, each once.
 */
module Passes {
  import opened SwapStatuses
  import opened Ledger
  import opened Options

  // ---------------------------------------------------------------- destination chain

  /** A signed payout transaction; its hash determines it. */
  datatype Tx = Tx(key: Key, sender: string, nonce: nat)

  datatype Receipt = Receipt(height: nat, ok: bool)

  /**
    `latest` is the next nonce the chain accepts from a sender.  `reportsStatus` says whether
    receipts carry a success flag, and `required` is the configured number of confirmations.
   */
  datatype Chain = Chain(latest: map<string, nat>, landed: map<TxHash, Receipt>, tip: nat,
                         reportsStatus: bool, required: nat)

  datatype TxStatus = TxStatus(height: nat, failed: bool, confirmations: nat)

  function Latest(c: Chain, sender: string): nat {
    if sender in c.latest then c.latest[sender] else 0
  }

  /** A status query answers exactly for the transactions on chain; the confirmations may be unknown. */
  function Query(c: Chain, h: TxHash, confKnown: bool): Option<TxStatus> {
    if h !in c.landed then None
    else
      var r := c.landed[h];
      Some(TxStatus(r.height, c.reportsStatus && !r.ok, if confKnown && c.tip > r.height then c.tip - r.height else 0))
  }

  // ---------------------------------------------------------------- the whole system

  /** `book` says which transaction a hash stands for; `sent` are the hashes handed to the network. */
  datatype World = World(db: Db, sent: set<TxHash>, book: map<TxHash, Tx>, chain: Chain)

  datatype Effect =
    | OnDb(call: Call)
    | Deliver(hash: TxHash)

  /** A write of a plan; if a `must` write fails, the pass gives up. */
  datatype Write = Write(effect: Effect, must: bool)

  function Perform(w: World, e: Effect): (World, bool) {
    match e
    case OnDb(c) => var r := Apply(w.db, c); (w.(db := r.db), r.err == NoError)
    case Deliver(h) => (w.(sent := w.sent + {h}), true)
  }

  /** Carries out a plan.  `ok[i]` says whether write i reaches its target; a short script stops the pass early. */
  function Exec(w: World, plan: seq<Write>, ok: seq<bool>): World
    decreases |plan|
  {
    if plan == [] || ok == [] then w
    else if !ok[0] then
      if plan[0].must then w else Exec(w, plan[1..], ok[1..])
    else
      var (w', done) := Perform(w, plan[0].effect);
      if plan[0].must && !done then w' else Exec(w', plan[1..], ok[1..])
  }

  function Must(c: Call): Write { Write(OnDb(c), true) }

  function Try(c: Call): Write { Write(OnDb(c), false) }

  // ---------------------------------------------------------------- inputs of the passes

  /** What a pass is told by the clock, the configuration and the block-height cache. */
  datatype Env = Env(now: int, sepTime: int, blacklisted: bool, delayed: bool, routerMPC: string,
                     confKnown: bool, cachedTip: nat, blockTime: nat)

  datatype Signed =
    | BuildFailed(memo: string)        // an empty memo: no delay is recorded
    | Disagree(reverifyFails: bool)
    | SignedTx(hash: TxHash, nonce: nat, value: string, ttl: nat)

  datatype Verdict =
    | Verified(info: string, big: bool)
    | Unstable(height: nat, tooOld: bool, memo: string)
    | Rejected(status: SwapStatus, memo: string)
    | Forbidden(info: string)

  datatype Pass =
    | Register(key: Key, swap: Swap, env: Env)
    | Verify(key: Key, verdict: Verdict, env: Env)
    | PassBigValue(key: Key, info: string, env: Env)
    | PassForbidden(key: Key, env: Env)
    | DoSwap(key: Key, env: Env, signed: Signed)
    | Replace(key: Key, manual: bool, env: Env, signed: Signed)
    | Stable(key: Key, env: Env)
    | CheckFailed(key: Key, env: Env)
    | Reswap(key: Key, env: Env)
    | Forbid(key: Key, env: Env, memo: string)

  // ---------------------------------------------------------------- rows written by the passes

  const KEEP := Items("", "", 0, 0, "", 0, KeepStatus, 0, "", 0)

  function InitialResult(info: string, status: SwapStatus, now: int): Result {
    Result(info, "", "", [], 0, 0, "0", 0, status, now, "", 0)
  }

  function RecordItems(h: TxHash, nonce: nat, mpc: string, value: string, now: int, ttl: nat): Items {
    KEEP.(mpc := mpc, swapTx := h, swapValue := value, swapNonce := nonce, status := MatchTxNotStable, timestamp := now,
          ttl := ttl)
  }

  // ---------------------------------------------------------------- plans

  function Plan(w: World, p: Pass): seq<Write> {
    match p
    case Register(k, swap, env) => RegisterPlan(w, k, swap, env)
    case Verify(k, verdict, env) => VerifyPlan(w, k, verdict, env)
    case PassBigValue(k, info, env) => PassBigValuePlan(w, k, info, env)
    case PassForbidden(k, env) => PassForbiddenPlan(w, k, env)
    case DoSwap(k, env, signed) => SwapPlan(w, k, env, signed)
    case Replace(k, manual, env, signed) => ReplacePlan(w, k, manual, env, signed)
    case Stable(k, env) => StablePlan(w, k, env)
    case CheckFailed(k, env) => CheckFailedPlan(w, k, env)
    case Reswap(k, env) => ReswapPlan(w, k, env)
    case Forbid(k, env, memo) =>
      [Try(SetResultStatus(k, ManualMakeFail, env.now, memo)), Try(SetSwapStatus(k, ManualMakeFail, env.now, memo))]
  }

  function RegisterPlan(w: World, k: Key, swap: Swap, env: Env): seq<Write> {
    if k !in w.db.swaps then [Must(AddSwap(k, swap, true, env.now))]
    else if IsRegisteredOk(w.db.swaps[k].status) then [Try(AddSwap(k, swap, true, env.now))]  // refreshes a stale row
    else if k in w.db.results then []
    else [Must(SetInfoAndStatus(k, swap.info, swap.status, env.now, swap.memo))]
  }

  function VerifyPlan(w: World, k: Key, verdict: Verdict, env: Env): seq<Write> {
    if k !in w.db.swaps || w.db.swaps[k].status != TxNotStable then []
    else if env.blacklisted then [Must(SetSwapStatus(k, SwapInBlacklist, env.now, "swap in blacklist"))]
    else
      match verdict
      case Verified(info, big) =>
        if big then [Must(SetSwapStatus(k, TxWithBigValue, env.now, "big swap value"))]
        else [Must(PassVerify(k, env.now)), Must(AddResult(k, InitialResult(info, MatchTxEmpty, env.now)))]
      case Unstable(height, tooOld, memo) =>
        (if height > 0 then [Try(SetHeight(k, height))] else []) +
        (if tooOld then [Try(SetSwapStatus(k, TxVerifyFailed, env.now, memo)),
                         Try(SetResultStatus(k, TxVerifyFailed, env.now, memo))] else [])
      case Rejected(status, memo) =>
        // wrong value, wrong path, missing config, no underlying, unsafe or any other failure
        [Must(SetSwapStatus(k, if status in {TxWithWrongValue, TxWithWrongPath, MissTokenConfig, NoUnderlyingToken, TxMaybeUnsafe}
                               then status else TxVerifyFailed, env.now, memo))]
      case Forbidden(info) =>
        [Try(SetSwapStatus(k, SwapoutForbidden, env.now, "")),
         Must(AddResult(k, InitialResult(info, SwapoutForbidden, env.now)))]
  }

  function PassBigValuePlan(w: World, k: Key, info: string, env: Env): seq<Write> {
    if k !in w.db.swaps || w.db.swaps[k].status != TxWithBigValue || k in w.db.results then []
    else [Must(SetSwapStatus(k, TxNotSwapped, env.now, "")),
          Try(AddResult(k, InitialResult(info, MatchTxEmpty, env.now)))]
  }

  function PassForbiddenPlan(w: World, k: Key, env: Env): seq<Write> {
    if k !in w.db.results || w.db.results[k].status != SwapoutForbidden then []
    else [Try(SetResultStatus(k, MatchTxEmpty, env.now, "")), Must(SetSwapStatus(k, TxNotSwapped, env.now, ""))]
  }

  function BlacklistPlan(k: Key, env: Env): seq<Write> {
    [Try(SetSwapStatus(k, SwapInBlacklist, env.now, "swap in blacklist")),
     Try(SetResultStatus(k, SwapInBlacklist, env.now, "swap in blacklist"))]
  }

  /** After the signers disagreed the deposit is verified again; the register write is always refused. */
  function ReverifyPlan(w: World, k: Key, fails: bool, env: Env): seq<Write> {
    if k in w.db.results && !IsPending(w.db.results[k].status) then []
    else if !fails then []
    else [Try(SetSwapStatus(k, TxNotStable, env.now, "")), Try(SetResultStatus(k, TxNotStable, env.now, "reverify failed"))]
  }

  /** A row that already carries any trace of a payout. */
  predicate IsNonEmpty(r: Result) {
    r.swapNonce > 0 || !IsPending(r.status) || r.swapTx != "" || r.swapHeight != 0 || r.oldSwapTxs != []
  }

  function SwapPlan(w: World, k: Key, env: Env, signed: Signed): seq<Write> {
    if k !in w.db.swaps || w.db.swaps[k].status != TxNotSwapped then []
    else if env.blacklisted then BlacklistPlan(k, env)
    else if k !in w.db.results then [Try(SetSwapStatus(k, TxNotStable, env.now, ""))]
    else if env.delayed then []
    else if IsNonEmpty(w.db.results[k]) then [Try(SetSwapStatus(k, TxProcessed, env.now, ""))]
    else if env.routerMPC == "" then []
    else
      match signed
      case BuildFailed(memo) =>
        if memo == "" then [] else [Try(UpdateResult(k, KEEP.(memo := memo, timestamp := env.now)))]
      case Disagree(fails) => ReverifyPlan(w, k, fails, env)
      case SignedTx(h, nonce, value, ttl) =>
        [Must(UpdateResult(k, RecordItems(h, nonce, env.routerMPC, value, env.now, ttl))),
         Must(SetSwapStatus(k, TxProcessed, env.now, "")),
         Write(Deliver(h), true)]
  }

  /** The transaction of the row found on chain, the current one first, then the older ones in order. */
  function FindOnChain(c: Chain, r: Result, confKnown: bool): Option<(TxHash, TxStatus)> {
    if Query(c, r.swapTx, confKnown).Some? then Some((r.swapTx, Query(c, r.swapTx, confKnown).value))
    else FindIn(c, r.oldSwapTxs, confKnown)
  }

  function FindIn(c: Chain, txs: seq<TxHash>, confKnown: bool): Option<(TxHash, TxStatus)> {
    if txs == [] then None
    else if Query(c, txs[0], confKnown).Some? then Some((txs[0], Query(c, txs[0], confKnown).value))
    else FindIn(c, txs[1..], confKnown)
  }

  /** The nonce of the row was consumed although none of its transactions is on chain. */
  function NoncePassedPlan(w: World, k: Key, r: Result, env: Env): seq<Write> {
    if Latest(w.chain, r.mpc) > r.swapNonce && r.swapNonce > 0 && r.timestamp < env.sepTime && r.status != Reswapping
    then [Try(SetResultStatus(k, MatchTxFailed, env.now, ""))]
    else []
  }

  predicate Replaceable(w: World, k: Key, manual: bool) {
    && k in w.db.results && k in w.db.swaps
    && w.db.swaps[k].status == TxProcessed
    && var r := w.db.results[k];
    && r.swapTx != ""
    && (r.swapNonce != 0 || manual)
    && r.status == MatchTxNotStable
    && (r.swapHeight == 0 || manual)
  }

  function ReplacePlan(w: World, k: Key, manual: bool, env: Env, signed: Signed): seq<Write> {
    if k !in w.db.results || k !in w.db.swaps then []
    else if env.blacklisted then BlacklistPlan(k, env)
    else if !Replaceable(w, k, manual) then []
    else
      var r := w.db.results[k];
      if FindOnChain(w.chain, r, env.confKnown).Some? then []
      else if Latest(w.chain, r.mpc) > r.swapNonce && r.swapNonce > 0 then NoncePassedPlan(w, k, r, env)
      else if r.mpc != env.routerMPC then []
      else
        [Try(UpdateResult(k, KEEP.(timestamp := env.now)))] +
        match signed
        case BuildFailed(_) => []
        case Disagree(fails) => ReverifyPlan(w, k, fails, env)
        case SignedTx(h, _, _, _) =>
          [Must(AppendOldTx(k, h, env.now)), Write(Deliver(h), true)]
  }

  function StablePlan(w: World, k: Key, env: Env): seq<Write> {
    if k !in w.db.results || w.db.results[k].status != MatchTxNotStable then []
    else
      var r := w.db.results[k];
      if r.swapHeight != 0 && r.swapHeight + w.chain.required > env.cachedTip then []
      else
        match FindOnChain(w.chain, r, env.confKnown)
        case None => if r.swapHeight != 0 then [] else NoncePassedPlan(w, k, r, env)
        case Some((tx, st)) =>
          if r.swapHeight == 0 then
            [Must(UpdateResult(k, KEEP.(swapTx := if tx != r.swapTx then tx else "", swapHeight := st.height,
                                        swapTime := env.blockTime, timestamp := env.now)))]
          else if st.confirmations < w.chain.required then []
          else
            (if tx != r.swapTx then [Try(UpdateResult(k, KEEP.(swapTx := tx, timestamp := env.now)))] else []) +
            [Must(SetResultStatus(k, if st.failed then MatchTxFailed else MatchTxStable, env.now, ""))]
  }

  function CheckFailedPlan(w: World, k: Key, env: Env): seq<Write> {
    if k !in w.db.results || w.db.results[k].status != MatchTxFailed then []
    else
      var r := w.db.results[k];
      if (r.swapNonce == 0 && r.swapHeight == 0) || r.swapTx == "" || r.mpc != env.routerMPC then []
      else
        match FindOnChain(w.chain, r, env.confKnown)
        case Some((tx, st)) =>
          if st.failed then []
          else if st.confirmations < w.chain.required then [Must(SetResultStatus(k, MatchTxNotStable, env.now, ""))]
          else [Must(SetResultStatus(k, MatchTxStable, env.now, ""))]
        case None =>
          if Latest(w.chain, r.mpc) <= r.swapNonce then [Must(SetResultStatus(k, MatchTxNotStable, env.now, ""))] else []
  }

  function ReswapPlan(w: World, k: Key, env: Env): seq<Write> {
    if k !in w.db.swaps || w.db.swaps[k].status != TxProcessed then []
    else if k !in w.db.results || w.db.results[k].status != MatchTxFailed || w.db.results[k].swapTx == "" then []
    else
      var r := w.db.results[k];
      var found := FindOnChain(w.chain, r, env.confKnown);
      if found.Some? && !found.value.1.failed then [Try(SetResultStatus(k, MatchTxNotStable, env.now, ""))]
      else if Latest(w.chain, r.mpc) <= r.swapNonce then []
      else [Must(SetResultStatus(k, Reswapping, env.now, "")), Must(SetSwapStatus(k, TxNotSwapped, env.now, ""))]
  }

  // ---------------------------------------------------------------- runs

  datatype Action =
    | RunPass(pass: Pass, ok: seq<bool>)
    | Land(hash: TxHash, success: bool)
    | ForeignTx(sender: string)
    | Mine

  /** Signing `tx` yields a non-empty hash that stands for `tx` and nothing else. */
  predicate SignsFor(book: map<TxHash, Tx>, h: TxHash, tx: Tx) {
    h != "" && h in book && book[h] == tx
  }

  predicate Enabled(w: World, a: Action) {
    match a
    case RunPass(p, _) =>
      (p.Register? ==> IsFirstStatus(p.swap.status)) &&
      (p.DoSwap? && p.signed.SignedTx? ==>
         SignsFor(w.book, p.signed.hash, Tx(p.key, p.env.routerMPC, p.signed.nonce))) &&
      (p.Replace? && p.signed.SignedTx? && p.key in w.db.results ==>
         SignsFor(w.book, p.signed.hash, Tx(p.key, w.db.results[p.key].mpc, w.db.results[p.key].swapNonce)))
    case Land(h, _) =>
      h in w.sent && h in w.book && h !in w.chain.landed && w.book[h].nonce == Latest(w.chain, w.book[h].sender)
    case ForeignTx(_) => true
    case Mine => true
  }

  function Consume(c: Chain, sender: string): Chain {
    c.(latest := c.latest[sender := Latest(c, sender) + 1])
  }

  function Step(w: World, a: Action): World
    requires Enabled(w, a)
  {
    match a
    case RunPass(p, ok) => Exec(w, Plan(w, p), ok)
    case Land(h, success) =>
      var c := Consume(w.chain, w.book[h].sender);
      w.(chain := c.(landed := c.landed[h := Receipt(w.chain.tip, success)]))
    case ForeignTx(sender) => w.(chain := Consume(w.chain, sender))
    case Mine => w.(chain := w.chain.(tip := w.chain.tip + 1))
  }

  /** A run: every world follows from the one before by an enabled action. */
  ghost predicate IsRun(worlds: seq<World>, actions: seq<Action>) {
    && |worlds| == |actions| + 1
    && forall i :: 0 <= i < |actions| ==> Enabled(worlds[i], actions[i]) && worlds[i + 1] == Step(worlds[i], actions[i])
  }

  /** Start-up: empty tables, nothing sent, any nonces already consumed on chain. */
  ghost predicate IsInitial(w: World) {
    w.db == Db(map[], map[]) && w.sent == {} && w.chain.landed == map[] && w.chain.tip > 0
  }
}
