/** The fee loop of a Bitcoin payout: it ends, and what goes in comes out. */
module BtcFee {
  import opened BtcSelection
  import opened Options

  datatype Script = ScriptHash | WitnessPubKeyHash | OtherScript

  /**
    The estimators of the transaction library: the virtual size for so many legacy, witness and
    nested inputs, the fee for a size, and whether an amount is dust.
   */
  datatype Estimator = Estimator(size: (nat, nat, nat) -> nat, fee: nat -> int, isDust: int -> bool)

  datatype Authored = Authored(inputs: seq<Utxo>, outputs: seq<int>, change: Option<int>, totalInput: int)

  datatype Outcome = Built(tx: Authored) | NotEnough(target: int) | NoChangeScript

  function Total(values: seq<int>): int {
    if values == [] then 0 else Total(values[..|values| - 1]) + values[|values| - 1]
  }

  /** The fee a transaction with n inputs of the sender's script must pay. */
  function RequiredFee(est: Estimator, script: Script, n: nat): int {
    est.fee(match script
            case ScriptHash => est.size(0, 0, n)
            case WitnessPubKeyHash => est.size(0, n, 0)
            case OtherScript => est.size(n, 0, 0))
  }

  function FeePaid(tx: Authored): int {
    tx.totalInput - Total(tx.outputs) - if tx.change.Some? then tx.change.value else 0
  }

  /** Counts the inputs of each kind. */
  method CountScripts(scripts: seq<Script>) returns (p2pkh: nat, p2wpkh: nat, nested: nat)
    ensures p2pkh == multiset(scripts)[OtherScript]
    ensures p2wpkh == multiset(scripts)[WitnessPubKeyHash]
    ensures nested == multiset(scripts)[ScriptHash]
  {
    p2pkh, p2wpkh, nested := 0, 0, 0;
    for i := 0 to |scripts|
      invariant p2pkh == multiset(scripts[..i])[OtherScript]
      invariant p2wpkh == multiset(scripts[..i])[WitnessPubKeyHash]
      invariant nested == multiset(scripts[..i])[ScriptHash]
    {
      assert scripts[..i + 1] == scripts[..i] + [scripts[i]];
      match scripts[i]
      case ScriptHash => nested := nested + 1;
      case WitnessPubKeyHash => p2wpkh := p2wpkh + 1;
      case OtherScript => p2pkh := p2pkh + 1;
    }
    assert scripts[..|scripts|] == scripts;
  }

  lemma {:induction false} SameScripts(n: nat, script: Script)
    ensures multiset(seq(n, i => script)) == multiset{}[script := n]
  {
    if n > 0 {
      SameScripts(n - 1, script);
      assert seq(n, i => script) == seq(n - 1, i => script) + [script];
    }
  }

  /** A retry after n inputs raised the target beyond them, so the next selection takes more. */
  lemma NextSelectionIsLarger(w: Wallet, utxos: seq<Utxo>, last: nat, target: int, n: nat)
    requires last <= |Spendable(w, utxos)| && (last > 0 ==> Sum(Spendable(w, utxos)[..last]) < target)
    requires IsSelection(Spendable(w, utxos), target, n)
    ensures last < n
  {
    var e := Spendable(w, utxos);
    SpendableMembers(w, utxos);
    if n <= last { PrefixSumsGrow(e, n, last); }
  }

  /**
    What a finished transaction satisfies: inputs equal outputs plus change plus fee; with change
    the fee is exactly the required one, without it the fee exceeds that by nothing or by dust.
   */
  ghost predicate Balanced(tx: Authored, outputs: seq<int>, est: Estimator, required: int) {
    && tx.outputs == outputs
    && tx.totalInput == Sum(tx.inputs) == Total(outputs) + (if tx.change.Some? then tx.change.value else 0) + FeePaid(tx)
    && (tx.change.Some? ==> FeePaid(tx) == required && tx.change.value > 0 && !est.isDust(tx.change.value))
    && (tx.change.None? ==>
          FeePaid(tx) == required || (FeePaid(tx) > required && est.isDust(FeePaid(tx) - required)))
  }

  method Finish(inputs: seq<Utxo>, inputAmount: int, outputs: seq<int>, est: Estimator, required: int, hasChangeScript: bool)
    returns (r: Outcome)
    requires inputAmount == Sum(inputs) && inputAmount - Total(outputs) >= required
    ensures !r.NotEnough?
    ensures var left := inputAmount - Total(outputs) - required;
            r.NoChangeScript? <==> !hasChangeScript && left != 0 && !est.isDust(left)
    ensures r.Built? ==> r.tx.inputs == inputs && Balanced(r.tx, outputs, est, required)
  {
    var changeAmount := inputAmount - Total(outputs) - required;
    var change := None;
    if changeAmount != 0 && !est.isDust(changeAmount) {
      if !hasChangeScript {
        return NoChangeScript;
      }
      change := Some(changeAmount);
    }
    r := Built(Authored(inputs, outputs, change, inputAmount));
  }

  lemma {:induction false} TotalIsAdditive(a: seq<int>, b: seq<int>, x: int)
    ensures Total(a + b) == Total(a) + Total(b) && Total([x]) == x
    decreases |b|
  {
    assert [x][..0] == [];
    if b == [] {
      assert a + b == a;
    } else {
      TotalIsAdditive(a, b[..|b| - 1], x);
      assert (a + b)[..|a + b| - 1] == a + b[..|b| - 1];
    }
  }

  /** The fee is that of the size with as many inputs of each kind as there are among n inputs of this script. */
  lemma RequiredFeeByKind(est: Estimator, script: Script, n: nat)
    ensures var kinds := multiset(seq(n, _ => script));
            RequiredFee(est, script, n) == est.fee(est.size(kinds[OtherScript], kinds[WitnessPubKeyHash], kinds[ScriptHash]))
  {
    SameScripts(n, script);
  }

  /** A retry is due: the selection for the target does not leave the fee its inputs require, which is tried next. */
  ghost predicate IsRetry(e: seq<Utxo>, target: int, est: Estimator, script: Script, fee: int, next: int) {
    exists n: nat :: IsSelection(e, target + fee, n) && next == RequiredFee(est, script, n) && Sum(e[..n]) - target < next
  }

  /** The target fees that were tried: each above the one before, and all but the last affordable. */
  ghost predicate Rising(fees: seq<int>, limit: int) {
    && (forall i, j :: 0 <= i < j < |fees| ==> fees[i] < fees[j])
    && (forall i :: 0 <= i < |fees| - 1 ==> fees[i] <= limit)
  }

  lemma SelectedIsAffordable(w: Wallet, utxos: seq<Utxo>, n: nat)
    requires n <= |Spendable(w, utxos)|
    ensures Sum(Spendable(w, utxos)[..n]) <= Sum(Spendable(w, utxos))
  {
    var e := Spendable(w, utxos);
    SpendableMembers(w, utxos);
    PrefixSumsGrow(e, n, |e|);
    assert e[..|e|] == e;
  }

  /** The fees tried for a target: rising, the first for one witness input, each further one a due retry. */
  ghost predicate IsTrail(e: seq<Utxo>, target: int, est: Estimator, script: Script, fees: seq<int>) {
    && fees != [] && fees[0] == est.fee(est.size(0, 1, 0)) && Rising(fees, Sum(e) - target)
    && AreRetries(e, target, est, script, fees)
  }

  ghost predicate AreRetries(e: seq<Utxo>, target: int, est: Estimator, script: Script, fees: seq<int>) {
    forall i :: 0 < i < |fees| ==> IsRetry(e, target, est, script, fees[i - 1], fees[i])
  }

  lemma RisesOnce(fees: seq<int>, fee: int, limit: int)
    requires Rising(fees, limit) && fees != [] && fees[|fees| - 1] < fee && fees[|fees| - 1] <= limit
    ensures Rising(fees + [fee], limit)
  {
  }

  lemma OneMoreRetry(e: seq<Utxo>, target: int, est: Estimator, script: Script, fees: seq<int>, next: int)
    requires fees != [] && AreRetries(e, target, est, script, fees) && IsRetry(e, target, est, script, fees[|fees| - 1], next)
    ensures AreRetries(e, target, est, script, fees + [next])
  {
  }

  lemma TrailGrows(w: Wallet, utxos: seq<Utxo>, target: int, est: Estimator, script: Script, fees: seq<int>, n: nat)
    requires IsTrail(Spendable(w, utxos), target, est, script, fees)
    requires IsSelection(Spendable(w, utxos), target + fees[|fees| - 1], n)
    requires Sum(Spendable(w, utxos)[..n]) - target < RequiredFee(est, script, n)
    ensures IsTrail(Spendable(w, utxos), target, est, script, fees + [RequiredFee(est, script, n)])
  {
    var e, next := Spendable(w, utxos), RequiredFee(est, script, n);
    SelectedIsAffordable(w, utxos, n);
    RisesOnce(fees, next, Sum(e) - target);
    OneMoreRetry(e, target, est, script, fees, next);
  }

  /**
    Builds a payout from a fixed set of outputs.  Each retry strictly raises the target fee and
    takes at least one more input, so the loop ends after at most as many retries as there are
    spendable outputs.
   */
  method NewUnsignedTransaction(w: Wallet, utxos: seq<Utxo>, outputs: seq<int>, est: Estimator,
                                script: Script, hasChangeScript: bool)
    returns (r: Outcome, ghost fees: seq<int>)
    ensures 0 < |fees| <= |Spendable(w, utxos)| + 1
    ensures IsTrail(Spendable(w, utxos), Total(outputs), est, script, fees)
    ensures r.Built? ==>
              && var n := |r.tx.inputs|;
              && IsSelection(Spendable(w, utxos), Total(outputs) + fees[|fees| - 1], n) && r.tx.inputs == Spendable(w, utxos)[..n]
              && Balanced(r.tx, outputs, est, RequiredFee(est, script, n))
    ensures r.NotEnough? ==> Misses(Spendable(w, utxos), r.target) && r.target == Total(outputs) + fees[|fees| - 1]
    ensures r.NoChangeScript? ==> !hasChangeScript
  {
    ghost var e := Spendable(w, utxos);
    var targetAmount := Total(outputs);
    var targetFee := est.fee(est.size(0, 1, 0));
    ghost var last := 0;
    fees := [targetFee];
    while true
      invariant 0 < |fees| <= last + 1 <= |e| + 1
      invariant fees[|fees| - 1] == targetFee && IsTrail(e, targetAmount, est, script, fees)
      invariant last > 0 ==> Sum(e[..last]) < targetAmount + targetFee
      decreases |e| - last
    {
      var selected := SelectUtxos(w, utxos, targetAmount + targetFee);
      if selected.None? {
        return NotEnough(targetAmount + targetFee), fees;
      }
      var Selection(inputAmount, inputs) := selected.value;
      NextSelectionIsLarger(w, utxos, last, targetAmount + targetFee, |inputs|);
      var maxRequiredFee := MaxRequiredFee(est, script, |inputs|);
      var remainingAmount := inputAmount - targetAmount;
      if remainingAmount < maxRequiredFee {
        TrailGrows(w, utxos, targetAmount, est, script, fees, |inputs|);
        targetFee := maxRequiredFee;
        last, fees := |inputs|, fees + [targetFee];
        continue;
      }
      r := Finish(inputs, inputAmount, outputs, est, maxRequiredFee, hasChangeScript);
      return r, fees;
    }
  }

  method MaxRequiredFee(est: Estimator, script: Script, n: nat) returns (fee: int)
    ensures fee == RequiredFee(est, script, n)
  {
    var scripts := seq(n, i => script);
    var p2pkh, p2wpkh, nested := CountScripts(scripts);
    SameScripts(n, script);
    fee := est.fee(est.size(p2pkh, p2wpkh, nested));
  }
}
