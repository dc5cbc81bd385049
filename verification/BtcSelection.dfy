/** Coin selection for a Bitcoin payout: which unspent outputs are taken, and why no fewer would do. */
module BtcSelection {
  import opened Options

  const MAX_SATOSHI: int := 21_000_000 * 100_000_000
  const P2PKH := "p2pkh"

  type Uint64 = x: int | 0 <= x < 0x1_0000_0000_0000_0000

  datatype Utxo = Utxo(txid: string, vout: nat, value: Uint64, confirmed: bool)

  datatype TxOut = TxOut(scriptType: string, address: Option<string>)

  /** What the node tells about the transactions behind the outputs; a missing one could not be fetched. */
  datatype Wallet = Wallet(from: string, txs: map<string, seq<TxOut>>, parsable: set<string>)

  datatype Selection = Selection(total: int, inputs: seq<Utxo>)

  /** A 64-bit amount read as a signed number. */
  function AsInt64(v: Uint64): int {
    if v < 0x8000_0000_0000_0000 then v else v - 0x1_0000_0000_0000_0000
  }

  predicate IsValidValue(v: int) {
    0 < v <= MAX_SATOSHI
  }

  predicate Eligible(w: Wallet, u: Utxo) {
    && IsValidValue(AsInt64(u.value))
    && u.txid in w.txs
    && u.vout < |w.txs[u.txid]|
    && w.txs[u.txid][u.vout].scriptType == P2PKH
    && w.txs[u.txid][u.vout].address == Some(w.from)
    && u.txid in w.parsable
  }

  /** The sort order of the outputs: confirmed first, then the more valuable. */
  predicate Less(a: Utxo, b: Utxo) {
    if a.confirmed != b.confirmed then a.confirmed else a.value > b.value
  }

  ghost predicate Sorted(us: seq<Utxo>) {
    forall i, j :: 0 <= i < j < |us| ==> !Less(us[j], us[i])
  }

  function Spendable(w: Wallet, us: seq<Utxo>): seq<Utxo> {
    if us == [] then []
    else Spendable(w, us[..|us| - 1]) + if Eligible(w, us[|us| - 1]) then [us[|us| - 1]] else []
  }

  function Sum(us: seq<Utxo>): int {
    if us == [] then 0 else Sum(us[..|us| - 1]) + AsInt64(us[|us| - 1].value)
  }

  method IsUsable(w: Wallet, utxo: Utxo) returns (ok: bool)
    ensures ok == Eligible(w, utxo)
    ensures ok <==> 0 < utxo.value <= 2_100_000_000_000_000 && utxo.txid in w.parsable && utxo.txid in w.txs && utxo.vout < |w.txs[utxo.txid]| &&
                    w.txs[utxo.txid][utxo.vout] == TxOut("p2pkh", Some(w.from))
  {
    if !IsValidValue(AsInt64(utxo.value)) {
      return false;
    }
    if utxo.txid !in w.txs {
      return false;
    }
    var outs := w.txs[utxo.txid];
    if utxo.vout >= |outs| {
      return false;
    }
    if outs[utxo.vout].scriptType != P2PKH {
      return false;
    }
    if outs[utxo.vout].address != Some(w.from) {
      return false;
    }
    ok := utxo.txid in w.parsable;
  }

  /** No first few of these outputs reach the target. */
  ghost predicate Misses(us: seq<Utxo>, target: int) {
    forall n :: 0 < n <= |us| ==> Sum(us[..n]) < target
  }

  /** The first n outputs, at least one, are where the target is reached. */
  ghost predicate IsSelection(e: seq<Utxo>, target: int, n: nat) {
    0 < n <= |e| && Sum(e[..n]) >= target && Misses(e[..n - 1], target)
  }

  lemma SpendableStep(w: Wallet, us: seq<Utxo>, i: nat)
    requires i < |us|
    ensures Spendable(w, us[..i + 1]) == Spendable(w, us[..i]) + if Eligible(w, us[i]) then [us[i]] else []
  {
    assert us[..i + 1][..i] == us[..i];
  }

  lemma SumAppend(us: seq<Utxo>, u: Utxo)
    ensures Sum(us + [u]) == Sum(us) + AsInt64(u.value)
  {
    assert (us + [u])[..|us|] == us;
  }

  lemma MissesOneMore(us: seq<Utxo>, u: Utxo, target: int)
    requires Misses(us, target) && Sum(us) + AsInt64(u.value) < target
    ensures Misses(us + [u], target)
  {
    var vs := us + [u];
    SumAppend(us, u);
    forall n | 0 < n <= |vs| ensures Sum(vs[..n]) < target {
      if n == |vs| {
        assert vs[..n] == vs;
      } else {
        assert vs[..n] == us[..n];
      }
    }
  }

  lemma ReachedHere(e: seq<Utxo>, us: seq<Utxo>, u: Utxo, target: int)
    requires us + [u] <= e && Misses(us, target) && Sum(us) + AsInt64(u.value) >= target
    ensures IsSelection(e, target, |us| + 1) && e[..|us| + 1] == us + [u]
  {
    SumAppend(us, u);
    assert e[..|us| + 1] == us + [u];
    assert e[..|us|] == us;
  }

  /** Takes eligible outputs in order until they reach the target. */
  method SelectUtxos(w: Wallet, utxos: seq<Utxo>, target: int) returns (r: Option<Selection>)
    ensures r.Some? ==> var s := r.value;
              && IsSelection(Spendable(w, utxos), target, |s.inputs|)
              && s.inputs == Spendable(w, utxos)[..|s.inputs|]
              && s.total == Sum(s.inputs)
    ensures r.None? ==> Misses(Spendable(w, utxos), target)
  {
    var total, inputs := 0, [];
    for i := 0 to |utxos|
      invariant inputs == Spendable(w, utxos[..i])
      invariant total == Sum(inputs)
      invariant Misses(inputs, target)
    {
      SpendableStep(w, utxos, i);
      var ok := IsUsable(w, utxos[i]);
      if !ok {
        continue;
      }
      ghost var before := inputs;
      SumAppend(before, utxos[i]);
      total := total + AsInt64(utxos[i].value);
      inputs := inputs + [utxos[i]];
      if total >= target {
        SpendablePrefix(w, utxos, i + 1);
        ReachedHere(Spendable(w, utxos), before, utxos[i], target);
        return Some(Selection(total, inputs));
      }
      MissesOneMore(before, utxos[i], target);
    }
    assert utxos[..|utxos|] == utxos;
    r := None;
  }

  lemma {:induction false} SpendablePrefix(w: Wallet, us: seq<Utxo>, i: nat)
    requires i <= |us|
    ensures Spendable(w, us[..i]) <= Spendable(w, us)
    decreases |us|
  {
    if i < |us| {
      assert us[..|us| - 1][..i] == us[..i];
      SpendablePrefix(w, us[..|us| - 1], i);
    } else {
      assert us[..i] == us;
    }
  }

  /** Sums add up, and the sum of one eligible output is its value. */
  lemma {:induction false} SumIsAdditive(w: Wallet, us: seq<Utxo>, vs: seq<Utxo>, u: Utxo)
    ensures Sum(us + vs) == Sum(us) + Sum(vs)
    ensures Eligible(w, u) ==> Sum([u]) == u.value
    decreases |vs|
  {
    assert [u][..0] == [];
    if vs == [] {
      assert us + vs == us;
    } else {
      SumIsAdditive(w, us, vs[..|vs| - 1], u);
      assert (us + vs)[..|us + vs| - 1] == us + vs[..|vs| - 1];
    }
  }

  /** Filtering keeps each eligible output as often as it is listed and drops every other. */
  lemma {:induction false} SpendableIsFilter(w: Wallet, us: seq<Utxo>, u: Utxo)
    ensures multiset(Spendable(w, us))[u] == if Eligible(w, u) then multiset(us)[u] else 0
  {
    if us != [] {
      SpendableIsFilter(w, us[..|us| - 1], u);
      assert us == us[..|us| - 1] + [us[|us| - 1]];
    }
  }

  // ---------------------------------------------------------------- the filtered list is still sorted

  lemma {:induction false} SpendableMembers(w: Wallet, us: seq<Utxo>)
    ensures forall i :: 0 <= i < |Spendable(w, us)| ==> Spendable(w, us)[i] in us && Eligible(w, Spendable(w, us)[i])
  {
    if us != [] {
      SpendableMembers(w, us[..|us| - 1]);
    }
  }

  lemma {:induction false} SpendableSorted(w: Wallet, us: seq<Utxo>)
    requires Sorted(us)
    ensures Sorted(Spendable(w, us))
  {
    if us != [] {
      SpendableSorted(w, us[..|us| - 1]);
      SpendableMembers(w, us[..|us| - 1]);
    }
  }

  // ---------------------------------------------------------------- choices of outputs

  /** A choice marks each output as taken or not. */
  function Count(pick: seq<bool>): nat {
    if pick == [] then 0 else Count(pick[..|pick| - 1]) + if pick[|pick| - 1] then 1 else 0
  }

  function SumPicked(us: seq<Utxo>, pick: seq<bool>): int
    requires |pick| <= |us|
  {
    if pick == [] then 0
    else SumPicked(us, pick[..|pick| - 1]) + if pick[|pick| - 1] then AsInt64(us[|pick| - 1].value) else 0
  }

  lemma SumStep(us: seq<Utxo>, n: nat)
    requires n < |us|
    ensures Sum(us[..n + 1]) == Sum(us[..n]) + AsInt64(us[n].value)
  {
    assert us[..n + 1][..n] == us[..n];
  }

  lemma {:induction false} PrefixSumsGrow(us: seq<Utxo>, m: nat, n: nat)
    requires m <= n <= |us| && forall i :: 0 <= i < |us| ==> AsInt64(us[i].value) > 0
    ensures Sum(us[..m]) <= Sum(us[..n])
    ensures m < n ==> Sum(us[..m]) < Sum(us[..n])
    decreases n
  {
    if m < n {
      PrefixSumsGrow(us, m, n - 1);
      SumStep(us, n - 1);
    }
  }

  /** Values that never grow along the list. */
  ghost predicate Descending(us: seq<Utxo>) {
    forall i, j :: 0 <= i < j < |us| ==> AsInt64(us[i].value) >= AsInt64(us[j].value)
  }

  /** Of a descending list no choice of c outputs is worth more than the first c. */
  lemma {:induction false} FirstOnesAreBest(us: seq<Utxo>, pick: seq<bool>)
    requires Descending(us) && |pick| <= |us|
    ensures Count(pick) <= |pick|
    ensures SumPicked(us, pick) <= Sum(us[..Count(pick)])
  {
    if pick != [] {
      var rest := pick[..|pick| - 1];
      FirstOnesAreBest(us, rest);
      if pick[|pick| - 1] {
        SumStep(us, Count(rest));
      }
    }
  }

  ghost predicate SameFlag(us: seq<Utxo>) {
    forall i, j :: 0 <= i < j < |us| ==> us[i].confirmed == us[j].confirmed
  }

  lemma SameFlagMeansDescending(w: Wallet, us: seq<Utxo>)
    requires Sorted(us) && SameFlag(us) && forall i :: 0 <= i < |us| ==> Eligible(w, us[i])
    ensures Descending(us)
  {
    forall i, j | 0 <= i < j < |us| ensures AsInt64(us[i].value) >= AsInt64(us[j].value) {
      assert !Less(us[j], us[i]);
    }
  }

  lemma MissedBefore(e: seq<Utxo>, target: int, n: nat, m: nat)
    requires IsSelection(e, target, n) && m < n && target > 0
    ensures Sum(e[..m]) < target
  {
    assert e[..n - 1][..m] == e[..m];
  }

  /**
    With one confirmation flag throughout, the selection is the smallest possible: no choice of
    fewer eligible outputs reaches the target, exactly if there is something to pay at all.
   */
  lemma SelectionIsSmallest(w: Wallet, utxos: seq<Utxo>, target: int, n: nat)
    requires Sorted(utxos) && SameFlag(Spendable(w, utxos)) && IsSelection(Spendable(w, utxos), target, n)
    ensures target > 0 <==>
            forall pick :: |pick| == |Spendable(w, utxos)| && Count(pick) < n ==> SumPicked(Spendable(w, utxos), pick) < target
  {
    var e := Spendable(w, utxos);
    SpendableSorted(w, utxos);
    SpendableMembers(w, utxos);
    SameFlagMeansDescending(w, e);
    if target > 0 {
      forall pick | |pick| == |e| && Count(pick) < n ensures SumPicked(e, pick) < target {
        FirstOnesAreBest(e, pick);
        MissedBefore(e, target, n, Count(pick));
      }
    } else {
      var none := seq(|e|, i => false);
      NothingPicked(e, none);
    }
  }

  lemma {:induction false} NothingPicked(us: seq<Utxo>, pick: seq<bool>)
    requires |pick| <= |us| && forall i :: 0 <= i < |pick| ==> !pick[i]
    ensures Count(pick) == 0 && SumPicked(us, pick) == 0
  {
    if pick != [] { NothingPicked(us, pick[..|pick| - 1]); }
  }

  /** All eligible confirmed outputs. */
  function Confirmed(us: seq<Utxo>): seq<Utxo> {
    if us == [] then []
    else Confirmed(us[..|us| - 1]) + if us[|us| - 1].confirmed then [us[|us| - 1]] else []
  }

  /** In a sorted list the confirmed outputs are a prefix; this is how far it reaches below position j. */
  lemma {:induction false} ConfirmedIsPrefix(us: seq<Utxo>)
    requires Sorted(us)
    ensures |Confirmed(us)| <= |us| && Confirmed(us) == us[..|Confirmed(us)|]
    ensures forall i :: 0 <= i < |us| ==> (us[i].confirmed <==> i < |Confirmed(us)|)
  {
    if us != [] {
      var rest := us[..|us| - 1];
      ConfirmedIsPrefix(rest);
      assert |Confirmed(rest)| < |rest| ==> !Less(us[|us| - 1], us[|Confirmed(rest)|]);
    }
  }

  /** An unconfirmed output is used only if all eligible confirmed ones together miss the target. */
  lemma UnconfirmedOnlyIfNeeded(w: Wallet, utxos: seq<Utxo>, target: int, n: nat, i: nat)
    requires Sorted(utxos) && IsSelection(Spendable(w, utxos), target, n) && target > 0
    requires i < n && !Spendable(w, utxos)[i].confirmed
    ensures Sum(Confirmed(Spendable(w, utxos))) < target
  {
    var e := Spendable(w, utxos);
    SpendableSorted(w, utxos);
    ConfirmedIsPrefix(e);
    MissedBefore(e, target, n, |Confirmed(e)|);
  }
}
