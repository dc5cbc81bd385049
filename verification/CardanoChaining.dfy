/**
  The spent-output cache of the Cardano bridge.  Transactions are chained: the change of the
  last one is spent before it is confirmed, and the inputs of every live one are kept in a
  map so that a later query of the node does not offer them again.
 */
module CardanoChaining {

  const ADA := "lovelace"

  datatype UtxoKey = UtxoKey(txHash: string, txIndex: nat)

  datatype Cache = Cache(inputKey: UtxoKey, assets: map<string, nat>,
                         spent: set<UtxoKey>, lists: map<string, seq<UtxoKey>>)

  datatype Signed = Signed(hash: string, txIndex: nat, txIns: seq<UtxoKey>, assets: map<string, nat>)

  /** What a payout of `need` of an asset can be built from. */
  datatype Chained = UseChange | Nothing | AskNode

  function ChainedSource(c: Cache, asset: string, need: int, maxFee: nat): Chained {
    if asset !in c.assets then AskNode
    else if asset == ADA then
      if c.assets[ADA] >= need + maxFee then UseChange else AskNode
    else if ADA !in c.assets then AskNode
    else if c.assets[ADA] < maxFee then Nothing
    else if c.assets[asset] >= need then UseChange
    else AskNode
  }

  /** The outputs offered to the builder, given what the node lists for the address. */
  function Offered(c: Cache, onChain: set<UtxoKey>, asset: string, need: int, maxFee: nat): set<UtxoKey> {
    match ChainedSource(c, asset, need, maxFee)
    case UseChange => {c.inputKey}
    case Nothing => {}
    case AskNode => onChain - c.spent
  }

  /**
    What is offered, by the amounts of the chained change: that change if it pays the amount and
    the largest fee; nothing if it holds the asset but too little ADA; otherwise everything the
    node lists that no live transaction spends.
   */
  ghost predicate IsOffer(c: Cache, onChain: set<UtxoKey>, asset: string, need: int, maxFee: nat, offer: set<UtxoKey>) {
    var held: int := if asset in c.assets then c.assets[asset] else -1;
    var ada: int := if "lovelace" in c.assets then c.assets["lovelace"] else -1;
    if asset == "lovelace" then
      if 0 <= held && need + maxFee <= held then offer == {c.inputKey}
      else forall k :: k in offer <==> k in onChain && k !in c.spent
    else if 0 <= held && 0 <= ada < maxFee then offer == {}
    else if 0 <= held && 0 <= ada && need <= held then offer == {c.inputKey}
    else forall k :: k in offer <==> k in onChain && k !in c.spent
  }

  function ToSet(keys: seq<UtxoKey>): set<UtxoKey> {
    set k | k in keys
  }

  function Sent(c: Cache, tx: Signed): Cache {
    Cache(UtxoKey(tx.hash, tx.txIndex), tx.assets, c.spent + ToSet(tx.txIns), c.lists[tx.hash := tx.txIns])
  }

  function Cleared(c: Cache, hash: string): Cache {
    if hash in c.lists then c.(spent := c.spent - ToSet(c.lists[hash]), lists := c.lists - {hash}) else c
  }

  // ---------------------------------------------------------------- the code

  class ChainingCache {
    var inputKey: UtxoKey
    var assets: map<string, nat>
    var spentUtxoMap: map<UtxoKey, bool>
    var lists: map<string, seq<UtxoKey>>

    function View(): Cache
      reads this
    {
      Cache(inputKey, assets, (set k | k in spentUtxoMap && spentUtxoMap[k]), lists)
    }

    constructor ()
      ensures View() == Cache(UtxoKey("", 0), map[], {}, map[])
    {
      inputKey, assets, spentUtxoMap, lists := UtxoKey("", 0), map[], map[], map[];
    }

    method AddTransactionChainingKeyCache(hash: string, txIns: seq<UtxoKey>)
      modifies this
      ensures View() == old(View()).(spent := old(View()).spent + ToSet(txIns), lists := old(lists)[hash := txIns])
    {
      for i := 0 to |txIns|
        invariant View() == old(View()).(spent := old(View()).spent + ToSet(txIns[..i]))
      {
        ghost var before := View().spent;
        spentUtxoMap := spentUtxoMap[txIns[i] := true];
        assert View().spent == before + {txIns[i]};
        assert ToSet(txIns[..i + 1]) == ToSet(txIns[..i]) + {txIns[i]};
        assert View().spent == old(View()).spent + ToSet(txIns[..i + 1]);
      }
      assert txIns[..|txIns|] == txIns;
      lists := lists[hash := txIns];
    }

    method ClearTransactionChainingKeyCache(hash: string)
      modifies this
      ensures View() == Cleared(old(View()), hash)
      ensures hash !in lists && (forall g :: g != hash && g in old(lists) ==> g in lists && lists[g] == old(lists)[g])
      ensures hash in old(lists) ==> forall k :: k in View().spent <==> k in old(View()).spent && k !in old(lists[hash])
      ensures hash !in old(lists) ==> View() == old(View())
    {
      if hash in lists {
        var list := lists[hash];
        for i := 0 to |list|
          invariant View() == old(View()).(spent := old(View()).spent - ToSet(list[..i]))
        {
          ghost var before := View().spent;
          spentUtxoMap := spentUtxoMap - {list[i]};
          assert View().spent == before - {list[i]};
          assert ToSet(list[..i + 1]) == ToSet(list[..i]) + {list[i]};
          assert View().spent == old(View()).spent - ToSet(list[..i + 1]);
        }
        assert list[..|list|] == list;
        lists := lists - {hash};
      }
    }

    method SendTransaction(tx: Signed, accepted: bool) returns (ok: bool)
      modifies this
      ensures ok == accepted
      ensures View() == if accepted then Sent(old(View()), tx) else old(View())
      ensures accepted ==> inputKey == UtxoKey(tx.hash, tx.txIndex) && assets == tx.assets && lists == old(lists)[tx.hash := tx.txIns]
      ensures accepted ==> forall k :: k in View().spent <==> k in old(View()).spent || k in tx.txIns
    {
      if !accepted {
        return false;
      }
      inputKey := inputKey.(txHash := tx.hash);
      inputKey := inputKey.(txIndex := tx.txIndex);
      assets := tx.assets;
      AddTransactionChainingKeyCache(tx.hash, tx.txIns);
      ok := true;
    }

    method QueryUtxo(onChain: set<UtxoKey>, asset: string, need: int, maxFee: nat) returns (utxos: set<UtxoKey>)
      ensures utxos == Offered(View(), onChain, asset, need, maxFee)
      ensures IsOffer(View(), onChain, asset, need, maxFee, utxos)
    {
      if asset in assets {
        var balance, needAmount := assets[asset], need;
        var usable := true;
        if asset == ADA {
          needAmount := needAmount + maxFee;
        } else if ADA !in assets {
          usable := false;
        } else if assets[ADA] < maxFee {
          return {};
        }
        if usable && balance >= needAmount {
          return {inputKey};
        }
      }
      utxos := set k | k in onChain && !(k in spentUtxoMap && spentUtxoMap[k]);
    }
  }

  // ---------------------------------------------------------------- runs

  datatype Step =
    | BuildAndSend(onChain: set<UtxoKey>, asset: string, need: int, maxFee: nat, tx: Signed)
    | Aggregate(onChain: set<UtxoKey>, tx: Signed)
    | Clear(hash: string)

  /** The hash of a new transaction does not occur anywhere in the cache or among its inputs. */
  ghost predicate IsFresh(c: Cache, tx: Signed) {
    && tx.hash !in c.lists
    && (forall k :: k in tx.txIns ==> k.txHash != tx.hash)
    && (forall k :: k in c.spent ==> k.txHash != tx.hash)
  }

  ghost predicate Enabled(c: Cache, st: Step) {
    match st
    case BuildAndSend(onChain, asset, need, maxFee, tx) =>
      IsFresh(c, tx) && ToSet(tx.txIns) <= Offered(c, onChain, asset, need, maxFee)
    case Aggregate(onChain, tx) => IsFresh(c, tx) && ToSet(tx.txIns) <= onChain - c.spent
    case Clear(_) => true
  }

  function Next(c: Cache, st: Step): Cache {
    match st
    case BuildAndSend(_, _, _, _, tx) => Sent(c, tx)
    case Aggregate(_, tx) => Sent(c, tx)
    case Clear(hash) => Cleared(c, hash)
  }

  ghost predicate IsRun(caches: seq<Cache>, steps: seq<Step>) {
    && |caches| == |steps| + 1
    && caches[0] == Cache(UtxoKey("", 0), map[], {}, map[])
    && forall i :: 0 <= i < |steps| ==> Enabled(caches[i], steps[i]) && caches[i + 1] == Next(caches[i], steps[i])
  }

  /** The map of spent outputs is exactly the union of the inputs of the live transactions. */
  ghost predicate IsUnion(c: Cache) {
    && (forall h, k :: h in c.lists && k in c.lists[h] ==> k in c.spent)
    && (forall k :: k in c.spent ==> exists h :: h in c.lists && k in c.lists[h])
  }

  ghost predicate AreDisjoint(c: Cache) {
    forall g, h, k :: g in c.lists && h in c.lists && k in c.lists[g] && k in c.lists[h] ==> g == h
  }

  ghost predicate Inv(c: Cache) {
    IsUnion(c) && AreDisjoint(c) && c.inputKey !in c.spent
  }

  lemma SendKeepsInv(c: Cache, tx: Signed)
    requires Inv(c) && IsFresh(c, tx) && ToSet(tx.txIns) !! c.spent
    ensures Inv(Sent(c, tx))
  {
    var c' := Sent(c, tx);
    assert forall k :: k in tx.txIns <==> k in ToSet(tx.txIns);
    forall k | k in c'.spent ensures exists h :: h in c'.lists && k in c'.lists[h] {
      if k in c.spent {
        var h :| h in c.lists && k in c.lists[h];
        assert h in c'.lists && k in c'.lists[h];
      } else {
        assert tx.hash in c'.lists && k in c'.lists[tx.hash];
      }
    }
  }

  lemma ClearKeepsInv(c: Cache, hash: string)
    requires Inv(c)
    ensures Inv(Cleared(c, hash))
  {
    var c' := Cleared(c, hash);
    forall k | k in c'.spent ensures exists h :: h in c'.lists && k in c'.lists[h] {
      var h :| h in c.lists && k in c.lists[h];
      assert h in c'.lists && k in c'.lists[h];
    }
  }

  lemma {:induction false} CacheInvHolds(caches: seq<Cache>, steps: seq<Step>, i: nat)
    requires IsRun(caches, steps) && i < |caches|
    ensures Inv(caches[i])
  {
    if i > 0 {
      CacheInvHolds(caches, steps, i - 1);
      var c, st := caches[i - 1], steps[i - 1];
      match st
      case BuildAndSend(onChain, asset, need, maxFee, tx) => SendKeepsInv(c, tx);
      case Aggregate(_, tx) => SendKeepsInv(c, tx);
      case Clear(hash) => ClearKeepsInv(c, hash);
    }
  }

  /** Whatever is offered to the builder is spent by no live transaction. */
  lemma OfferedIsUnspent(caches: seq<Cache>, steps: seq<Step>, i: nat, onChain: set<UtxoKey>, asset: string, need: int, maxFee: nat)
    requires IsRun(caches, steps) && i < |caches|
    ensures forall h, k :: h in caches[i].lists && k in caches[i].lists[h] ==>
                             k !in Offered(caches[i], onChain, asset, need, maxFee)
  {
    CacheInvHolds(caches, steps, i);
  }

  /** In every world of a run two live transactions share no input, and the chained change is unspent. */
  lemma LiveTransactionsShareNoInput(caches: seq<Cache>, steps: seq<Step>, i: nat, g: string, h: string)
    requires IsRun(caches, steps) && i < |caches|
    requires g in caches[i].lists && h in caches[i].lists && g != h
    ensures ToSet(caches[i].lists[g]) !! ToSet(caches[i].lists[h])
    ensures caches[i].inputKey !in caches[i].lists[g]
  {
    CacheInvHolds(caches, steps, i);
  }

  predicate IsSend(st: Step) {
    st.BuildAndSend? || st.Aggregate?
  }

  /** The chained change is always that of the transaction sent last, with the assets it was signed for. */
  lemma {:induction false} ChangeIsOfLastSent(caches: seq<Cache>, steps: seq<Step>, i: nat, j: nat)
    requires IsRun(caches, steps) && i < j < |caches| && IsSend(steps[i])
    requires forall m :: i < m < j ==> !IsSend(steps[m])
    ensures caches[j].inputKey == UtxoKey(steps[i].tx.hash, steps[i].tx.txIndex) && caches[j].assets == steps[i].tx.assets
    decreases j
  {
    if i + 1 < j { ChangeIsOfLastSent(caches, steps, i, j - 1); }
  }

  /** Sent inputs are spent from then on until their transaction is cleared, and free again after that. */
  lemma {:induction false} SpentUntilCleared(caches: seq<Cache>, steps: seq<Step>, i: nat, j: nat, k: UtxoKey)
    requires IsRun(caches, steps) && i < j < |caches| && IsSend(steps[i]) && k in steps[i].tx.txIns
    requires forall m :: i < m < j ==> steps[m] != Clear(steps[i].tx.hash)
    ensures steps[i].tx.hash in caches[j].lists && caches[j].lists[steps[i].tx.hash] == steps[i].tx.txIns && k in caches[j].spent
    ensures k !in Next(caches[j], Clear(steps[i].tx.hash)).spent
    decreases j
  {
    CacheInvHolds(caches, steps, j);
    if i + 1 < j {
      SpentUntilCleared(caches, steps, i, j - 1, k);
      CacheInvHolds(caches, steps, j - 1);
    }
  }
}
