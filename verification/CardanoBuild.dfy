/** The Cardano transaction builders: every asset that goes in comes out, is minted or is burnt. */
module CardanoBuild {
  import opened Options

  const UINT64: int := 0x1_0000_0000_0000_0000
  const FIX_ADA: nat := 1500000

  datatype Asset = Ada | Token(policy: string, name: string)

  type Amounts = map<Asset, nat>

  /** An unspent output of the router; `wellFormed` is false if one of its quantities is not a number. */
  datatype Utxo = Utxo(txHash: string, txIndex: nat, assets: Amounts, wellFormed: bool)

  datatype Protocol = Protocol(minFeeA: nat, minFeeB: nat, maxTxSize: nat)

  /** The router's address, the policy under which it mints a name, and the protocol parameters. */
  datatype Bridge = Bridge(router: string, ownPolicy: string -> string, protocol: Protocol)

  datatype RawTx = RawTx(txIns: seq<Utxo>, txOuts: map<string, Amounts>, mint: map<string, int>)

  datatype Built = Ok(tx: RawTx) | Err

  function Wrap(x: nat): nat { x % UINT64 }

  function Get(m: Amounts, a: Asset): nat {
    if a in m then m[a] else 0
  }

  predicate IsOwn(b: Bridge, a: Asset) {
    a.Token? && a.policy == b.ownPolicy(a.name)
  }

  function MaxFee(p: Protocol): nat {
    Wrap(Wrap(p.minFeeA * p.maxTxSize) + p.minFeeB)
  }

  /** What the router sends along in ADA. */
  function AdaSent(asset: Asset, amount: nat): nat {
    if asset == Ada then amount else FIX_ADA
  }

  function AdaRequired(b: Bridge, asset: Asset, amount: nat): nat {
    Wrap(Wrap(MaxFee(b.protocol) + FIX_ADA) + AdaSent(asset, amount))
  }

  // ---------------------------------------------------------------- totals and conservation

  function SumOf(us: seq<Utxo>, a: Asset): nat {
    if us == [] then 0 else SumOf(us[..|us| - 1], a) + Get(us[|us| - 1].assets, a)
  }

  function Minted(b: Bridge, tx: RawTx, a: Asset): int {
    if IsOwn(b, a) && a.name in tx.mint then tx.mint[a.name] else 0
  }

  /** What the outputs of a transaction to one receiver and the router hold; they may be the same address. */
  function Paid(tx: RawTx, router: string, receiver: string, a: Asset): nat {
    (if router in tx.txOuts then Get(tx.txOuts[router], a) else 0) +
    (if receiver != router && receiver in tx.txOuts then Get(tx.txOuts[receiver], a) else 0)
  }

  ghost predicate Conserved(b: Bridge, tx: RawTx, receiver: string) {
    forall a :: SumOf(tx.txIns, a) + Minted(b, tx, a) == Paid(tx, b.router, receiver, a)
  }

  /** No sum of the run of the builder leaves 64 bits. */
  ghost predicate Fits(b: Bridge, us: seq<Utxo>, asset: Asset, amount: nat) {
    && (forall a :: SumOf(us, a) < UINT64)
    && amount < UINT64
    && MaxFee(b.protocol) + FIX_ADA + AdaSent(asset, amount) < UINT64
  }

  /** The largest fee is that of a transaction of the largest size, so it covers every other. */
  lemma MaxFeeCoversEverySize(p: Protocol, size: nat)
    requires size <= p.maxTxSize && p.minFeeA * p.maxTxSize + p.minFeeB < UINT64
    ensures p.minFeeA * size + p.minFeeB <= MaxFee(p)
    ensures size == p.maxTxSize ==> MaxFee(p) == p.minFeeA * size + p.minFeeB
  {
    var most := p.minFeeA * p.maxTxSize;
    assert p.minFeeA * size <= most;
    assert Wrap(most) == most && Wrap(most + p.minFeeB) == most + p.minFeeB;
  }

  /** A payout needs its own ADA, the largest fee and the 1.5 ADA that the change must keep. */
  lemma AdaRequiredIsSum(b: Bridge, us: seq<Utxo>, asset: Asset, amount: nat)
    requires Fits(b, us, asset, amount)
    ensures AdaRequired(b, asset, amount) == MaxFee(b.protocol) + 1500000 + if asset == Ada then amount else 1500000
  {
  }

  /** Totals add up over the outputs; one output counts what it lists. */
  lemma {:induction false} SumOfIsAdditive(us: seq<Utxo>, vs: seq<Utxo>, u: Utxo, a: Asset)
    ensures SumOf(us + vs, a) == SumOf(us, a) + SumOf(vs, a)
    ensures SumOf([u], a) == if a in u.assets then u.assets[a] else 0
    decreases |vs|
  {
    assert [u][..0] == [];
    if vs == [] {
      assert us + vs == us;
    } else {
      SumOfIsAdditive(us, vs[..|vs| - 1], u, a);
      assert (us + vs)[..|us + vs| - 1] == us + vs[..|vs| - 1];
    }
  }

  lemma {:induction false} PrefixSums(us: seq<Utxo>, n: nat, a: Asset)
    requires n <= |us|
    ensures SumOf(us[..n], a) <= SumOf(us, a)
    decreases |us|
  {
    if n < |us| {
      assert us[..|us| - 1][..n] == us[..n];
      PrefixSums(us[..|us| - 1], n, a);
    } else {
      assert us[..n] == us;
    }
  }

  /** Totals as the code keeps them: modulo 64 bits, an absent asset counting zero. */
  ghost predicate AreTotals(totals: Amounts, us: seq<Utxo>) {
    forall a :: Get(totals, a) == Wrap(SumOf(us, a))
  }

  method AddAssets(totals: Amounts, u: Utxo) returns (r: Amounts)
    ensures forall a :: a in r <==> a in totals || a in u.assets
    ensures forall a :: Get(r, a) == if a in u.assets then Wrap(Get(totals, a) + Wrap(u.assets[a])) else Get(totals, a)
  {
    r := totals;
    var rest := u.assets.Keys;
    while rest != {}
      invariant rest <= u.assets.Keys
      invariant forall a :: a in r <==> a in totals || (a in u.assets && a !in rest)
      invariant forall a :: Get(r, a) == if a in u.assets && a !in rest
                                         then Wrap(Get(totals, a) + Wrap(u.assets[a])) else Get(totals, a)
      decreases |rest|
    {
      var a :| a in rest;
      r := r[a := Wrap(Get(r, a) + Wrap(u.assets[a]))];
      rest := rest - {a};
    }
  }

  lemma TotalsStep(totals: Amounts, r: Amounts, us: seq<Utxo>, u: Utxo)
    requires AreTotals(totals, us)
    requires forall a :: Get(r, a) == if a in u.assets then Wrap(Get(totals, a) + Wrap(u.assets[a])) else Get(totals, a)
    ensures AreTotals(r, us + [u])
  {
    forall a ensures Get(r, a) == Wrap(SumOf(us + [u], a)) {
      assert (us + [u])[..|us|] == us;
      if a in u.assets { WrapAdds(SumOf(us, a), u.assets[a]); }
    }
  }

  lemma WrapAdds(x: nat, y: nat)
    ensures Wrap(Wrap(x) + Wrap(y)) == Wrap(x + y)
  {
    var p, q := x / UINT64, y / UINT64;
    assert x == p * UINT64 + Wrap(x) && y == q * UINT64 + Wrap(y);
    assert x + y == (p + q) * UINT64 + (Wrap(x) + Wrap(y));
  }

  // ---------------------------------------------------------------- the payout builder

  /** The first n outputs hold more than is needed, as the code counts it. */
  predicate Covers(b: Bridge, us: seq<Utxo>, n: nat, asset: Asset, amount: nat)
    requires n <= |us|
  {
    && Wrap(SumOf(us[..n], Ada)) > AdaRequired(b, asset, amount)
    && (asset != Ada ==> Wrap(SumOf(us[..n], asset)) > Wrap(amount))
  }

  /** The first n outputs are the fewest that hold more than is needed, or all if none do. */
  ghost predicate IsTaken(b: Bridge, us: seq<Utxo>, n: nat, asset: Asset, amount: nat) {
    && n <= |us|
    && (forall m :: 0 < m < n ==> !Covers(b, us, m, asset, amount))
    && (n == |us| || (n > 0 && Covers(b, us, n, asset, amount)))
  }

  predicate AllWellFormed(us: seq<Utxo>) {
    forall i :: 0 <= i < |us| ==> us[i].wellFormed
  }

  /** Takes outputs in the given order until they hold more than is needed. */
  method TakeInputs(b: Bridge, us: seq<Utxo>, asset: Asset, amount: nat)
    returns (ok: bool, taken: seq<Utxo>, totals: Amounts)
    ensures ok ==> taken <= us && AreTotals(totals, taken) && AllWellFormed(taken) && IsTaken(b, us, |taken|, asset, amount)
    ensures !ok ==> forall n: nat :: IsTaken(b, us, n, asset, amount) ==> !AllWellFormed(us[..n])
  {
    taken, totals := [], map[];
    for i := 0 to |us|
      invariant taken == us[..i]
      invariant AreTotals(totals, taken) && AllWellFormed(taken)
      invariant forall m :: 0 < m <= i ==> !Covers(b, us, m, asset, amount)
    {
      if !us[i].wellFormed {
        forall n: nat | IsTaken(b, us, n, asset, amount) ensures !AllWellFormed(us[..n]) { assert us[..n][i] == us[i]; }
        return false, taken, totals;
      }
      ghost var before := totals;
      totals := AddAssets(totals, us[i]);
      TotalsStep(before, totals, taken, us[i]);
      taken := taken + [us[i]];
      assert taken == us[..i + 1];
      var required := AdaRequired(b, asset, amount);
      if asset == Ada {
        if Get(totals, Ada) > required {
          break;
        }
      } else if Get(totals, asset) > Wrap(amount) && Get(totals, Ada) > required {
        break;
      }
    }
    ok := true;
  }

  /** What a payout needs: a fee estimate, the least ADA, enough ADA among the outputs, and the asset or its mint. */
  ghost predicate Payable(b: Bridge, us: seq<Utxo>, n: nat, asset: Asset, amount: nat)
    requires n <= |us|
  {
    && MaxFee(b.protocol) != 0
    && (asset == Ada ==> amount >= FIX_ADA)
    && AllWellFormed(us[..n])
    && Wrap(SumOf(us[..n], Ada)) > AdaRequired(b, asset, amount)
    && (asset == Ada || IsOwn(b, asset) || Wrap(SumOf(us[..n], asset)) >= Wrap(amount))
  }

  /** Everything that is neither ADA nor the asset paid goes back to the router. */
  method ReturnRest(change: Amounts, totals: Amounts, asset: Asset) returns (r: Amounts)
    ensures forall a :: Get(r, a) == if a != Ada && a != asset && a in totals then totals[a] else Get(change, a)
  {
    r := change;
    var rest := totals.Keys;
    while rest != {}
      invariant rest <= totals.Keys
      invariant forall a :: Get(r, a) == if a != Ada && a != asset && a in totals && a !in rest then totals[a] else Get(change, a)
      decreases |rest|
    {
      var a :| a in rest;
      if a != Ada && a != asset {
        r := r[a := totals[a]];
      }
      rest := rest - {a};
    }
  }

  /** What the receiver gets of an asset. */
  function Received(asset: Asset, amount: nat, a: Asset): nat {
    if a == Ada then AdaSent(asset, amount) else if a == asset then amount else 0
  }

  /** What goes back to the router of an asset, if it is not itself the receiver. */
  function Change(totals: Amounts, asset: Asset, amount: nat, a: Asset): nat {
    var have, sent := Get(totals, a), Wrap(Received(asset, amount, a));
    if have > sent then have - sent else 0
  }

  /** The amount an own asset is short of. */
  function Missing(totals: Amounts, asset: Asset, amount: nat): nat {
    if asset != Ada && Get(totals, asset) < Wrap(amount) then Wrap(amount) - Get(totals, asset) else 0
  }

  ghost predicate IsSplit(b: Bridge, receiver: string, asset: Asset, amount: nat, totals: Amounts,
                          txOuts: map<string, Amounts>, mint: map<string, int>)
  {
    && b.router in txOuts && receiver in txOuts
    && (receiver != b.router ==>
          forall a :: Get(txOuts[receiver], a) == Received(asset, amount, a) &&
                      Get(txOuts[b.router], a) == Change(totals, asset, amount, a))
    && (receiver == b.router && Get(totals, Ada) > Wrap(AdaSent(asset, amount)) ==>
          Get(txOuts[b.router], Ada) == Change(totals, asset, amount, Ada))
    && (Missing(totals, asset, amount) == 0 || IsOwn(b, asset))
    && mint == if Missing(totals, asset, amount) == 0 then map[] else map[asset.name := Missing(totals, asset, amount)]
  }

  /** Splits the totals between receiver and router; fails if a foreign asset is short. */
  method Split(b: Bridge, receiver: string, asset: Asset, amount: nat, totals: Amounts)
    returns (ok: bool, txOuts: map<string, Amounts>, mint: map<string, int>)
    ensures ok <==> Missing(totals, asset, amount) == 0 || IsOwn(b, asset)
    ensures ok ==> IsSplit(b, receiver, asset, amount, totals, txOuts, mint)
  {
    var toReceiver: Amounts, toRouter: Amounts := map[], map[];
    mint, txOuts := map[], map[];
    if asset != Ada {
      var have := Get(totals, asset);
      if have >= Wrap(amount) {
        toReceiver := toReceiver[asset := amount];
        if have > Wrap(amount) {
          toRouter := toRouter[asset := have - Wrap(amount)];
        }
      } else {
        if asset.policy != b.ownPolicy(asset.name) {
          return false, txOuts, mint;
        }
        mint := map[asset.name := Wrap(amount) - have];
        toReceiver := toReceiver[asset := amount];
      }
    }
    toReceiver := toReceiver[Ada := AdaSent(asset, amount)];
    if Get(totals, Ada) > Wrap(AdaSent(asset, amount)) {
      toRouter := toRouter[Ada := Get(totals, Ada) - Wrap(AdaSent(asset, amount))];
    }
    toRouter := ReturnRest(toRouter, totals, asset);
    // one map per address: with equal addresses the router's entries overwrite the receiver's
    if receiver == b.router {
      txOuts := map[receiver := toReceiver + toRouter];
    } else {
      txOuts := map[receiver := toReceiver, b.router := toRouter];
    }
    ok := true;
  }

  lemma SplitConserves(b: Bridge, receiver: string, asset: Asset, amount: nat, tx: RawTx, totals: Amounts, a: Asset)
    requires receiver != b.router && amount < UINT64
    requires IsSplit(b, receiver, asset, amount, totals, tx.txOuts, tx.mint)
    requires Get(totals, a) == SumOf(tx.txIns, a)
    requires Get(totals, Ada) >= AdaSent(asset, amount)
    ensures SumOf(tx.txIns, a) + Minted(b, tx, a) == Paid(tx, b.router, receiver, a)
  {
    assert Paid(tx, b.router, receiver, a) == Change(totals, asset, amount, a) + Received(asset, amount, a);
    if a == asset {
      assert a != Ada ==> Minted(b, tx, a) == Missing(totals, asset, amount);
    } else {
      assert Minted(b, tx, a) == 0 by {
        if Missing(totals, asset, amount) != 0 && IsOwn(b, a) { assert a.name != asset.name; }
      }
    }
  }

  /** What a built payout promises as long as 64 bits suffice. */
  ghost predicate IsPayout(b: Bridge, receiver: string, asset: Asset, amount: nat, tx: RawTx) {
    && b.router in tx.txOuts && receiver in tx.txOuts
    && (Conserved(b, tx, receiver) <==> receiver != b.router)
    && (receiver != b.router ==> Get(tx.txOuts[receiver], asset) == amount &&
                                 (asset != Ada ==> Get(tx.txOuts[receiver], Ada) == 1500000) &&
                                 forall a :: a != Ada && a != asset ==> Get(tx.txOuts[receiver], a) == 0)
    && Get(tx.txOuts[b.router], Ada) > MaxFee(b.protocol) + FIX_ADA
  }

  lemma SplitIsPayout(b: Bridge, receiver: string, asset: Asset, amount: nat, us: seq<Utxo>, tx: RawTx, totals: Amounts)
    requires Fits(b, us, asset, amount) && tx.txIns <= us && AreTotals(totals, tx.txIns)
    requires IsSplit(b, receiver, asset, amount, totals, tx.txOuts, tx.mint)
    requires Get(totals, Ada) > AdaRequired(b, asset, amount) && (asset == Ada ==> amount >= FIX_ADA)
    ensures IsPayout(b, receiver, asset, amount, tx)
  {
    TakenFits(us, tx.txIns, totals);
    assert AdaRequired(b, asset, amount) == MaxFee(b.protocol) + FIX_ADA + AdaSent(asset, amount);
    if receiver != b.router {
      forall a ensures SumOf(tx.txIns, a) + Minted(b, tx, a) == Paid(tx, b.router, receiver, a) {
        SplitConserves(b, receiver, asset, amount, tx, totals, a);
      }
    } else {
      assert SumOf(tx.txIns, Ada) + Minted(b, tx, Ada) != Paid(tx, b.router, receiver, Ada);
    }
  }

  lemma OneIsTaken(b: Bridge, us: seq<Utxo>, n: nat, asset: Asset, amount: nat)
    requires IsTaken(b, us, n, asset, amount)
    ensures forall m: nat :: IsTaken(b, us, m, asset, amount) ==> m == n
  {
  }

  /**
    Pays `amount` of an asset to the receiver and the rest to the router, minting what is
    missing of an own asset.  As long as 64 bits suffice, every asset is conserved exactly if
    the receiver is not the router, and the router keeps more than the fixed amount of ADA
    whatever fee up to the maximum is taken from it.
   */
  method BuildTx(b: Bridge, receiver: string, asset: Asset, amount: nat, us: seq<Utxo>) returns (r: Built)
    ensures r.Ok? ==> r.tx.txIns <= us && IsTaken(b, us, |r.tx.txIns|, asset, amount)
    ensures r.Ok? <==> exists n: nat :: IsTaken(b, us, n, asset, amount) && Payable(b, us, n, asset, amount)
    ensures r.Ok? && Fits(b, us, asset, amount) ==> IsPayout(b, receiver, asset, amount, r.tx)
  {
    if MaxFee(b.protocol) == 0 {
      return Err;
    }
    if asset == Ada && amount < FIX_ADA {
      return Err;
    }
    var ok, taken, totals := TakeInputs(b, us, asset, amount);
    if !ok {
      return Err;
    }
    OneIsTaken(b, us, |taken|, asset, amount);
    assert us[..|taken|] == taken;
    if Get(totals, Ada) <= AdaRequired(b, asset, amount) {
      return Err;
    }
    var txOuts, mint;
    ok, txOuts, mint := Split(b, receiver, asset, amount, totals);
    if !ok {
      return Err;
    }
    r := Ok(RawTx(taken, txOuts, mint));
    if Fits(b, us, asset, amount) {
      SplitIsPayout(b, receiver, asset, amount, us, r.tx, totals);
    }
  }

  /** Takes the fee from the router's change; the change stays above the fixed amount of ADA. */
  method AdjustRestAda(tx: RawTx, router: string, fee: nat) returns (r: RawTx)
    requires router in tx.txOuts
    ensures r.txIns == tx.txIns && r.mint == tx.mint && router in r.txOuts
    ensures fee <= Get(tx.txOuts[router], Ada) < UINT64 ==>
              Get(r.txOuts[router], Ada) + fee == Get(tx.txOuts[router], Ada)
    ensures forall receiver, a :: a != Ada ==> Paid(r, router, receiver, a) == Paid(tx, router, receiver, a)
    ensures forall receiver :: fee <= Get(tx.txOuts[router], Ada) < UINT64 ==>
              Paid(r, router, receiver, Ada) + fee == Paid(tx, router, receiver, Ada)
  {
    var amount := Get(tx.txOuts[router], Ada);
    var left := if fee <= amount then Wrap(amount - fee) else Wrap(amount + UINT64 - fee % UINT64);
    r := tx.(txOuts := tx.txOuts[router := tx.txOuts[router][Ada := left]]);
  }

  lemma TakenFits(us: seq<Utxo>, taken: seq<Utxo>, totals: Amounts)
    requires taken <= us && AreTotals(totals, taken) && forall a :: SumOf(us, a) < UINT64
    ensures forall a :: Get(totals, a) == SumOf(taken, a)
  {
    forall a ensures Get(totals, a) == SumOf(taken, a) {
      assert us[..|taken|] == taken;
      PrefixSums(us, |taken|, a);
    }
  }

  // ---------------------------------------------------------------- the aggregation builder

  /** The assets that some of the outputs list, be it with a quantity of zero. */
  function AssetsOf(us: seq<Utxo>): set<Asset> {
    if us == [] then {} else AssetsOf(us[..|us| - 1]) + us[|us| - 1].assets.Keys
  }

  lemma {:induction false} AbsentHasNoSum(us: seq<Utxo>, a: Asset)
    requires a !in AssetsOf(us)
    ensures SumOf(us, a) == 0
  {
    if us != [] { AbsentHasNoSum(us[..|us| - 1], a); }
  }

  method AddAll(us: seq<Utxo>) returns (ok: bool, totals: Amounts)
    ensures ok <==> AllWellFormed(us)
    ensures ok ==> AreTotals(totals, us) && totals.Keys == AssetsOf(us)
  {
    totals := map[];
    for i := 0 to |us|
      invariant AreTotals(totals, us[..i]) && totals.Keys == AssetsOf(us[..i])
      invariant forall j :: 0 <= j < i ==> us[j].wellFormed
    {
      if !us[i].wellFormed {
        return false, totals;
      }
      ghost var before := totals;
      totals := AddAssets(totals, us[i]);
      TotalsStep(before, totals, us[..i], us[i]);
      assert us[..i + 1] == us[..i] + [us[i]];
      assert us[..i + 1][..i] == us[..i];
    }
    assert us[..|us|] == us;
    ok := true;
  }

  /** An order in which the totals may be visited: each asset of the inputs once. */
  ghost predicate IsOrder(us: seq<Utxo>, order: seq<Asset>) {
    && (forall a :: a in order <==> a in AssetsOf(us))
    && (forall i, j :: 0 <= i < j < |order| ==> order[i] != order[j])
  }

  function LastOwn(b: Bridge, order: seq<Asset>): (r: Option<Asset>)
    ensures r.None? ==> forall a :: a in order ==> !IsOwn(b, a)
    ensures r.Some? ==> r.value in order && IsOwn(b, r.value)
  {
    if order == [] then None
    else if IsOwn(b, order[|order| - 1]) then Some(order[|order| - 1])
    else LastOwn(b, order[..|order| - 1])
  }

  function Burning(n: int): int { 0 - n }

  /** What an aggregation keeps of the totals: everything that is not its own. */
  function Kept(b: Bridge, totals: Amounts): Amounts {
    map a | a in totals && !IsOwn(b, a) :: totals[a]
  }

  /** Keeps ADA and foreign assets, burns own ones; each burning replaces the one before. */
  method KeepOrBurn(b: Bridge, totals: Amounts, order: seq<Asset>) returns (kept: Amounts, mint: map<string, int>)
    requires forall a :: a in order <==> a in totals
    ensures kept == Kept(b, totals)
    ensures mint == match LastOwn(b, order) case None => map[] case Some(x) => map[x.name := Burning(Get(totals, x))]
  {
    kept, mint := map[], map[];
    for i := 0 to |order|
      invariant kept == map a | a in totals && a in order[..i] && !IsOwn(b, a) :: totals[a]
      invariant mint == match LastOwn(b, order[..i]) case None => map[] case Some(x) => map[x.name := Burning(Get(totals, x))]
    {
      var a := order[i];
      assert order[..i + 1][..i] == order[..i];
      if a == Ada {
        kept := kept[a := totals[a]];
      } else if a.policy != b.ownPolicy(a.name) {
        kept := kept[a := totals[a]];
      } else {
        mint := map[a.name := Burning(totals[a])];
      }
    }
    assert order[..|order|] == order;
  }

  /** The transaction an aggregation builds if it visits the totals in this order. */
  ghost function Aggregate(b: Bridge, us: seq<Utxo>, order: seq<Asset>): RawTx
    requires LastOwn(b, order).Some?
  {
    var x := LastOwn(b, order).value;
    RawTx(us, map[b.router := map a | a in AssetsOf(us) && !IsOwn(b, a) :: Wrap(SumOf(us, a))],
          map[x.name := Burning(Wrap(SumOf(us, x)))])
  }

  /** Collects all outputs into one and burns what is own, visiting the totals in the order given. */
  method BuildAggregateTx(b: Bridge, us: seq<Utxo>, order: seq<Asset>) returns (r: Built)
    requires IsOrder(us, order)
    ensures r.Ok? <==> AllWellFormed(us) && exists a :: a in AssetsOf(us) && IsOwn(b, a)
    ensures r.Ok? ==> LastOwn(b, order).Some? && r.tx == Aggregate(b, us, order)
    ensures r.Ok? && InRange(us) && OneOwnAsset(b, us) ==> Conserved(b, r.tx, b.router)
    ensures r.Ok? && InRange(us) && TwoOwnAmounts(b, us) ==> !Conserved(b, r.tx, b.router)
  {
    var ok, totals := AddAll(us);
    if !ok {
      return Err;
    }
    var kept, mint := KeepOrBurn(b, totals, order);
    if |mint| == 0 {
      return Err;
    }
    r := Ok(RawTx(us, map[b.router := kept], mint));
    assert kept == map a | a in AssetsOf(us) && !IsOwn(b, a) :: Wrap(SumOf(us, a)) by {
      assert forall a :: a in totals ==> totals[a] == Get(totals, a);
    }
    if InRange(us) { AggregateConservesIff(b, us, order); }
  }

  // ---------------------------------------------------------------- when an aggregation conserves

  ghost predicate InRange(us: seq<Utxo>) {
    forall a :: SumOf(us, a) < UINT64
  }

  /** The inputs list at most one own asset. */
  ghost predicate OneOwnAsset(b: Bridge, us: seq<Utxo>) {
    forall x, y :: x in AssetsOf(us) && y in AssetsOf(us) && IsOwn(b, x) && IsOwn(b, y) ==> x == y
  }

  /** The inputs hold something of two own assets. */
  ghost predicate TwoOwnAmounts(b: Bridge, us: seq<Utxo>) {
    exists x, y :: IsOwn(b, x) && IsOwn(b, y) && x != y && SumOf(us, x) > 0 && SumOf(us, y) > 0
  }

  ghost predicate NoOwnAmount(b: Bridge, us: seq<Utxo>) {
    forall x :: IsOwn(b, x) ==> SumOf(us, x) == 0
  }

  lemma AggregatePays(b: Bridge, us: seq<Utxo>, order: seq<Asset>, a: Asset)
    requires LastOwn(b, order).Some? && InRange(us)
    ensures Paid(Aggregate(b, us, order), b.router, b.router, a) == if IsOwn(b, a) then 0 else SumOf(us, a)
  {
    if a !in AssetsOf(us) { AbsentHasNoSum(us, a); }
  }

  lemma AggregateBurns(b: Bridge, us: seq<Utxo>, order: seq<Asset>, a: Asset)
    requires LastOwn(b, order).Some? && InRange(us)
    ensures Minted(b, Aggregate(b, us, order), a) == if a == LastOwn(b, order).value then 0 - SumOf(us, a) else 0
  {
    var burnt := LastOwn(b, order).value;
    if IsOwn(b, a) && a.name == burnt.name { assert a == burnt; }
  }

  /** The balance of one asset: it fails exactly for an own asset that is there and not burnt. */
  lemma AggregateBalance(b: Bridge, us: seq<Utxo>, order: seq<Asset>, a: Asset)
    requires LastOwn(b, order).Some? && InRange(us)
    ensures var tx := Aggregate(b, us, order);
            SumOf(us, a) + Minted(b, tx, a) == Paid(tx, b.router, b.router, a) <==>
            (IsOwn(b, a) && a != LastOwn(b, order).value ==> SumOf(us, a) == 0)
  {
    AggregatePays(b, us, order, a);
    AggregateBurns(b, us, order, a);
  }

  /** In one order the result conserves exactly if nothing is there of any own asset but the last one visited. */
  lemma AggregateConservesIff(b: Bridge, us: seq<Utxo>, order: seq<Asset>)
    requires IsOrder(us, order) && LastOwn(b, order).Some? && InRange(us)
    ensures Conserved(b, Aggregate(b, us, order), b.router) <==>
            forall a :: IsOwn(b, a) && a != LastOwn(b, order).value ==> SumOf(us, a) == 0
    ensures OneOwnAsset(b, us) ==> Conserved(b, Aggregate(b, us, order), b.router)
    ensures TwoOwnAmounts(b, us) ==> !Conserved(b, Aggregate(b, us, order), b.router)
  {
    var tx := Aggregate(b, us, order);
    forall a ensures SumOf(us, a) + Minted(b, tx, a) == Paid(tx, b.router, b.router, a) <==>
                     (IsOwn(b, a) && a != LastOwn(b, order).value ==> SumOf(us, a) == 0)
    {
      AggregateBalance(b, us, order, a);
    }
    if OneOwnAsset(b, us) {
      forall a | IsOwn(b, a) && a != LastOwn(b, order).value ensures SumOf(us, a) == 0 {
        if a !in AssetsOf(us) { AbsentHasNoSum(us, a); }
      }
    }
  }

  /** A finite set can be listed without repetition, with a chosen member last. */
  lemma {:induction false} ListSet(s: set<Asset>, last: Asset) returns (order: seq<Asset>)
    requires last in s
    ensures forall a :: a in order <==> a in s
    ensures forall i, j :: 0 <= i < j < |order| ==> order[i] != order[j]
    ensures order != [] && order[|order| - 1] == last
    decreases |s|
  {
    if x :| x in s && x != last {
      var rest := ListSet(s - {x}, last);
      order := [x] + rest;
    } else {
      order := [last];
    }
  }

  ghost predicate ConservesIn(b: Bridge, us: seq<Utxo>, order: seq<Asset>) {
    LastOwn(b, order).Some? ==> Conserved(b, Aggregate(b, us, order), b.router)
  }

  /**
    Whatever the order, an aggregation conserves exactly if its inputs list at most one own
    asset, or nothing of any.
   */
  lemma ConservesInEveryOrderIff(b: Bridge, us: seq<Utxo>)
    requires InRange(us)
    ensures (forall order :: IsOrder(us, order) ==> ConservesIn(b, us, order)) <==> OneOwnAsset(b, us) || NoOwnAmount(b, us)
  {
    if OneOwnAsset(b, us) || NoOwnAmount(b, us) {
      forall order | IsOrder(us, order) ensures ConservesIn(b, us, order) {
        if LastOwn(b, order).Some? { AggregateConservesIff(b, us, order); }
      }
    } else {
      var x :| IsOwn(b, x) && SumOf(us, x) > 0;
      var y, z :| y in AssetsOf(us) && z in AssetsOf(us) && IsOwn(b, y) && IsOwn(b, z) && y != z;
      var last := if y == x then z else y;
      var order := ListSet(AssetsOf(us), last);
      AggregateConservesIff(b, us, order);
      assert IsOrder(us, order) && !ConservesIn(b, us, order);
    }
  }

  /** In some order it does exactly if the inputs hold something of at most one own asset. */
  lemma ConservesInSomeOrderIff(b: Bridge, us: seq<Utxo>)
    requires InRange(us) && exists a :: a in AssetsOf(us) && IsOwn(b, a)
    ensures (exists order :: IsOrder(us, order) && ConservesIn(b, us, order)) <==> !TwoOwnAmounts(b, us)
  {
    if TwoOwnAmounts(b, us) {
      forall order | IsOrder(us, order) ensures !ConservesIn(b, us, order) {
        AggregateConservesIff(b, us, order);
      }
    } else {
      var last :| last in AssetsOf(us) && IsOwn(b, last);
      if x :| IsOwn(b, x) && SumOf(us, x) > 0 {
        if x !in AssetsOf(us) { AbsentHasNoSum(us, x); }
        last := x;
      }
      var order := ListSet(AssetsOf(us), last);
      AggregateConservesIff(b, us, order);
      assert IsOrder(us, order) && ConservesIn(b, us, order);
    }
  }

  /** One output with two own assets: in both orders the one visited first is neither kept nor burnt. */
  lemma TwoOwnAssetsLoseOne()
    ensures var b := Bridge("router", n => "own", Protocol(44, 155381, 16384));
            var x, y := Token("own", "x"), Token("own", "y");
            var us := [Utxo("t", 0, map[Ada := 5000000, x := 7, y := 8], true)];
            forall order :: IsOrder(us, order) ==> LastOwn(b, order).Some? && !Conserved(b, Aggregate(b, us, order), b.router)
  {
    var b := Bridge("router", n => "own", Protocol(44, 155381, 16384));
    var x, y := Token("own", "x"), Token("own", "y");
    var us := [Utxo("t", 0, map[Ada := 5000000, x := 7, y := 8], true)];
    assert us[..0] == [];
    assert forall a :: SumOf(us, a) == Get(us[0].assets, a);
    forall order | IsOrder(us, order) ensures LastOwn(b, order).Some? && !Conserved(b, Aggregate(b, us, order), b.router) {
      assert x in order && IsOwn(b, x);
      assert "x" != "y";
      assert SumOf(us, x) == 7 && SumOf(us, y) == 8;
      AggregateConservesIff(b, us, order);
    }
  }
}
