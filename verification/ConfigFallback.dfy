/**
  Loading the swap and fee configs of a token.  A configured pair of chains may use the
  chain id 0 as a wildcard on either side; every pair of supported chains gets the most
  specific config there is.
 */
module ConfigFallback {

  import BigValue
  import SwapValue
  import opened Options

  const ANY_CHAIN: int := 0

  datatype Item<T> = Item(fromChain: int, toChain: int, config: T)

  type Table<T> = map<int, map<int, T>>

  datatype BigInt = Nil | Big(v: int)

  datatype SwapConfig = SwapConfig(maximumSwap: BigInt, minimumSwap: BigInt, bigValueThreshold: BigInt)
  datatype FeeConfig = FeeConfig(maximumSwapFee: BigInt, minimumSwapFee: BigInt, swapFeeRatePerMillion: nat)

  predicate CheckSwapConfig(c: SwapConfig) {
    && c.maximumSwap.Big? && c.minimumSwap.Big? && c.bigValueThreshold.Big?
    && BigValue.CheckLimits(c.maximumSwap.v, c.minimumSwap.v, c.bigValueThreshold.v)
  }

  predicate CheckFeeConfig(c: FeeConfig) {
    c.maximumSwapFee.Big? && c.minimumSwapFee.Big? && SwapValue.CheckConfig(Terms(c))
  }

  /** The numbers of a fee config that has both bounds. */
  function Terms(c: FeeConfig): SwapValue.FeeConfig
    requires c.maximumSwapFee.Big? && c.minimumSwapFee.Big?
  {
    SwapValue.FeeConfig(c.maximumSwapFee.v, c.minimumSwapFee.v, c.swapFeeRatePerMillion)
  }

  // ---------------------------------------------------------------- the documented rule

  function Lookup<T>(m: Table<T>, f: int, t: int): Option<T> {
    if f in m && t in m[f] then Some(m[f][t]) else None
  }

  /** The config listed for exactly this pair; a later entry replaces an earlier one. */
  function Listed<T>(items: seq<Item<T>>, f: int, t: int): Option<T> {
    if items == [] then None
    else
      var x := items[|items| - 1];
      if x.fromChain == f && x.toChain == t then Some(x.config) else Listed(items[..|items| - 1], f, t)
  }

  /** The four pairs tried for (f, t), in this order. */
  function Candidate(f: int, t: int, k: nat): (int, int)
    requires k < 4
  {
    if k == 0 then (f, t) else if k == 1 then (f, ANY_CHAIN) else if k == 2 then (ANY_CHAIN, t) else (ANY_CHAIN, ANY_CHAIN)
  }

  function ListedAt<T>(items: seq<Item<T>>, f: int, t: int, k: nat): Option<T>
    requires k < 4
  {
    var p := Candidate(f, t, k);
    Listed(items, p.0, p.1)
  }

  /** `r` is the first existing of the four, and missing only if all four are. */
  ghost predicate IsFirstExisting<T(!new)>(items: seq<Item<T>>, f: int, t: int, r: Option<T>) {
    match r
    case None => forall k :: 0 <= k < 4 ==> ListedAt(items, f, t, k) == None
    case Some(c) =>
      exists k :: 0 <= k < 4 && ListedAt(items, f, t, k) == r && forall j :: 0 <= j < k ==> ListedAt(items, f, t, j) == None
  }

  /** Spelled out: the pair itself, then any destination, then any source, then any pair. */
  lemma FallbackOrder<T(!new)>(items: seq<Item<T>>, f: int, t: int, r: Option<T>)
    requires IsFirstExisting(items, f, t, r)
    ensures r == if Listed(items, f, t).Some? then Listed(items, f, t)
                 else if Listed(items, f, 0).Some? then Listed(items, f, 0)
                 else if Listed(items, 0, t).Some? then Listed(items, 0, t)
                 else Listed(items, 0, 0)
  {
    assert ListedAt(items, f, t, 0) == Listed(items, f, t) && ListedAt(items, f, t, 1) == Listed(items, f, 0);
    assert ListedAt(items, f, t, 2) == Listed(items, 0, t) && ListedAt(items, f, t, 3) == Listed(items, 0, 0);
  }

  /** Both chains are supported, at different positions of the list. */
  predicate Paired(chains: seq<int>, f: int, t: int) {
    exists i, j :: 0 <= i < |chains| && 0 <= j < |chains| && i != j && chains[i] == f && chains[j] == t
  }

  /** What is to be stored for (f, t). */
  ghost predicate IsResolved<T(!new)>(items: seq<Item<T>>, chains: seq<int>, f: int, t: int, r: Option<T>) {
    if Paired(chains, f, t) then IsFirstExisting(items, f, t, r) else r == None
  }

  predicate AreDistinct(chains: seq<int>) {
    forall i, j :: 0 <= i < j < |chains| ==> chains[i] != chains[j]
  }

  lemma {:induction false} ListedIsLast<T>(items: seq<Item<T>>, f: int, t: int, c: T)
    ensures Listed(items, f, t) == Some(c) <==>
              exists k :: 0 <= k < |items| && items[k] == Item(f, t, c)
                && forall j :: k < j < |items| ==> !(items[j].fromChain == f && items[j].toChain == t)
    decreases |items|
  {
    if items != [] {
      var n := |items| - 1;
      ListedIsLast(items[..n], f, t, c);
      if Listed(items, f, t) == Some(c) {
        var k :| 0 <= k < |items| && items[k] == Item(f, t, c)
                && forall j :: k < j < n ==> !(items[j].fromChain == f && items[j].toChain == t);
        if items[n].fromChain == f && items[n].toChain == t { assert items[n] == Item(f, t, c); }
      }
    }
  }

  /** The rule leaves one answer for every pair. */
  lemma ResolvedIsUnique<T(!new)>(items: seq<Item<T>>, chains: seq<int>, f: int, t: int, r: Option<T>, s: Option<T>)
    requires IsResolved(items, chains, f, t, r) && IsResolved(items, chains, f, t, s)
    ensures r == s
  {
    if Paired(chains, f, t) && r.Some? && s.Some? {
      var j :| 0 <= j < 4 && ListedAt(items, f, t, j) == r && forall i :: 0 <= i < j ==> ListedAt(items, f, t, i) == None;
      var k :| 0 <= k < 4 && ListedAt(items, f, t, k) == s && forall i :: 0 <= i < k ==> ListedAt(items, f, t, i) == None;
      assert j == k;
    }
  }

  /** On distinct chains a pair is looked up exactly if both are supported and they differ. */
  lemma PairedIff(chains: seq<int>, f: int, t: int)
    requires AreDistinct(chains)
    ensures Paired(chains, f, t) <==> f in chains && t in chains && f != t
  {
  }

  /** What makes a check fail, one by one. */
  lemma ChecksRefuse(c: SwapConfig, g: FeeConfig)
    ensures CheckSwapConfig(c) <==>
            !(c.maximumSwap.Nil? || c.minimumSwap.Nil? || c.bigValueThreshold.Nil? ||
              c.maximumSwap.v <= 0 || c.minimumSwap.v < 0 || c.bigValueThreshold.v <= 0 ||
              c.bigValueThreshold.v > c.maximumSwap.v || c.minimumSwap.v > c.bigValueThreshold.v)
    ensures CheckFeeConfig(g) <==>
            !(g.swapFeeRatePerMillion >= 1000000 || g.maximumSwapFee.Nil? || g.minimumSwapFee.Nil? ||
              g.maximumSwapFee.v < 0 || g.minimumSwapFee.v < 0 || g.minimumSwapFee.v > g.maximumSwapFee.v ||
              (g.swapFeeRatePerMillion == 0 && g.minimumSwapFee.v > 0))
  {
  }

  /** What is stored passed its check. */
  lemma StoredIsChecked<T(!new)>(items: seq<Item<T>>, check: T -> bool, chains: seq<int>, f: int, t: int, c: T)
    requires forall k :: 0 <= k < |items| ==> check(items[k].config)
    requires IsResolved(items, chains, f, t, Some(c))
    ensures check(c)
  {
    var k :| 0 <= k < 4 && ListedAt(items, f, t, k) == Some(c);
    var p := Candidate(f, t, k);
    ListedIsLast(items, p.0, p.1, c);
  }

  /**
    So no payout under loaded fee configs is negative or more than the converted deposit,
    whatever extra fee the source chain sets and whatever the base-fee percentage is.
   */
  lemma LoadedFeesNeverCreateValue(items: seq<Item<FeeConfig>>, chains: seq<int>, f: int, t: int, c: FeeConfig,
                                   p: SwapValue.Setting, value: nat)
    requires forall k :: 0 <= k < |items| ==> CheckFeeConfig(items[k].config)
    requires IsResolved(items, chains, f, t, Some(c))
    requires p.isERC20
    requires c.maximumSwapFee.Big? && c.minimumSwapFee.Big? && p.feeConfig == Some(Terms(c))
    ensures 0 <= SwapValue.Payout(p, value) <= SwapValue.Convert(value, p.fromDecimals, p.toDecimals)
  {
    StoredIsChecked(items, CheckFeeConfig, chains, f, t, c);
    SwapValue.FeesNeverCreateValue(p, value);
  }

  // ---------------------------------------------------------------- the code

  /** Fills the nested map from the list; stops at the first config that fails its check. */
  method Collect<T>(items: seq<Item<T>>, check: T -> bool) returns (ok: bool, m: Table<T>)
    ensures ok <==> forall k :: 0 <= k < |items| ==> check(items[k].config)
    ensures ok ==> forall f, t :: Lookup(m, f, t) == Listed(items, f, t)
  {
    m := map[];
    for k := 0 to |items|
      invariant forall j :: 0 <= j < k ==> check(items[j].config)
      invariant forall f, t :: Lookup(m, f, t) == Listed(items[..k], f, t)
    {
      var x := items[k];
      var inner := if x.fromChain in m then m[x.fromChain] else map[];
      if !check(x.config) { return false, m; }
      assert items[..k + 1][..k] == items[..k];
      m := m[x.fromChain := inner[x.toChain := x.config]];
    }
    assert items[..|items|] == items;
    ok := true;
  }

  method Choose<T(!new)>(m: Table<T>, f: int, t: int, ghost items: seq<Item<T>>) returns (r: Option<T>)
    requires forall f, t :: Lookup(m, f, t) == Listed(items, f, t)
    ensures IsFirstExisting(items, f, t, r)
  {
    r := None;
    if f in m {
      if t in m[f] { r := Some(m[f][t]); }
      else if ANY_CHAIN in m[f] { r := Some(m[f][ANY_CHAIN]); }
    }
    if r == None && ANY_CHAIN in m {
      if t in m[ANY_CHAIN] { r := Some(m[ANY_CHAIN][t]); }
      else if ANY_CHAIN in m[ANY_CHAIN] { r := Some(m[ANY_CHAIN][ANY_CHAIN]); }
    }
    assert ListedAt(items, f, t, 0) == Lookup(m, f, t) && ListedAt(items, f, t, 1) == Lookup(m, f, ANY_CHAIN);
    assert ListedAt(items, f, t, 2) == Lookup(m, ANY_CHAIN, t) && ListedAt(items, f, t, 3) == Lookup(m, ANY_CHAIN, ANY_CHAIN);
  }

  predicate PairedFrom(chains: seq<int>, i: nat, n: nat, t: int)
    requires n <= |chains|
  {
    exists j :: 0 <= j < n && i != j && chains[j] == t
  }

  /** The entries of one source chain. */
  method Row<T(!new)>(m: Table<T>, chains: seq<int>, i: nat, ghost items: seq<Item<T>>) returns (row: map<int, T>)
    requires i < |chains|
    requires forall f, t :: Lookup(m, f, t) == Listed(items, f, t)
    ensures forall t :: if PairedFrom(chains, i, |chains|, t) then IsFirstExisting(items, chains[i], t, At(row, t)) else t !in row
  {
    row := map[];
    for j := 0 to |chains|
      invariant forall t :: if PairedFrom(chains, i, j, t) then IsFirstExisting(items, chains[i], t, At(row, t)) else t !in row
    {
      if i == j { continue; }
      var r := Choose(m, chains[i], chains[j], items);
      if r.Some? { row := row[chains[j] := r.value]; }
    }
  }

  function At<T>(row: map<int, T>, t: int): Option<T> {
    if t in row then Some(row[t]) else None
  }

  lemma PairedFromAny(chains: seq<int>, i: nat, t: int)
    requires i < |chains|
    ensures PairedFrom(chains, i, |chains|, t) <==> Paired(chains, chains[i], t)
  {
    if Paired(chains, chains[i], t) {
      var a, b :| 0 <= a < |chains| && 0 <= b < |chains| && a != b && chains[a] == chains[i] && chains[b] == t;
      assert chains[if b == i then a else b] == t;
    }
  }

  method LoadConfigs<T(!new)>(items: seq<Item<T>>, check: T -> bool, chains: seq<int>) returns (stored: Table<T>)
    ensures (exists k :: 0 <= k < |items| && !check(items[k].config)) ==> stored == map[]
    ensures (forall k :: 0 <= k < |items| ==> check(items[k].config)) ==>
              forall f, t :: IsResolved(items, chains, f, t, Lookup(stored, f, t))
    ensures (forall k :: 0 <= k < |items| ==> check(items[k].config)) && AreDistinct(chains) ==>
              forall f, t :: f in chains && t in chains && f != t ==> IsFirstExisting(items, f, t, Lookup(stored, f, t))
  {
    stored := map[];
    var ok, m := Collect(items, check);
    if !ok { return; }
    for i := 0 to |chains|
      invariant forall f :: f in stored <==> f in chains[..i]
      invariant forall f, t :: f in stored ==> IsResolved(items, chains, f, t, Lookup(stored, f, t))
    {
      var row := Row(m, chains, i, items);
      forall t ensures IsResolved(items, chains, chains[i], t, At(row, t)) { PairedFromAny(chains, i, t); }
      ghost var before := stored;
      stored := stored[chains[i] := row];
      forall f, t | f in stored ensures IsResolved(items, chains, f, t, Lookup(stored, f, t)) {
        assert Lookup(stored, f, t) == if f == chains[i] then At(row, t) else Lookup(before, f, t);
      }
    }
    if AreDistinct(chains) {
      forall f, t ensures Paired(chains, f, t) <==> f in chains && t in chains && f != t { PairedIff(chains, f, t); }
    }
  }

  method LoadSwapConfigs(items: seq<Item<SwapConfig>>, chains: seq<int>) returns (stored: Table<SwapConfig>)
    ensures (exists k :: 0 <= k < |items| && !CheckSwapConfig(items[k].config)) ==> stored == map[]
    ensures (forall k :: 0 <= k < |items| ==> CheckSwapConfig(items[k].config)) ==>
              forall f, t :: IsResolved(items, chains, f, t, Lookup(stored, f, t))
  {
    stored := LoadConfigs(items, CheckSwapConfig, chains);
  }

  method LoadFeeConfigs(items: seq<Item<FeeConfig>>, chains: seq<int>) returns (stored: Table<FeeConfig>)
    ensures (exists k :: 0 <= k < |items| && !CheckFeeConfig(items[k].config)) ==> stored == map[]
    ensures (forall k :: 0 <= k < |items| ==> CheckFeeConfig(items[k].config)) ==>
              forall f, t :: IsResolved(items, chains, f, t, Lookup(stored, f, t))
  {
    stored := LoadConfigs(items, CheckFeeConfig, chains);
  }
}
