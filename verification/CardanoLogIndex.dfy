/**
  The flat log index of a Cardano deposit.  Output `o` of a transaction with `n` tokens has
  the asset slots 0 (its ADA) to `n`, and all slots of all outputs are numbered from 1 in
  order.  Registration enumerates the numbers, verification resolves one of them again.
 */
module CardanoLogIndex {

  const DEFAULT_ADA_AMOUNT: nat := 2_000_000

  datatype Token = Token(policyId: string, assetName: string, quantity: int)
  const ADA_ASSET := "lovelace"

  datatype Amount = Malformed | Amount(n: int)
  datatype Output = Output(address: string, index: int, value: Amount, tokens: seq<Token>)

  datatype Place = Place(output: nat, slot: int)

  datatype Error = ErrOutputIndexSort | ErrLogIndexOutOfRange | ErrSwapoutLogNotFound
                 | ErrAdaSwapOutAmount | ErrMpcAddrMissMatch

  datatype Parsed = Deposit(token: Token) | Refused(error: Error) | Crash

  datatype Entry = Entry(logIndex: int, token: Token)
  datatype Registered = Found(entries: seq<Entry>) | NotRegistered(error: Error)

  // ---------------------------------------------------------------- the numbering

  /** The number of slots of the first `k` outputs. */
  function Slots(outputs: seq<Output>, k: nat): nat
    requires k <= |outputs|
  {
    if k == 0 then 0 else Slots(outputs, k - 1) + |outputs[k - 1].tokens| + 1
  }

  function Total(outputs: seq<Output>): nat {
    Slots(outputs, |outputs|)
  }

  predicate IsPlace(outputs: seq<Output>, p: Place) {
    p.output < |outputs| && 0 <= p.slot <= |outputs[p.output].tokens|
  }

  function Flat(outputs: seq<Output>, p: Place): int
    requires IsPlace(outputs, p)
  {
    Slots(outputs, p.output) + p.slot + 1
  }

  /** The walk both operations make; past the last output nothing was set, which is slot 0 of output 0. */
  function Walk(outputs: seq<Output>, k: nat, tempIndex: nat, i: int): Place
    requires k <= |outputs|
    decreases |outputs| - k
  {
    if k == |outputs| then Place(0, 0)
    else
      var n := |outputs[k].tokens| + 1;
      if i > tempIndex + n then Walk(outputs, k + 1, tempIndex + n, i) else Place(k, i - tempIndex - 1)
  }

  function Resolve(outputs: seq<Output>, i: int): Place {
    Walk(outputs, 0, 0, i)
  }

  lemma {:induction false} SlotsGrow(outputs: seq<Output>, j: nat, k: nat)
    requires j <= k <= |outputs|
    ensures Slots(outputs, j) + (k - j) <= Slots(outputs, k)
  {
    if j < k { SlotsGrow(outputs, j, k - 1); }
  }

  lemma {:induction false} WalkMeets(outputs: seq<Output>, k: nat, i: int)
    requires k < |outputs| && Slots(outputs, k) < i
    ensures var p := Walk(outputs, k, Slots(outputs, k), i);
            if i <= Total(outputs) then IsPlace(outputs, p) && Flat(outputs, p) == i else p == Place(0, 0)
    decreases |outputs| - k
  {
    SlotsGrow(outputs, k + 1, |outputs|);
    if i > Slots(outputs, k + 1) && k + 1 < |outputs| { WalkMeets(outputs, k + 1, i); }
  }

  /** No two slots share a number. */
  lemma FlatIsInjective(outputs: seq<Output>, p: Place, q: Place)
    requires IsPlace(outputs, p) && IsPlace(outputs, q)
    ensures Flat(outputs, p) == Flat(outputs, q) ==> p == q
  {
    if p.output < q.output { SlotsGrow(outputs, p.output + 1, q.output); }
    if q.output < p.output { SlotsGrow(outputs, q.output + 1, p.output); }
  }

  /** The numbers 1 to the total and the slots correspond one to one, and the walk is that correspondence. */
  lemma ResolveInvertsFlat(outputs: seq<Output>)
    ensures forall i {:trigger Resolve(outputs, i)} :: 1 <= i <= Total(outputs) ==>
              IsPlace(outputs, Resolve(outputs, i)) && Flat(outputs, Resolve(outputs, i)) == i
    ensures forall p :: IsPlace(outputs, p) ==>
              1 <= Flat(outputs, p) <= Total(outputs) && Resolve(outputs, Flat(outputs, p)) == p
  {
    forall i {:trigger Resolve(outputs, i)} | 1 <= i <= Total(outputs)
      ensures IsPlace(outputs, Resolve(outputs, i)) && Flat(outputs, Resolve(outputs, i)) == i
    {
      WalkMeets(outputs, 0, i);
    }
    forall p | IsPlace(outputs, p)
      ensures 1 <= Flat(outputs, p) <= Total(outputs) && Resolve(outputs, Flat(outputs, p)) == p
    {
      SlotsGrow(outputs, p.output + 1, |outputs|);
      WalkMeets(outputs, 0, Flat(outputs, p));
      FlatIsInjective(outputs, p, Resolve(outputs, Flat(outputs, p)));
    }
  }

  /** The numbering starts at the first slot of the first output and goes on slot by slot, then output by output. */
  lemma NumberingIsInOrder(outputs: seq<Output>, p: Place)
    requires IsPlace(outputs, p)
    ensures p == Place(0, 0) ==> Flat(outputs, p) == 1
    ensures p.slot < |outputs[p.output].tokens| ==> Flat(outputs, Place(p.output, p.slot + 1)) == Flat(outputs, p) + 1
    ensures p.slot == |outputs[p.output].tokens| && p.output + 1 < |outputs| ==>
              Flat(outputs, Place(p.output + 1, 0)) == Flat(outputs, p) + 1
  {
  }

  /** Resolving gives back a number's own slot exactly for the numbers 1 to the total. */
  lemma ResolvesItselfIff(outputs: seq<Output>, i: int)
    ensures (IsPlace(outputs, Resolve(outputs, i)) && Flat(outputs, Resolve(outputs, i)) == i) <==> 1 <= i <= Total(outputs)
    ensures i > Total(outputs) ==> Resolve(outputs, i) == Place(0, 0)
    ensures i <= 0 && outputs != [] ==> Resolve(outputs, i) == Place(0, i - 1)
  {
    ResolveInvertsFlat(outputs);
    if i > Total(outputs) && outputs != [] { WalkMeets(outputs, 0, i); }
  }

  // ---------------------------------------------------------------- one slot

  /** The deposit in a slot; only the slot of a lone token or the ADA above the default amount is one. */
  function ParseTxOutput(mpc: string, o: Output, slot: int): Parsed {
    if o.address != mpc then Refused(ErrMpcAddrMissMatch)
    else if slot == 0 then
      if o.value.Malformed? || o.value.n <= DEFAULT_ADA_AMOUNT then Refused(ErrAdaSwapOutAmount)
      else Deposit(Token(ADA_ASSET, ADA_ASSET, o.value.n - DEFAULT_ADA_AMOUNT))
    else if |o.tokens| > 1 then Refused(ErrMpcAddrMissMatch)
    else if 0 <= slot - 1 < |o.tokens| then Deposit(o.tokens[slot - 1])
    else Crash
  }

  function ParseAt(mpc: string, outputs: seq<Output>, p: Place): Parsed {
    if p.output < |outputs| then ParseTxOutput(mpc, outputs[p.output], p.slot) else Crash
  }

  /**
    What a slot is worth, by the output alone: the router's ADA above the 2 ADA that every
    output must carry, or its lone token.
   */
  predicate HoldsDeposit(mpc: string, o: Output, slot: int, t: Token) {
    && o.address == mpc
    && (if slot == 0 then o.value.Amount? && o.value.n > 2000000 && t.quantity + 2000000 == o.value.n &&
                          t.policyId == "lovelace" && t.assetName == "lovelace"
        else slot == 1 && |o.tokens| == 1 && t == o.tokens[0])
  }

  /** Why a slot without a deposit is refused. */
  predicate IsRefusal(mpc: string, o: Output, slot: int, e: Error) {
    if o.address == mpc && slot == 0
    then e == ErrAdaSwapOutAmount && (o.value.Malformed? || o.value.n <= 2000000)
    else e == ErrMpcAddrMissMatch && (o.address != mpc || |o.tokens| > 1)
  }

  lemma SlotIsWorth(mpc: string, outputs: seq<Output>, p: Place)
    requires IsPlace(outputs, p)
    ensures forall t :: ParseAt(mpc, outputs, p) == Deposit(t) <==> HoldsDeposit(mpc, outputs[p.output], p.slot, t)
    ensures forall e :: ParseAt(mpc, outputs, p) == Refused(e) <==> IsRefusal(mpc, outputs[p.output], p.slot, e)
  {
  }

  /** The transactions and indexes whose lookup reads outside a list. */
  predicate Crashes(mpc: string, outputs: seq<Output>, i: int) {
    outputs == [] || (i <= 0 && outputs[0].address == mpc && |outputs[0].tokens| <= 1)
  }

  /** A lookup crashes exactly without outputs, or below 1 on a first output of the router with at most one token. */
  lemma CrashesIff(mpc: string, outputs: seq<Output>, i: int)
    ensures ParseAt(mpc, outputs, Resolve(outputs, i)) == Crash <==> Crashes(mpc, outputs, i)
  {
    ResolveInvertsFlat(outputs);
    ResolvesItselfIff(outputs, i);
  }

  // ---------------------------------------------------------------- registration

  function Listing(mpc: string, outputs: seq<Output>, start: int, end: int): seq<Entry>
    decreases end - start
  {
    if end <= start then [] else
      Listing(mpc, outputs, start, end - 1) +
      match ParseAt(mpc, outputs, Resolve(outputs, end - 1)) {
        case Deposit(t) => [Entry(end - 1, t)]
        case _ => []
      }
  }

  predicate InOrder(outputs: seq<Output>) {
    forall k :: 0 <= k < |outputs| ==> outputs[k].index == k
  }

  function NonEmpty(entries: seq<Entry>): Registered {
    if entries == [] then NotRegistered(ErrSwapoutLogNotFound) else Found(entries)
  }

  method TotalLength(outputs: seq<Output>) returns (ok: bool, total: nat)
    ensures ok <==> InOrder(outputs)
    ensures ok ==> total == Total(outputs)
  {
    total := 0;
    for k := 0 to |outputs|
      invariant total == Slots(outputs, k)
      invariant forall j :: 0 <= j < k ==> outputs[j].index == j
    {
      if k != outputs[k].index { return false, total; }
      total := total + |outputs[k].tokens| + 1;
    }
    ok := true;
  }

  method FindSlot(outputs: seq<Output>, i: int) returns (p: Place)
    ensures p == Resolve(outputs, i)
  {
    var tempIndex := 0;
    p := Place(0, 0);
    for k := 0 to |outputs|
      invariant p == Place(0, 0) && tempIndex >= 0
      invariant Walk(outputs, k, tempIndex, i) == Resolve(outputs, i)
    {
      if i > tempIndex + |outputs[k].tokens| + 1 {
        tempIndex := tempIndex + |outputs[k].tokens| + 1;
      } else {
        return Place(k, i - tempIndex - 1);
      }
    }
  }

  /** All deposits of the transaction, or the one asked for, or the error that there is none. */
  ghost predicate IsRegistration(mpc: string, outputs: seq<Output>, logIndex: int, r: Registered) {
    && (r.NotRegistered? ==> r.error == ErrSwapoutLogNotFound)
    && (forall e :: (r.Found? && e in r.entries) <==> (logIndex == 0 || e.logIndex == logIndex) && IsDepositOf(mpc, outputs, e))
  }

  method RegisterSwapTx(mpc: string, outputs: seq<Output>, logIndex: int) returns (r: Registered)
    ensures !InOrder(outputs) ==> r == NotRegistered(ErrOutputIndexSort)
    ensures InOrder(outputs) && logIndex == 0 ==> r == NonEmpty(Listing(mpc, outputs, 1, Total(outputs) + 1))
    ensures InOrder(outputs) && 1 <= logIndex <= Total(outputs) ==>
              r == NonEmpty(Listing(mpc, outputs, logIndex, logIndex + 1))
    ensures InOrder(outputs) && !(0 <= logIndex <= Total(outputs)) ==> r == NotRegistered(ErrLogIndexOutOfRange)
    ensures InOrder(outputs) && 0 <= logIndex <= Total(outputs) ==> IsRegistration(mpc, outputs, logIndex, r)
  {
    var ok, total := TotalLength(outputs);
    if !ok { return NotRegistered(ErrOutputIndexSort); }
    var start, end := 1, total + 1;
    if logIndex != 0 {
      if logIndex >= end || logIndex < 0 { return NotRegistered(ErrLogIndexOutOfRange); }
      start, end := logIndex, logIndex + 1;
    }
    var entries := [];
    for i := start to end
      invariant entries == Listing(mpc, outputs, start, i)
    {
      var p := FindSlot(outputs, i);
      match ParseAt(mpc, outputs, p)
      case Deposit(t) => entries := entries + [Entry(i, t)];
      case _ =>
    }
    r := NonEmpty(entries);
    forall e ensures e in entries <==> (logIndex == 0 || e.logIndex == logIndex) && IsDepositOf(mpc, outputs, e) {
      ListingIsDeposits(mpc, outputs, start, end, e);
      ResolveInvertsFlat(outputs);
    }
  }

  // ---------------------------------------------------------------- verification

  /** The walk for index `i` gets to output `k`. */
  predicate Reached(outputs: seq<Output>, k: nat, i: int)
    requires k < |outputs|
  {
    k == 0 || i > Slots(outputs, k)
  }

  /** The answer to a slot: its deposit if it holds one, otherwise the reason for refusing it. */
  ghost predicate IsAnswer(mpc: string, o: Output, slot: int, r: Parsed) {
    && !r.Crash?
    && (forall t :: r == Deposit(t) <==> HoldsDeposit(mpc, o, slot, t))
    && (r.Refused? ==> IsRefusal(mpc, o, slot, r.error))
  }

  method VerifySwapoutTx(mpc: string, outputs: seq<Output>, logIndex: int) returns (r: Parsed)
    ensures r == Refused(ErrOutputIndexSort) <==>
              exists k :: 0 <= k < |outputs| && Reached(outputs, k, logIndex) && outputs[k].index != k
    ensures r != Refused(ErrOutputIndexSort) ==> r == ParseAt(mpc, outputs, Resolve(outputs, logIndex))
    ensures r == Crash <==> Crashes(mpc, outputs, logIndex) && (outputs != [] ==> outputs[0].index == 0)
    ensures InOrder(outputs) ==> forall p :: IsPlace(outputs, p) && Flat(outputs, p) == logIndex ==>
              IsAnswer(mpc, outputs[p.output], p.slot, r)
  {
    ResolveInvertsFlat(outputs);
    forall p | IsPlace(outputs, p) && Flat(outputs, p) == logIndex
      ensures IsAnswer(mpc, outputs[p.output], p.slot, ParseAt(mpc, outputs, Resolve(outputs, logIndex)))
    {
      SlotIsWorth(mpc, outputs, p);
    }
    CrashesIff(mpc, outputs, logIndex);
    var tempIndex := 0;
    var p := Place(0, 0);
    var k := 0;
    while k < |outputs|
      invariant 0 <= k <= |outputs| && p == Place(0, 0) && tempIndex == Slots(outputs, k)
      invariant k == 0 || logIndex > tempIndex
      invariant Walk(outputs, k, tempIndex, logIndex) == Resolve(outputs, logIndex)
      invariant forall j :: 0 <= j < k ==> outputs[j].index == j
    {
      if k != outputs[k].index {
        assert Reached(outputs, k, logIndex);
        return Refused(ErrOutputIndexSort);
      }
      if logIndex > tempIndex + |outputs[k].tokens| + 1 {
        tempIndex := tempIndex + |outputs[k].tokens| + 1;
      } else {
        p := Place(k, logIndex - tempIndex - 1);
        forall j | k < j < |outputs| ensures !Reached(outputs, j, logIndex) { SlotsGrow(outputs, k + 1, j); }
        break;
      }
      k := k + 1;
    }
    r := ParseAt(mpc, outputs, p);
  }

  // ---------------------------------------------------------------- the two together

  lemma {:induction false} ListingIsExact(mpc: string, outputs: seq<Output>, start: int, end: int, e: Entry)
    requires start <= end
    ensures e in Listing(mpc, outputs, start, end) <==>
              start <= e.logIndex < end && ParseAt(mpc, outputs, Resolve(outputs, e.logIndex)) == Deposit(e.token)
    decreases end - start
  {
    if start < end { ListingIsExact(mpc, outputs, start, end - 1, e); }
  }

  lemma {:induction false} ListingIsIncreasing(mpc: string, outputs: seq<Output>, start: int, end: int)
    requires start <= end
    ensures var s := Listing(mpc, outputs, start, end);
            forall i, j :: 0 <= i < j < |s| ==> s[i].logIndex < s[j].logIndex
    decreases end - start
  {
    if start < end {
      ListingIsIncreasing(mpc, outputs, start, end - 1);
      var s := Listing(mpc, outputs, start, end - 1);
      forall i | 0 <= i < |s| ensures s[i].logIndex < end - 1 { ListingIsExact(mpc, outputs, start, end - 1, s[i]); }
    }
  }

  /**
    A full registration lists every slot that holds a deposit, judged by its output alone,
    exactly once and under its own number; the verification of that number finds the same deposit.
   */
  lemma RegisteredIsVerified(mpc: string, outputs: seq<Output>)
    ensures var s := Listing(mpc, outputs, 1, Total(outputs) + 1);
            && (forall e :: e in s ==> ParseAt(mpc, outputs, Resolve(outputs, e.logIndex)) == Deposit(e.token))
            && (forall i, j :: 0 <= i < j < |s| ==> s[i].logIndex != s[j].logIndex)
            && (forall p, t :: IsPlace(outputs, p) ==>
                  (HoldsDeposit(mpc, outputs[p.output], p.slot, t) <==> Entry(Flat(outputs, p), t) in s))
  {
    var end := Total(outputs) + 1;
    var s := Listing(mpc, outputs, 1, end);
    ListingIsIncreasing(mpc, outputs, 1, end);
    forall e | e in s ensures ParseAt(mpc, outputs, Resolve(outputs, e.logIndex)) == Deposit(e.token) {
      ListingIsExact(mpc, outputs, 1, end, e);
    }
    ResolveInvertsFlat(outputs);
    forall p, t | IsPlace(outputs, p)
      ensures HoldsDeposit(mpc, outputs[p.output], p.slot, t) <==> Entry(Flat(outputs, p), t) in s
    {
      SlotIsWorth(mpc, outputs, p);
      ListingIsExact(mpc, outputs, 1, end, Entry(Flat(outputs, p), t));
    }
  }

  /** The entry is a deposit of the transaction under its own number. */
  ghost predicate IsDepositOf(mpc: string, outputs: seq<Output>, e: Entry) {
    exists p :: IsPlace(outputs, p) && Flat(outputs, p) == e.logIndex && HoldsDeposit(mpc, outputs[p.output], p.slot, e.token)
  }

  /** A listing of numbers within the range holds exactly the deposits under these numbers. */
  lemma ListingIsDeposits(mpc: string, outputs: seq<Output>, start: int, end: int, e: Entry)
    requires 1 <= start <= end <= Total(outputs) + 1
    ensures e in Listing(mpc, outputs, start, end) <==> start <= e.logIndex < end && IsDepositOf(mpc, outputs, e)
  {
    ListingIsExact(mpc, outputs, start, end, e);
    ResolveInvertsFlat(outputs);
    if start <= e.logIndex < end {
      var p := Resolve(outputs, e.logIndex);
      SlotIsWorth(mpc, outputs, p);
      assert IsPlace(outputs, p) && Flat(outputs, p) == e.logIndex;
    }
  }
}
