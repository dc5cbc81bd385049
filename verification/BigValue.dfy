/**
  The threshold above which a swap needs a manual pass.  Big integers are heap objects, as
  in the code: a conversion between equal decimals hands out the stored object itself, and
  the discount is then applied to it in place.
 */
module BigValue {
  import opened SwapValue

  class BigInt {
    var v: int

    constructor (v: int)
      ensures this.v == v
    {
      this.v := v;
    }

    method Mul(x: int, y: int)
      modifies this
      ensures v == x * y
    {
      v := x * y;
    }

    method Div(x: int, y: int)
      requires y != 0
      modifies this
      ensures v == x / y
    {
      v := x / y;
    }
  }

  /** The load-time check of a swap config. */
  predicate CheckLimits(maximum: int, minimum: int, threshold: int) {
    maximum > 0 && minimum >= 0 && threshold > 0 && minimum <= threshold <= maximum
  }

  /** A loaded swap config; several chain pairs may share one such object. */
  class SwapConfig {
    const maximumSwap: BigInt
    const minimumSwap: BigInt
    const bigValueThreshold: BigInt

    constructor (maximumSwap: BigInt, minimumSwap: BigInt, bigValueThreshold: BigInt)
      ensures this.maximumSwap == maximumSwap && this.minimumSwap == minimumSwap
      ensures this.bigValueThreshold == bigValueThreshold
    {
      this.maximumSwap, this.minimumSwap, this.bigValueThreshold := maximumSwap, minimumSwap, bigValueThreshold;
    }
  }

  /** One question for the threshold: the token's decimals and the discount of its source chain. */
  datatype Query = Query(decimals: nat, discount: nat)

  predicate Discounts(q: Query) {
    0 < q.discount < 100
  }

  /** The question whose discount is applied to the stored number itself. */
  predicate WritesThrough(q: Query) {
    q.decimals == CONFIG_DECIMALS && Discounts(q)
  }

  /** The threshold the configuration promises. */
  function Answer(stored: int, q: Query): int {
    var converted := Convert(stored, CONFIG_DECIMALS, q.decimals);
    if Discounts(q) then converted * q.discount / 100 else converted
  }

  function StoredAfter(stored: int, qs: seq<Query>): int {
    if qs == [] then stored
    else
      var before := StoredAfter(stored, qs[..|qs| - 1]);
      if WritesThrough(qs[|qs| - 1]) then before * qs[|qs| - 1].discount / 100 else before
  }

  /** A deposit to decide on; an exempt one, whitelisted or not a token swap, asks nothing. */
  datatype Deposit = Deposit(value: int, q: Query, exempt: bool)

  /** The questions that deciding on these deposits asks. */
  function Asked(swaps: seq<Deposit>): seq<Query> {
    if swaps == [] then []
    else Asked(swaps[..|swaps| - 1]) + if swaps[|swaps| - 1].exempt then [] else [swaps[|swaps| - 1].q]
  }

  lemma AskedAppends(stored: int, swaps: seq<Deposit>, swap: Deposit)
    ensures StoredAfter(stored, Asked(swaps + [swap])) == StoredAfter(StoredAfter(stored, Asked(swaps)), Asked([swap]))
  {
    var asked := Asked(swaps);
    assert (swaps + [swap])[..|swaps|] == swaps && [swap][..0] == [] && Asked([]) == [];
    if swap.exempt {
      assert asked + [] == asked;
    } else {
      assert (asked + [swap.q])[..|asked|] == asked && Asked([swap]) == [swap.q] && [swap.q][..0] == [];
    }
  }

  method ConvertTokenValue(value: BigInt, from: nat, to: nat) returns (r: BigInt)
    ensures r.v == Convert(value.v, from, to)
    ensures if from == to then r == value else fresh(r)
  {
    if from == to {
      return value;
    }
    if from > to {
      r := new BigInt(value.v / Pow10(from - to));
    } else {
      r := new BigInt(value.v * Pow10(to - from));
    }
  }

  method GetBigValueThreshold(cfg: SwapConfig?, q: Query) returns (value: BigInt)
    modifies if cfg == null then {} else {cfg.bigValueThreshold}
    ensures cfg == null ==> value.v == 0
    ensures cfg != null ==> value.v == Answer(old(cfg.bigValueThreshold.v), q)
    ensures cfg != null ==> cfg.bigValueThreshold.v == StoredAfter(old(cfg.bigValueThreshold.v), [q])
    ensures cfg != null ==> (value == cfg.bigValueThreshold <==> q.decimals == CONFIG_DECIMALS)
  {
    if cfg == null {
      value := new BigInt(0);
      return;
    }
    ghost var before := cfg.bigValueThreshold.v;
    assert [q][..0] == [];
    value := ConvertTokenValue(cfg.bigValueThreshold, CONFIG_DECIMALS, q.decimals);
    if q.discount > 0 && q.discount < 100 {
      value.Mul(value.v, q.discount);
      value.Div(value.v, 100);
    }
    assert StoredAfter(before, []) == before;
  }

  /**
    Whether a swap needs a manual pass.  A swap that does not is within the configured maximum;
    without a config every positive value is big.
   */
  method IsBigValueSwap(cfg: SwapConfig?, swap: Deposit) returns (big: bool)
    modifies if cfg == null then {} else {cfg.bigValueThreshold}
    ensures swap.exempt ==> !big
    ensures cfg == null && !swap.exempt ==> (big <==> swap.value > 0)
    ensures cfg != null ==> cfg.bigValueThreshold.v == StoredAfter(old(cfg.bigValueThreshold.v), Asked([swap]))
    ensures cfg != null && !swap.exempt ==> (big <==> swap.value > Answer(old(cfg.bigValueThreshold.v), swap.q))
    ensures cfg != null && !swap.exempt && !big && old(0 <= cfg.bigValueThreshold.v <= cfg.maximumSwap.v) ==>
              swap.value <= Convert(old(cfg.maximumSwap.v), CONFIG_DECIMALS, swap.q.decimals)
  {
    assert [swap][..0] == [] && Asked([]) == [];
    if swap.exempt {
      return false;
    }
    assert Asked([swap]) == [swap.q];
    ghost var threshold, maximum := if cfg == null then 0 else cfg.bigValueThreshold.v, if cfg == null then 0 else cfg.maximumSwap.v;
    var bound := GetBigValueThreshold(cfg, swap.q);
    big := swap.value > bound.v;
    if cfg != null && !big && 0 <= threshold <= maximum { SmallValuesAreWithinMaximum(threshold, maximum, swap.q, swap.value); }
  }

  /** What is decided on deposit i of a run that began with this stored threshold. */
  predicate IsBigAt(stored: int, swaps: seq<Deposit>, i: nat)
    requires i < |swaps|
  {
    !swaps[i].exempt && swaps[i].value > Answer(StoredAfter(stored, Asked(swaps[..i])), swaps[i].q)
  }

  /** Any run of such decisions against one config object. */
  method DecideAll(cfg: SwapConfig, swaps: seq<Deposit>) returns (bigs: seq<bool>)
    modifies cfg.bigValueThreshold
    ensures cfg.bigValueThreshold.v == StoredAfter(old(cfg.bigValueThreshold.v), Asked(swaps))
    ensures |bigs| == |swaps|
    ensures forall i :: 0 <= i < |swaps| ==> (bigs[i] <==> IsBigAt(old(cfg.bigValueThreshold.v), swaps, i))
  {
    bigs := [];
    ghost var start := cfg.bigValueThreshold.v;
    for i := 0 to |swaps|
      invariant |bigs| == i
      invariant cfg.bigValueThreshold.v == StoredAfter(start, Asked(swaps[..i]))
      invariant forall j :: 0 <= j < i ==> (bigs[j] <==> IsBigAt(start, swaps, j))
    {
      var big := IsBigValueSwap(cfg, swaps[i]);
      bigs := bigs + [big];
      assert swaps[..i + 1] == swaps[..i] + [swaps[i]];
      AskedAppends(start, swaps[..i], swaps[i]);
    }
    assert swaps[..|swaps|] == swaps;
  }

  /** Any run of questions against one config object, for whichever chains share it. */
  method AskAll(cfg: SwapConfig, qs: seq<Query>) returns (answers: seq<int>)
    modifies cfg.bigValueThreshold
    ensures cfg.bigValueThreshold.v == StoredAfter(old(cfg.bigValueThreshold.v), qs)
    ensures |answers| == |qs|
    ensures forall i :: 0 <= i < |qs| ==> answers[i] == Answer(StoredAfter(old(cfg.bigValueThreshold.v), qs[..i]), qs[i])
  {
    answers := [];
    ghost var start := cfg.bigValueThreshold.v;
    for i := 0 to |qs|
      invariant |answers| == i
      invariant cfg.bigValueThreshold.v == StoredAfter(start, qs[..i])
      invariant forall j :: 0 <= j < i ==> answers[j] == Answer(StoredAfter(start, qs[..j]), qs[j])
    {
      var value := GetBigValueThreshold(cfg, qs[i]);
      answers := answers + [value.v];
      assert qs[..i + 1][..i] == qs[..i];
      assert [qs[i]][..0] == [];
      assert StoredAfter(StoredAfter(start, qs[..i]), []) == StoredAfter(start, qs[..i]);
    }
    assert qs[..|qs|] == qs;
  }

  // ---------------------------------------------------------------- when the stored threshold survives

  lemma DiscountShrinks(stored: int, discount: nat)
    requires stored >= 0 && 0 < discount < 100
    ensures 0 <= stored * discount / 100 <= stored
    ensures stored > 0 ==> stored * discount / 100 < stored
  {
    assert 0 <= stored * discount <= stored * 99;
  }

  lemma {:induction false} StoredNeverGrows(stored: int, qs: seq<Query>)
    requires stored >= 0
    ensures 0 <= StoredAfter(stored, qs) <= stored
  {
    if qs != [] {
      var rest, q := qs[..|qs| - 1], qs[|qs| - 1];
      StoredNeverGrows(stored, rest);
      if WritesThrough(q) { DiscountShrinks(StoredAfter(stored, rest), q.discount); }
    }
  }

  /**
    A run of questions leaves a positive stored threshold alone exactly if none of them asks
    with a discount for a token of 18 decimals.
   */
  lemma {:induction false} ThresholdSurvivesIff(stored: int, qs: seq<Query>)
    requires stored > 0
    ensures StoredAfter(stored, qs) == stored <==> forall i :: 0 <= i < |qs| ==> !WritesThrough(qs[i])
  {
    if qs != [] {
      var rest, q := qs[..|qs| - 1], qs[|qs| - 1];
      ThresholdSurvivesIff(stored, rest);
      StoredNeverGrows(stored, rest);
      if WritesThrough(q) {
        DiscountShrinks(StoredAfter(stored, rest), q.discount);
      } else {
        assert forall i :: 0 <= i < |rest| ==> rest[i] == qs[i];
        assert (forall i :: 0 <= i < |rest| ==> !WritesThrough(rest[i])) <==> (forall i :: 0 <= i < |qs| ==> !WritesThrough(qs[i]));
      }
    }
  }

  /** As long as no question wrote through, every answer is the promised one. */
  lemma AnswersArePromised(stored: int, qs: seq<Query>, i: nat)
    requires stored > 0 && i < |qs|
    requires forall j :: 0 <= j < i ==> !WritesThrough(qs[j])
    ensures Answer(StoredAfter(stored, qs[..i]), qs[i]) == Answer(stored, qs[i])
  {
    ThresholdSurvivesIff(stored, qs[..i]);
  }

  /** Asked often enough with a discount at 18 decimals, the stored threshold is eaten up. */
  lemma {:induction false} ThresholdVanishes(stored: int, qs: seq<Query>)
    requires 0 <= stored <= |qs| && forall i :: 0 <= i < |qs| ==> WritesThrough(qs[i])
    ensures StoredAfter(stored, qs) == 0
  {
    ThresholdFalls(stored, qs);
  }

  lemma {:induction false} ThresholdFalls(stored: int, qs: seq<Query>)
    requires 0 <= stored && forall i :: 0 <= i < |qs| ==> WritesThrough(qs[i])
    ensures 0 <= StoredAfter(stored, qs) && (StoredAfter(stored, qs) <= stored - |qs| || StoredAfter(stored, qs) == 0)
  {
    if qs != [] {
      var rest, q := qs[..|qs| - 1], qs[|qs| - 1];
      ThresholdFalls(stored, rest);
      DiscountShrinks(StoredAfter(stored, rest), q.discount);
    }
  }

  /** An answer is the stored threshold in the token's decimals, and of that the discount in percent, rounded down. */
  lemma AnswerIsDiscounted(stored: int, q: Query)
    ensures !(0 < q.discount < 100) ==> Answer(stored, q) == Convert(stored, 18, q.decimals)
    ensures 0 < q.discount < 100 ==>
              Answer(stored, q) * 100 <= Convert(stored, 18, q.decimals) * q.discount < (Answer(stored, q) + 1) * 100
    ensures StoredAfter(stored, [q]) == if q.decimals == 18 then Answer(stored, q) else stored
  {
    assert [q][..0] == [] && StoredAfter(stored, []) == stored;
  }

  /** A value that is not above the promised threshold is within the converted maximum. */
  lemma SmallValuesAreWithinMaximum(threshold: int, maximum: int, q: Query, value: int)
    requires 0 <= threshold <= maximum
    requires value <= Answer(threshold, q)
    ensures value <= Convert(maximum, CONFIG_DECIMALS, q.decimals)
  {
    ConvertMonotone(threshold, maximum, CONFIG_DECIMALS, q.decimals);
    if Discounts(q) { DiscountShrinks(Convert(threshold, CONFIG_DECIMALS, q.decimals), q.discount); }
  }

  /**
    However far a run of decisions has worn the threshold down, a deposit that is let through
    is within the configured maximum.
   */
  lemma LetThroughIsWithinMaximum(threshold: int, maximum: int, swaps: seq<Deposit>, i: nat)
    requires 0 <= threshold <= maximum && i < |swaps|
    requires !swaps[i].exempt && !IsBigAt(threshold, swaps, i)
    ensures swaps[i].value <= Convert(maximum, CONFIG_DECIMALS, swaps[i].q.decimals)
  {
    var asked := Asked(swaps[..i]);
    StoredNeverGrows(threshold, asked);
    SmallValuesAreWithinMaximum(StoredAfter(threshold, asked), maximum, swaps[i].q, swaps[i].value);
  }
}
