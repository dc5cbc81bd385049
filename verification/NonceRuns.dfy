/** Parallel nonce allocation under every interleaving of allocations, recycling and ledger updates. */
module ParallelNonces {
  import opened SwapStatuses
  import opened Ledger
  import opened Nonces
  import opened Options

  datatype Step =
    | Fresh(key: Key, from: string, value: string, now: int, marked: bool)
    | TryRecycled(key: Key, from: string, value: string, now: int, lifetime: int, marked: bool)
    | Return(sender: string, nonce: nat, now: int)
    | Other(call: Call)

  /** In parallel mode nothing but an allocation writes nonces and senders. */
  predicate Neutral(c: Call) {
    match c
    case AllocateNonce(_, _, _, _, _, _) => false
    case AddResult(_, r) => r.swapNonce == 0
    case UpdateResult(_, items) => items.swapNonce == 0 && items.mpc == ""
    case _ => true
  }

  function Do(s: State, st: Step): Handout {
    match st
    case Fresh(k, from, value, now, marked) => AllocateFresh(s, k, from, value, now, marked)
    case TryRecycled(k, from, value, now, lifetime, marked) => AllocateRecycled(s, k, from, value, now, lifetime, marked)
    case Return(sender, nonce, now) => Handout(s.(setter := PutBack(s.setter, sender, nonce, now)), None)
    case Other(c) => Handout(s.(db := Apply(s.db, c).db), None)
  }

  /** Only a nonce that some row of the sender carried at some time is put back. */
  ghost predicate WasRecorded(states: seq<State>, i: nat, sender: string, nonce: nat)
    requires i < |states|
  {
    nonce != 0 &&
    exists j, k :: 0 <= j <= i && Owns(states[j].db, sender, k) && states[j].db.results[k].swapNonce == nonce
  }

  ghost predicate IsParallelRun(states: seq<State>, steps: seq<Step>) {
    && |states| == |steps| + 1
    && (forall i :: 0 <= i < |steps| ==> states[i + 1] == Do(states[i], steps[i]).state)
    && (forall i :: 0 <= i < |steps| && steps[i].Return? ==> WasRecorded(states, i, steps[i].sender, steps[i].nonce))
    && (forall i :: 0 <= i < |steps| && steps[i].Other? ==> Neutral(steps[i].call))
  }

  /** Every nonce the table holds for a sender is below the sender's counter. */
  ghost predicate RowsBelow(s: State, address: string) {
    forall k :: Owns(s.db, address, k) ==> s.db.results[k].swapNonce == 0 || s.db.results[k].swapNonce < Counter(s.setter, address)
  }

  /** So is the nonce of the sender that waits to be recycled. */
  ghost predicate RecycledBelow(s: Setter, address: string) {
    var a := Lower(address);
    a in s.recycleNonce && s.recycleNonce[a].nonce != 0 ==> s.recycleNonce[a].nonce < Counter(s, address)
  }

  /** After start-up of a sender its counter is above its nonces in the table and none of them waits to be recycled. */
  ghost predicate StartedUp(s: State, address: string) {
    RowsBelow(s, address) && Lower(address) !in s.setter.recycleNonce
  }

  predicate CounterKept(s: Setter, s': Setter, address: string) {
    Counter(s, address) <= Counter(s', address)
  }

  lemma StepRaisesCounters(s: State, st: Step, address: string)
    ensures CounterKept(s.setter, Do(s, st).state.setter, address)
  {
  }

  lemma {:induction false} CountersGrow(states: seq<State>, steps: seq<Step>, i: nat, j: nat, address: string)
    requires IsParallelRun(states, steps) && i <= j < |states|
    ensures CounterKept(states[i].setter, states[j].setter, address)
    decreases j
  {
    if i < j {
      CountersGrow(states, steps, i, j - 1, address);
      StepRaisesCounters(states[j - 1], steps[j - 1], address);
    }
  }

  lemma NeutralRow(db: Db, c: Call, k: Key)
    requires Neutral(c) && k in Apply(db, c).db.results
    ensures Apply(db, c).db.results[k].swapNonce == 0 ||
            (k in db.results && Apply(db, c).db.results[k].swapNonce == db.results[k].swapNonce &&
             Apply(db, c).db.results[k].mpc == db.results[k].mpc)
  {
  }

  lemma AllocatedRow(db: Db, k: Key, from: string, n: nat, value: string, now: int, marked: bool, m: Key)
    requires m in Apply(db, AllocateNonce(k, from, n, value, now, marked)).db.results
    ensures var r := Apply(db, AllocateNonce(k, from, n, value, now, marked));
            if m == k && r.err == NoError then r.db.results[m].swapNonce == n && r.db.results[m].mpc == from
            else m in db.results && r.db.results[m] == db.results[m]
  {
  }

  lemma StepKeepsRowsBelow(s: State, st: Step, address: string)
    requires RowsBelow(s, address) && RecycledBelow(s.setter, address) && (st.Other? ==> Neutral(st.call))
    ensures RowsBelow(Do(s, st).state, address)
  {
    var s' := Do(s, st).state;
    StepRaisesCounters(s, st, address);
    forall k | Owns(s'.db, address, k)
      ensures s'.db.results[k].swapNonce == 0 || s'.db.results[k].swapNonce < Counter(s'.setter, address)
    {
      match st
      case Fresh(key, from, value, now, marked) =>
        AllocatedRow(s.db, key, from, Counter(s.setter, from), value, now, marked, k);
        assert Owns(s.db, address, k) || s'.db.results[k].swapNonce < Counter(s'.setter, address);
      case TryRecycled(key, from, value, now, lifetime, marked) =>
        if RecycleReady(s.setter, from, now, lifetime) {
          AllocatedRow(s.db, key, from, s.setter.recycleNonce[Lower(from)].nonce, value, now, marked, k);
        }
        assert Owns(s.db, address, k) || s'.db.results[k].swapNonce < Counter(s'.setter, address);
      case Return(_, _, _) =>
        assert Owns(s.db, address, k);
      case Other(c) =>
        NeutralRow(s.db, c, k);
        assert s'.db.results[k].swapNonce == 0 || Owns(s.db, address, k);
    }
  }

  lemma StepKeepsRecycledBelow(s: State, st: Step, address: string)
    requires RecycledBelow(s.setter, address)
    requires st.Return? && Lower(st.sender) == Lower(address) ==> st.nonce < Counter(s.setter, address)
    ensures RecycledBelow(Do(s, st).state.setter, address)
  {
    StepRaisesCounters(s, st, address);
  }

  /** For a sender that was started up, whatever the table holds of others. */
  lemma {:induction false} BelowHolds(states: seq<State>, steps: seq<Step>, i: nat, address: string)
    requires IsParallelRun(states, steps) && StartedUp(states[0], address) && i < |states|
    ensures RowsBelow(states[i], address) && RecycledBelow(states[i].setter, address)
    decreases i
  {
    if i > 0 {
      var s, st := states[i - 1], steps[i - 1];
      BelowHolds(states, steps, i - 1, address);
      StepKeepsRowsBelow(s, st, address);
      if st.Return? && Lower(st.sender) == Lower(address) {
        assert WasRecorded(states, i - 1, st.sender, st.nonce);
        var j, k :| 0 <= j <= i - 1 && Owns(states[j].db, st.sender, k) && states[j].db.results[k].swapNonce == st.nonce;
        BelowHolds(states, steps, j, address);
        assert Owns(states[j].db, address, k);
        CountersGrow(states, steps, j, i - 1, address);
      }
      StepKeepsRecycledBelow(s, st, address);
    }
  }

  // ---------------------------------------------------------------- fresh allocations

  predicate FreshFor(s: State, st: Step, a: string) {
    st.Fresh? && Lower(st.from) == a && Do(s, st).nonce.Some?
  }

  /** How many fresh nonces of account a were handed out in steps i to j. */
  ghost function FreshCount(states: seq<State>, steps: seq<Step>, i: nat, j: nat, a: string): nat
    requires |states| == |steps| + 1 && i <= j < |states|
    decreases j
  {
    if i == j then 0
    else FreshCount(states, steps, i, j - 1, a) + if FreshFor(states[j - 1], steps[j - 1], a) then 1 else 0
  }

  /** The counter of an account moves by exactly the number of fresh nonces handed out. */
  lemma {:induction false} CounterCountsFresh(states: seq<State>, steps: seq<Step>, i: nat, j: nat, address: string)
    requires IsParallelRun(states, steps) && i <= j < |states|
    ensures Counter(states[j].setter, address) ==
            Counter(states[i].setter, address) + FreshCount(states, steps, i, j, Lower(address))
    decreases j
  {
    if i < j {
      CounterCountsFresh(states, steps, i, j - 1, address);
    }
  }

  /**
    A fresh nonce is above every nonce the table holds for its sender, and the fresh nonces of
    one sender are consecutive: between two of them lie as many hand-outs as their distance says.
   */
  lemma FreshNoncesAreConsecutive(states: seq<State>, steps: seq<Step>, i: nat, j: nat)
    requires IsParallelRun(states, steps) && i <= j < |steps|
    requires steps[i].Fresh? && steps[j].Fresh? && Lower(steps[i].from) == Lower(steps[j].from)
    requires StartedUp(states[0], steps[j].from)
    requires Do(states[i], steps[i]).nonce.Some? && Do(states[j], steps[j]).nonce.Some?
    ensures Do(states[j], steps[j]).nonce.value ==
            Do(states[i], steps[i]).nonce.value + FreshCount(states, steps, i, j, Lower(steps[i].from))
    ensures forall k :: Owns(states[j].db, steps[j].from, k) && states[j].db.results[k].swapNonce != 0 ==>
                          states[j].db.results[k].swapNonce < Do(states[j], steps[j]).nonce.value
  {
    CounterCountsFresh(states, steps, i, j, steps[i].from);
    BelowHolds(states, steps, j, steps[j].from);
  }

  /** A refused allocation changes neither the tables, nor any counter, nor any recycled nonce. */
  lemma RefusedAllocationConsumesNothing(s: State, st: Step, address: string)
    requires (st.Fresh? || st.TryRecycled?) && Do(s, st).nonce.None?
    ensures Do(s, st).state.db == s.db
    ensures Counter(Do(s, st).state.setter, address) == Counter(s.setter, address)
    ensures Do(s, st).state.setter.recycleNonce == s.setter.recycleNonce
  {
  }

  /** The row can take a nonce: it is there and carries neither nonce nor transaction. */
  predicate IsFree(db: Db, k: Key) {
    k in db.results && db.results[k].swapNonce == 0 && db.results[k].swapTx == ""
  }

  /** A fresh allocation succeeds exactly for a free row, hands out the counter and moves it on by one. */
  lemma FreshHandoutIff(s: State, st: Step)
    requires st.Fresh?
    ensures Do(s, st).nonce.Some? <==> IsFree(s.db, st.key)
    ensures IsFree(s.db, st.key) ==> Do(s, st).nonce == Some(Counter(s.setter, st.from))
    ensures IsFree(s.db, st.key) ==> Counter(Do(s, st).state.setter, st.from) == Counter(s.setter, st.from) + 1
    ensures Do(s, st).state.setter.recycleNonce == s.setter.recycleNonce
  {
  }

  /** A recycled one succeeds exactly if a nonce has waited long enough and the row is free; then none waits any more. */
  lemma RecycledHandoutIff(s: State, st: Step)
    requires st.TryRecycled?
    ensures var a := Lower(st.from);
            var ready := a in s.setter.recycleNonce && s.setter.recycleNonce[a].nonce != 0 &&
                         st.now - s.setter.recycleNonce[a].timestamp >= st.lifetime && IsFree(s.db, st.key);
            && (Do(s, st).nonce.Some? <==> ready)
            && (ready ==> Do(s, st).nonce == Some(s.setter.recycleNonce[a].nonce) &&
                          a in Do(s, st).state.setter.recycleNonce && Do(s, st).state.setter.recycleNonce[a].nonce == 0)
            && Do(s, st).state.setter.swapNonce == s.setter.swapNonce
  {
  }

  /** Either way the row records the nonce and its sender, and no other row changes. */
  lemma HandoutIsRecorded(s: State, st: Step)
    requires (st.Fresh? || st.TryRecycled?) && Do(s, st).nonce.Some?
    ensures var db' := Do(s, st).state.db;
            && st.key in db'.results && db'.results[st.key].swapNonce == Do(s, st).nonce.value
            && db'.results[st.key].mpc == st.from && db'.results[st.key].status == MatchTxNotStable
            && SameElsewhere(s.db.results, db'.results, st.key) && SameElsewhere(s.db.swaps, db'.swaps, st.key)
            && (st.marked && st.key in s.db.swaps ==> st.key in db'.swaps && db'.swaps[st.key].status == TxProcessed)
  {
  }

  // ---------------------------------------------------------------- recycled allocations

  /** Of the waiting nonce and the returned one the smaller waits from then on; zero means none waits. */
  lemma ReturnKeepsSmaller(s: State, st: Step)
    requires st.Return? && st.nonce != 0
    ensures var a := Lower(st.sender);
            var before := if a in s.setter.recycleNonce then s.setter.recycleNonce[a].nonce else 0;
            && a in Do(s, st).state.setter.recycleNonce
            && Do(s, st).state.setter.recycleNonce[a].nonce == (if before != 0 && before <= st.nonce then before else st.nonce)
            && Do(s, st).state.db == s.db && Do(s, st).state.setter.swapNonce == s.setter.swapNonce
  {
  }

  predicate RecycledFor(s: State, st: Step, a: string) {
    st.TryRecycled? && Lower(st.from) == a && Do(s, st).nonce.Some?
  }

  predicate ReturnsFor(st: Step, a: string, n: nat) {
    st.Return? && Lower(st.sender) == a && st.nonce == n
  }

  /** The waiting nonce of an account was put back by a step after the last recycled hand-out. */
  lemma {:induction false} LastReturn(states: seq<State>, steps: seq<Step>, i: nat, a: string) returns (m: nat)
    requires IsParallelRun(states, steps) && a !in states[0].setter.recycleNonce && i < |states|
    requires a in states[i].setter.recycleNonce && states[i].setter.recycleNonce[a].nonce != 0
    ensures m < i && ReturnsFor(steps[m], a, states[i].setter.recycleNonce[a].nonce)
    ensures states[i].setter.recycleNonce[a].timestamp == steps[m].now
    ensures forall p :: m < p < i ==> !RecycledFor(states[p], steps[p], a)
    decreases i
  {
    var s, st := states[i - 1], steps[i - 1];
    if ReturnsFor(st, a, states[i].setter.recycleNonce[a].nonce) && states[i].setter.recycleNonce[a].timestamp == st.now {
      m := i - 1;
    } else {
      assert !RecycledFor(s, st, a);
      m := LastReturn(states, steps, i - 1, a);
    }
  }

  /**
    A recycled hand-out gives out the nonce of an earlier return that no hand-out in between
    has used, at least the lifetime after it, and that nonce lies below the counter of fresh nonces.
   */
  lemma RecycledHandoutUsesReturn(states: seq<State>, steps: seq<Step>, j: nat, a: string) returns (m: nat)
    requires IsParallelRun(states, steps) && j < |steps| && RecycledFor(states[j], steps[j], a)
    requires StartedUp(states[0], steps[j].from)
    ensures m < j && ReturnsFor(steps[m], a, Do(states[j], steps[j]).nonce.value)
    ensures steps[j].now - steps[m].now >= steps[j].lifetime
    ensures forall p :: m < p < j ==> !RecycledFor(states[p], steps[p], a)
    ensures Do(states[j], steps[j]).nonce.value < Counter(states[j].setter, steps[j].from)
  {
    m := LastReturn(states, steps, j, a);
    BelowHolds(states, steps, j, steps[j].from);
  }

  /** Two recycled hand-outs of one sender never use the same return. */
  lemma ReturnsAreUsedOnce(states: seq<State>, steps: seq<Step>, i: nat, j: nat, a: string)
    requires IsParallelRun(states, steps) && i < j < |steps|
    requires RecycledFor(states[i], steps[i], a) && RecycledFor(states[j], steps[j], a)
    requires StartedUp(states[0], steps[j].from)
    ensures exists m :: i < m < j && ReturnsFor(steps[m], a, Do(states[j], steps[j]).nonce.value)
  {
    var m := RecycledHandoutUsesReturn(states, steps, j, a);
    assert !RecycledFor(states[m], steps[m], a);
  }

  // ---------------------------------------------------------------- start-up

  /**
    What start-up is told about one sender: the rows its query matches, which successive tries
    of that query get through, and what the node answers about the pending nonce.
   */
  datatype Init = Init(address: string, matched: set<Key>, queries: seq<bool>, answers: seq<Option<nat>>)

  /** The query returns at least the rows of the sender. */
  ghost predicate Matches(db: Db, init: Init) {
    init.matched <= db.results.Keys && forall k :: Owns(db, init.address, k) ==> k in init.matched
  }

  predicate IsAnswered(init: Init) {
    exists i :: 0 <= i < |init.queries| && i < RETRY_RPC_COUNT && init.queries[i]
  }

  /** Start-up of one sender; if the table never answers, its counter is left alone. */
  method StartUp(setter: NonceSetterBase, db: Db, init: Init)
    requires Matches(db, init) && Lower(init.address) !in setter.recycleNonce
    modifies setter`swapNonce
    ensures IsAnswered(init) ==> StartedUp(State(db, setter.View()), init.address)
    ensures !IsAnswered(init) ==> setter.View() == old(setter.View())
    ensures forall other :: Lower(other) != Lower(init.address) ==>
                              Counter(setter.View(), other) == Counter(old(setter.View()), other)
  {
    for i := 0 to RETRY_RPC_COUNT
      invariant setter.View() == old(setter.View())
      invariant forall j :: 0 <= j < i && j < |init.queries| ==> !init.queries[j]
    {
      if i < |init.queries| && init.queries[i] {
        var next := FindNextSwapNonce(db, init.matched);
        setter.InitSwapNonce(init.address, next, init.answers);
        return;
      }
    }
  }

  /** Start-up of a chain: every sender of a configured router whose table query got through is ready for a run. */
  method StartUpAll(setter: NonceSetterBase, db: Db, inits: seq<Init>)
    requires setter.recycleNonce == map[] && forall i :: 0 <= i < |inits| ==> Matches(db, inits[i])
    modifies setter`swapNonce
    ensures forall i :: 0 <= i < |inits| && IsAnswered(inits[i]) ==> StartedUp(State(db, setter.View()), inits[i].address)
  {
    for i := 0 to |inits|
      invariant setter.recycleNonce == map[]
      invariant forall j :: 0 <= j < i && IsAnswered(inits[j]) ==> StartedUp(State(db, setter.View()), inits[j].address)
    {
      ghost var before := setter.View();
      StartUp(setter, db, inits[i]);
      forall j | 0 <= j < i && IsAnswered(inits[j]) ensures StartedUp(State(db, setter.View()), inits[j].address) {
        if Lower(inits[j].address) == Lower(inits[i].address) {
          SameAccountStartedUp(State(db, if IsAnswered(inits[i]) then setter.View() else before), inits[i].address, inits[j].address);
        } else {
          CounterDecides(State(db, before), State(db, setter.View()), inits[j].address);
        }
      }
    }
  }

  /** Two spellings of one address are one account. */
  lemma SameAccountStartedUp(s: State, address: string, other: string)
    requires Lower(address) == Lower(other)
    ensures StartedUp(s, address) <==> StartedUp(s, other)
  {
    assert forall k :: Owns(s.db, address, k) <==> Owns(s.db, other, k);
  }

  lemma CounterDecides(s: State, s': State, address: string)
    requires StartedUp(s, address) && s'.db == s.db && s'.setter.recycleNonce == s.setter.recycleNonce
    requires Counter(s'.setter, address) == Counter(s.setter, address)
    ensures StartedUp(s', address)
  {
  }
}

/** Nonces in sequential mode: one payout after the other, with replacements at any moment. */
module SequentialNonces {
  import opened Nonces
  import opened Options

  /** How the node answers an attempt to send. */
  datatype SendReply = Accepted | TimedOut | Refused

  /** The counters, and for each account the nonce of the payout that is being signed, if there is one. */
  datatype Queue = Queue(setter: Setter, signing: map<string, nat>)

  /**
    A payout chooses its nonce, is signed, and is then sent or given up.  `pool` is the pending
    nonce the node reports, or none if the counter alone is used.  A replacement reuses the
    nonce of its row.  `raiseAnyway` is the option to advance the counter even if sending failed.
   */
  datatype Step =
    | Choose(sender: string, pool: Option<nat>)
    | Send(sender: string, accepted: bool, raiseAnyway: bool)
    | GiveUp(sender: string)
    | ReplaceSend(sender: string, nonce: nat, accepted: bool, raiseAnyway: bool)

  function Chosen(s: Setter, sender: string, pool: Option<nat>): nat {
    if pool.Some? then Adjusted(s, sender, pool.value) else Counter(s, sender)
  }

  /** The counters after an attempt to send. */
  function AfterSend(s: Setter, sender: string, nonce: nat, accepted: bool, raiseAnyway: bool): Setter {
    if accepted || raiseAnyway then Raised(s, sender, nonce + 1) else s
  }

  /** The payouts of one sender go one after the other: the next chooses once the last was sent or given up. */
  predicate Enabled(q: Queue, st: Step) {
    match st
    case Choose(sender, _) => Lower(sender) !in q.signing
    case Send(sender, _, _) => Lower(sender) in q.signing
    case _ => true
  }

  function Next(q: Queue, st: Step): Queue
    requires Enabled(q, st)
  {
    match st
    case Choose(sender, pool) => q.(signing := q.signing[Lower(sender) := Chosen(q.setter, sender, pool)])
    case Send(sender, accepted, raiseAnyway) =>
      Queue(AfterSend(q.setter, sender, q.signing[Lower(sender)], accepted, raiseAnyway), q.signing - {Lower(sender)})
    case GiveUp(sender) => q.(signing := q.signing - {Lower(sender)})
    case ReplaceSend(sender, nonce, accepted, raiseAnyway) =>
      q.(setter := AfterSend(q.setter, sender, nonce, accepted, raiseAnyway))
  }

  ghost predicate IsSequentialRun(states: seq<Queue>, steps: seq<Step>) {
    && |states| == |steps| + 1
    && forall i :: 0 <= i < |steps| ==> Enabled(states[i], steps[i]) && states[i + 1] == Next(states[i], steps[i])
  }

  /** The nonce a step sends with, if it sends a payout or a replacement and the node accepts it. */
  predicate SendsWith(q: Queue, st: Step, nonce: nat) {
    match st
    case Send(sender, accepted, _) => accepted && Lower(sender) in q.signing && q.signing[Lower(sender)] == nonce
    case ReplaceSend(_, n, accepted, _) => accepted && n == nonce
    case _ => false
  }

  predicate CounterIsPast(q: Queue, address: string, n: nat) {
    n < Counter(q.setter, address)
  }

  /** The counter has left a nonce behind, and so has the payout being signed. */
  predicate IsPast(q: Queue, address: string, n: nat) {
    CounterIsPast(q, address, n) && (Lower(address) in q.signing ==> n < q.signing[Lower(address)])
  }

  lemma {:induction false} StaysPast(states: seq<Queue>, steps: seq<Step>, i: nat, j: nat, address: string, n: nat)
    requires IsSequentialRun(states, steps) && i <= j < |states|
    ensures CounterIsPast(states[i], address, n) ==> CounterIsPast(states[j], address, n)
    ensures IsPast(states[i], address, n) ==> IsPast(states[j], address, n)
    decreases j
  {
    if i < j { StaysPast(states, steps, i, j - 1, address, n); }
  }

  /**
    After a successful send with some nonce, of a payout or of a replacement, every nonce chosen
    later for that sender is greater, whatever the node reports.
   */
  lemma LaterNoncesAreGreater(states: seq<Queue>, steps: seq<Step>, i: nat, j: nat, n: nat)
    requires IsSequentialRun(states, steps) && i < j < |steps|
    requires SendsWith(states[i], steps[i], n) && steps[j].Choose? && Lower(steps[i].sender) == Lower(steps[j].sender)
    ensures n < Chosen(states[j].setter, steps[j].sender, steps[j].pool)
  {
    StaysPast(states, steps, i + 1, j, steps[j].sender, n);
  }

  /**
    The counter decides unless the node plausibly reports more: a chosen nonce is never below a
    plausible report, and an implausible one is disregarded.
   */
  lemma PlausibleReportIsHonoured(states: seq<Queue>, steps: seq<Step>, i: nat)
    requires IsSequentialRun(states, steps) && i < |steps| && steps[i].Choose?
    ensures var c, a := Counter(states[i].setter, steps[i].sender), Lower(steps[i].sender);
            && a in states[i + 1].signing && states[i + 1].signing[a] >= c
            && (steps[i].pool.None? ==> states[i + 1].signing[a] == c)
            && (steps[i].pool.Some? && steps[i].pool.value <= 2 * c + 1000 ==>
                  states[i + 1].signing[a] == if c < steps[i].pool.value then steps[i].pool.value else c)
            && (steps[i].pool.Some? && steps[i].pool.value > 2 * c + 1000 ==> states[i + 1].signing[a] == c)
  {
  }

  /**
    Two payouts of one sender that were sent successfully never share a nonce, whatever was
    replaced while they were signed; the later one has the greater.
   */
  lemma FreshSendsNeverShareNonce(states: seq<Queue>, steps: seq<Step>, i: nat, j: nat, m: nat, n: nat)
    requires IsSequentialRun(states, steps) && i < j < |steps|
    requires steps[i].Send? && steps[j].Send? && Lower(steps[i].sender) == Lower(steps[j].sender)
    requires SendsWith(states[i], steps[i], m) && SendsWith(states[j], steps[j], n)
    ensures m < n
  {
    assert IsPast(states[i + 1], steps[j].sender, m);
    StaysPast(states, steps, i + 1, j, steps[j].sender, m);
  }

  /** Chooses the sequence number of a fresh payout; gives up if the node never answers. */
  method GetSeq(setter: NonceSetterBase, sender: string, auto: bool, answers: seq<Option<nat>>) returns (nonce: Option<nat>)
    ensures auto ==> nonce == Some(Chosen(setter.View(), sender, None))
    ensures !auto ==> var a := FirstAnswer(answers, RETRY_RPC_COUNT);
                      nonce == if a.Some? then Some(Chosen(setter.View(), sender, a)) else None
  {
    if auto {
      var n := setter.GetSwapNonce(sender);
      return Some(n);
    }
    var i := 0;
    while i < RETRY_RPC_COUNT && i < |answers|
      invariant 0 <= i <= RETRY_RPC_COUNT && i <= |answers|
      invariant FirstAnswer(answers, RETRY_RPC_COUNT) == FirstAnswer(answers[i..], RETRY_RPC_COUNT - i)
    {
      assert answers[i..][1..] == answers[i + 1..];
      if answers[i].Some? {
        var n := setter.AdjustNonce(sender, answers[i].value);
        return Some(n);
      }
      i := i + 1;
    }
    nonce := None;
  }

  /** Sends with retries; afterwards the counter is raised exactly as a step of a run says. */
  method SendSignedTransaction(setter: NonceSetterBase, sender: string, nonce: nat,
                               reply: nat -> SendReply, loops: nat, raiseAnyway: bool)
    returns (accepted: bool, tries: nat)
    modifies setter
    ensures setter.View() == AfterSend(old(setter.View()), sender, nonce, accepted, raiseAnyway)
    ensures var before, after := Counter(old(setter.View()), sender), Counter(setter.View(), sender);
            after == if (accepted || raiseAnyway) && before <= nonce then nonce + 1 else before
    ensures tries <= 3 * loops
    ensures accepted ==> tries > 0 && reply(tries - 1) == Accepted
    ensures forall t :: 0 <= t < tries - (if accepted then 1 else 0) ==> reply(t) != Accepted
  {
    accepted, tries := false, 0;
    var loop := 0;
    while loop < loops && !accepted
      invariant loop <= loops && tries <= 3 * loop
      invariant accepted ==> tries > 0 && reply(tries - 1) == Accepted
      invariant forall t :: 0 <= t < tries - (if accepted then 1 else 0) ==> reply(t) != Accepted
      invariant setter.View() == old(setter.View())
    {
      var i := 0;
      while i < 3 && !accepted
        invariant i <= 3 && tries <= 3 * loop + i
        invariant accepted ==> tries > 0 && reply(tries - 1) == Accepted
        invariant forall t :: 0 <= t < tries - (if accepted then 1 else 0) ==> reply(t) != Accepted
        invariant setter.View() == old(setter.View())
        invariant i > 0 ==> tries > 0
      {
        accepted := reply(tries) == Accepted;
        tries := tries + 1;
        i := i + 1;
      }
      loop := loop + 1;
      if !accepted && (reply(tries - 1) != TimedOut || loop == loops) {
        break;
      }
    }
    if raiseAnyway {
      setter.SetNonce(sender, nonce + 1);
    }
    if accepted && !raiseAnyway {
      setter.SetNonce(sender, nonce + 1);
    }
  }
}
