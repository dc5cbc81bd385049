/**
  The nonce bookkeeping of a destination chain: a counter per sender, used sequentially or
  by parallel allocation, and one recycled nonce per sender.
 */
module Nonces {
  import opened Ledger
  import opened Store
  import opened Options

  const RETRY_RPC_COUNT := 3

  datatype Recycled = Recycled(nonce: nat, timestamp: int)

  /** Both maps are keyed by the lower-case address of the sender. */
  datatype Setter = Setter(swapNonce: map<string, nat>, recycleNonce: map<string, Recycled>)

  function LowerChar(c: char): char {
    if 'A' <= c <= 'Z' then c - 'A' + 'a' else c
  }

  function Lower(s: string): string {
    seq(|s|, i requires 0 <= i < |s| => LowerChar(s[i]))
  }

  function Counter(s: Setter, address: string): nat {
    if Lower(address) in s.swapNonce then s.swapNonce[Lower(address)] else 0
  }

  function Max(a: nat, b: nat): nat { if a < b then b else a }

  /** The nonce for the next transaction, given what the node reports. */
  function Adjusted(s: Setter, address: string, value: nat): nat {
    if value > 2 * Counter(s, address) + 1000 then Counter(s, address) else Max(Counter(s, address), value)
  }

  function Raised(s: Setter, address: string, value: nat): Setter {
    s.(swapNonce := s.swapNonce[Lower(address) := Max(Counter(s, address), value)])
  }

  /** What the first answer among the permitted tries reports, if any. */
  function FirstAnswer(answers: seq<Option<nat>>, tries: nat): Option<nat> {
    if tries == 0 || answers == [] then None
    else if answers[0].Some? then answers[0]
    else FirstAnswer(answers[1..], tries - 1)
  }

  /** It is an answer within the tries that no earlier one preceded; there is none only if all of these failed. */
  lemma {:induction false} FirstAnswerIsFirst(answers: seq<Option<nat>>, tries: nat)
    ensures match FirstAnswer(answers, tries)
            case Some(v) => exists i :: 0 <= i < tries && i < |answers| && answers[i] == Some(v) && forall j :: 0 <= j < i ==> answers[j] == None
            case None => forall i :: 0 <= i < tries && i < |answers| ==> answers[i] == None
    decreases tries
  {
    if tries > 0 && answers != [] && answers[0].None? {
      FirstAnswerIsFirst(answers[1..], tries - 1);
      match FirstAnswer(answers, tries) {
        case Some(v) =>
          var i :| 0 <= i < tries - 1 && i < |answers[1..]| && answers[1..][i] == Some(v) && forall j :: 0 <= j < i ==> answers[1..][j] == None;
          assert answers[i + 1] == Some(v);
          forall j | 0 <= j < i + 1 ensures answers[j] == None { if j > 0 { assert answers[1..][j - 1] == None; } }
        case None =>
          forall i | 0 <= i < tries && i < |answers| ensures answers[i] == None { if i > 0 { assert answers[1..][i - 1] == None; } }
      }
    }
  }

  /** Letters lose their case and nothing else changes, so two spellings of one address are one account. */
  lemma LowerIsCaseOnly(s: string)
    ensures |Lower(s)| == |s|
    ensures forall i :: 0 <= i < |s| ==> if 'A' <= s[i] <= 'Z' then Lower(s)[i] as int == s[i] as int + 32 else Lower(s)[i] == s[i]
    ensures Lower(Lower(s)) == Lower(s)
  {
  }

  // ---------------------------------------------------------------- parallel allocation as atomic steps

  datatype State = State(db: Db, setter: Setter)

  datatype Handout = Handout(state: State, nonce: Option<nat>)

  function AllocateFresh(s: State, k: Key, from: string, value: string, now: int, marked: bool): Handout {
    var n := Counter(s.setter, from);
    var reply := Apply(s.db, AllocateNonce(k, from, n, value, now, marked));
    if reply.err == NoError then
      Handout(State(reply.db, s.setter.(swapNonce := s.setter.swapNonce[Lower(from) := n + 1])), Some(n))
    else
      Handout(s.(setter := s.setter.(swapNonce := s.setter.swapNonce[Lower(from) := n])), None)
  }

  predicate RecycleReady(s: Setter, from: string, now: int, lifetime: int) {
    var a := Lower(from);
    a in s.recycleNonce && now - s.recycleNonce[a].timestamp >= lifetime && s.recycleNonce[a].nonce != 0
  }

  function AllocateRecycled(s: State, k: Key, from: string, value: string, now: int, lifetime: int, marked: bool): Handout {
    if !RecycleReady(s.setter, from, now, lifetime) then Handout(s, None)
    else
      var rec := s.setter.recycleNonce[Lower(from)];
      var reply := Apply(s.db, AllocateNonce(k, from, rec.nonce, value, now, marked));
      if reply.err == NoError then
        Handout(State(reply.db, s.setter.(recycleNonce := s.setter.recycleNonce[Lower(from) := rec.(nonce := 0)])),
                Some(rec.nonce))
      else Handout(s, None)
  }

  /** A nonce is put back unless a smaller one already waits. */
  predicate StoresRecycled(s: Setter, sender: string, nonce: nat) {
    var a := Lower(sender);
    a !in s.recycleNonce || s.recycleNonce[a].nonce == 0 || nonce < s.recycleNonce[a].nonce
  }

  function PutBack(s: Setter, sender: string, nonce: nat, now: int): Setter {
    if StoresRecycled(s, sender, nonce) then
      s.(recycleNonce := s.recycleNonce[Lower(sender) := Recycled(nonce, now)])
    else s
  }

  // ---------------------------------------------------------------- start-up

  /** The rows that belong to a sender, up to letter case. */
  ghost predicate Owns(db: Db, address: string, k: Key) {
    k in db.results && Lower(db.results[k].mpc) == Lower(address)
  }

  /** One more than the largest nonce of the matched rows, zero if there are none. */
  method FindNextSwapNonce(db: Db, matched: set<Key>) returns (next: nat)
    requires matched <= db.results.Keys
    ensures forall k :: k in matched ==> db.results[k].swapNonce < next
    ensures matched == {} ==> next == 0
    ensures matched != {} ==> exists k :: k in matched && db.results[k].swapNonce + 1 == next
  {
    next := 0;
    var rest := matched;
    while rest != {}
      invariant rest <= matched
      invariant forall k :: k in matched && k !in rest ==> db.results[k].swapNonce < next
      invariant rest == matched ==> next == 0
      invariant rest != matched ==> exists k :: k in matched && db.results[k].swapNonce + 1 == next
      decreases |rest|
    {
      var k :| k in rest;
      rest := rest - {k};
      if db.results[k].swapNonce + 1 > next {
        next := db.results[k].swapNonce + 1;
      }
    }
  }

  class NonceSetterBase {
    var swapNonce: map<string, nat>
    var recycleNonce: map<string, Recycled>
    const store: SwapStore

    function View(): Setter
      reads this
    {
      Setter(swapNonce, recycleNonce)
    }

    function Whole(): State
      reads this, store
    {
      State(store.Tables(), View())
    }

    constructor (store: SwapStore)
      ensures View() == Setter(map[], map[]) && this.store == store
    {
      this.swapNonce, this.recycleNonce, this.store := map[], map[], store;
    }

    method GetSwapNonce(address: string) returns (nonce: nat)
      ensures nonce == Counter(View(), address)
      ensures Lower(address) in swapNonce ==> nonce == swapNonce[Lower(address)]
      ensures Lower(address) !in swapNonce ==> nonce == 0
    {
      var account := Lower(address);
      if account in swapNonce {
        return swapNonce[account];
      }
      nonce := 0;
    }

    method AdjustNonce(address: string, value: nat) returns (nonce: nat)
      ensures nonce == Adjusted(View(), address, value)
      ensures var c := Counter(View(), address);
              && (nonce == c || nonce == value) && nonce >= c
              && (value <= 2 * c + 1000 ==> nonce >= value)
              && (value > 2 * c + 1000 ==> nonce == c)
    {
      var account := Lower(address);
      var present := 0;
      if account in swapNonce {
        present := swapNonce[account];
      }
      if present > value {
        nonce := present;
      } else {
        nonce := value;
      }
      if value > 2 * present + 1000 {
        return present;
      }
    }

    /** `answers` are the replies to successive queries of the pending nonce. */
    method InitSwapNonce(address: string, dbNonce: nat, answers: seq<Option<nat>>)
      modifies this`swapNonce
      ensures swapNonce == old(swapNonce)[Lower(address) :=
                var a := FirstAnswer(answers, RETRY_RPC_COUNT); if a.Some? then Max(dbNonce, a.value) else dbNonce]
    {
      var nonce := dbNonce;
      var i := 0;
      while i < RETRY_RPC_COUNT && i < |answers|
        invariant 0 <= i <= RETRY_RPC_COUNT && i <= |answers|
        invariant FirstAnswer(answers, RETRY_RPC_COUNT) == FirstAnswer(answers[i..], RETRY_RPC_COUNT - i)
        invariant nonce == dbNonce
      {
        assert answers[i..][1..] == answers[i + 1..];
        if answers[i].Some? {
          if answers[i].value > nonce {
            nonce := answers[i].value;
          }
          break;
        }
        i := i + 1;
      }
      swapNonce := swapNonce[Lower(address) := nonce];
    }

    method SetNonce(address: string, value: nat)
      modifies this`swapNonce
      ensures View() == Raised(old(View()), address, value)
      ensures Counter(View(), address) >= value && Counter(View(), address) >= Counter(old(View()), address)
      ensures Counter(View(), address) in {value, Counter(old(View()), address)}
      ensures forall other :: Lower(other) != Lower(address) ==> Counter(View(), other) == Counter(old(View()), other)
    {
      var account := Lower(address);
      if account in swapNonce {
        if swapNonce[account] < value {
          swapNonce := swapNonce[account := value];
        }
      } else {
        swapNonce := swapNonce[account := value];
      }
      assert swapNonce == Raised(old(View()), address, value).swapNonce;
    }

    method TryAllocateRecycleNonce(k: Key, from: string, value: string, now: int, lifetime: int, marked: bool)
      returns (nonce: Option<nat>)
      modifies this, store
      ensures Handout(Whole(), nonce) == AllocateRecycled(old(Whole()), k, from, value, now, lifetime, marked)
    {
      var account := Lower(from);
      if account !in recycleNonce || now - recycleNonce[account].timestamp < lifetime {
        return None;
      }
      var rec := recycleNonce[account];
      var n, err, left := store.AllocateRouterSwapNonce(k, from, value, rec.nonce, true, now, marked);
      recycleNonce := recycleNonce[account := rec.(nonce := left)];
      if err != NoError {
        assert recycleNonce == old(recycleNonce);
        return None;
      }
      nonce := Some(n);
    }

    method AllocateNonce(k: Key, from: string, value: string, now: int, lifetime: int, marked: bool)
      returns (nonce: Option<nat>)
      modifies this, store
      ensures var first := AllocateRecycled(old(Whole()), k, from, value, now, lifetime, marked);
              Handout(Whole(), nonce) == if first.nonce.Some? then first else AllocateFresh(first.state, k, from, value, now, marked)
    {
      nonce := TryAllocateRecycleNonce(k, from, value, now, lifetime, marked);
      if nonce.Some? {
        return;
      }
      var account := Lower(from);
      var ptr := 0;
      if account in swapNonce {
        ptr := swapNonce[account];
      }
      var n, err, left := store.AllocateRouterSwapNonce(k, from, value, ptr, false, now, marked);
      swapNonce := swapNonce[account := left];
      if err != NoError {
        return None;
      }
      nonce := Some(n);
    }

    method RecycleSwapNonce(sender: string, nonce: nat, now: int)
      modifies this`recycleNonce
      ensures View() == PutBack(old(View()), sender, nonce, now)
      ensures var a := Lower(sender);
              if a in old(recycleNonce) && 0 < old(recycleNonce[a]).nonce <= nonce then recycleNonce == old(recycleNonce)
              else recycleNonce == old(recycleNonce)[a := Recycled(nonce, now)]
    {
      var account := Lower(sender);
      if account !in recycleNonce {
        recycleNonce := recycleNonce[account := Recycled(nonce, now)];
      } else if recycleNonce[account].nonce == 0 || nonce < recycleNonce[account].nonce {
        recycleNonce := recycleNonce[account := Recycled(nonce, now)];
      }
    }
  }
}
