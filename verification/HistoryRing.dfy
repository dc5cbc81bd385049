/**
  The history of recent swaps: a circular doubly linked list whose entry point is the oldest
  item, bounded by dropping the oldest one before a new one is linked in.
 */
module HistoryRing {
  import opened Options

  datatype SwapInfo = SwapInfo(chainID: string, txid: string, logIndex: int, matchTx: string)

  predicate Matches(x: SwapInfo, chainID: string, txid: string, logIndex: int) {
    x.txid == txid && x.chainID == chainID && x.logIndex == logIndex
  }

  /** Item `i` matches, and nothing seen before it does: the oldest item is seen first, then the newest, and so on back. */
  predicate IsFirstSeen(c: seq<SwapInfo>, i: nat, chainID: string, txid: string, logIndex: int)
    requires i < |c|
  {
    && Matches(c[i], chainID, txid, logIndex)
    && (i == 0 || !Matches(c[0], chainID, txid, logIndex))
    && forall j :: 0 < i < j < |c| ==> !Matches(c[j], chainID, txid, logIndex)
  }

  // ---------------------------------------------------------------- the bounded queue

  /** One addition; with a capacity below two the drop removes nothing. */
  function Added(capacity: nat, c: seq<SwapInfo>, x: SwapInfo): seq<SwapInfo> {
    if |c| == capacity >= 2 then c[1..] + [x] else c + [x]
  }

  function AddedAll(capacity: nat, xs: seq<SwapInfo>): seq<SwapInfo> {
    if xs == [] then [] else Added(capacity, AddedAll(capacity, xs[..|xs| - 1]), xs[|xs| - 1])
  }

  function Last(xs: seq<SwapInfo>, n: nat): seq<SwapInfo> {
    if |xs| <= n then xs else xs[|xs| - n..]
  }

  lemma LastStep(capacity: nat, xs: seq<SwapInfo>, x: SwapInfo)
    ensures capacity >= 2 ==> Added(capacity, Last(xs, capacity), x) == Last(xs + [x], capacity)
    ensures capacity < 2 ==> Added(capacity, xs, x) == xs + [x]
  {
    if capacity >= 2 {
      if |xs| > capacity { assert xs[|xs| - capacity..][1..] == xs[|xs| + 1 - capacity..]; }
      if |xs| >= capacity { assert xs[|xs| + 1 - capacity..] + [x] == (xs + [x])[|xs| + 1 - capacity..]; }
    }
  }

  /** After any additions the ring holds the last ones in order, up to its capacity. */
  lemma {:induction false} HoldsTheLast(capacity: nat, xs: seq<SwapInfo>)
    ensures AddedAll(capacity, xs) == if capacity >= 2 then Last(xs, capacity) else xs
  {
    if xs != [] {
      HoldsTheLast(capacity, xs[..|xs| - 1]);
      LastStep(capacity, xs[..|xs| - 1], xs[|xs| - 1]);
      assert xs[..|xs| - 1] + [xs[|xs| - 1]] == xs;
    }
  }

  /** So the bound holds on every history exactly from capacity two on. */
  lemma BoundedIff(capacity: nat)
    ensures capacity >= 2 <==> forall xs {:trigger AddedAll(capacity, xs)} :: |AddedAll(capacity, xs)| <= capacity
  {
    forall xs ensures AddedAll(capacity, xs) == if capacity >= 2 then Last(xs, capacity) else xs {
      HoldsTheLast(capacity, xs);
    }
    if capacity < 2 {
      var x := SwapInfo("", "", 0, "");
      assert |AddedAll(capacity, [x, x])| == 2;
    }
  }

  // ---------------------------------------------------------------- the linked ring

  class Node {
    var next: Node?
    var prev: Node?
    const value: SwapInfo

    constructor (value: SwapInfo)
      ensures next == this && prev == this && this.value == value
    {
      this.value := value;
      new;
      next, prev := this, this;
    }

    /** Connects this element with `s`; applied within one ring it cuts out what lies between. */
    method Link(s: Node)
      requires next != null && s.prev != null
      modifies this`next, s`prev, next`prev, s.prev`next
      ensures old(s.prev).next == old(next) && old(next).prev == old(s.prev)
      ensures old(next) != s ==> s.prev == this
      ensures old(s.prev) != this ==> next == s
    {
      var n, p := next, s.prev;
      next := s;
      s.prev := this;
      n.prev := p;
      p.next := n;
    }
  }

  /** The nodes in this order form one ring. */
  ghost predicate Ring(nodes: seq<Node>)
    reads nodes
  {
    && |nodes| > 0
    && (forall i, j :: 0 <= i < j < |nodes| ==> nodes[i] != nodes[j])
    && (forall i :: 0 <= i < |nodes| - 1 ==> nodes[i].next == nodes[i + 1])
    && (forall i :: 1 <= i < |nodes| ==> nodes[i].prev == nodes[i - 1])
    && nodes[|nodes| - 1].next == nodes[0]
    && nodes[0].prev == nodes[|nodes| - 1]
  }

  method Len(r: Node, ghost nodes: seq<Node>) returns (n: nat)
    requires Ring(nodes) && r in nodes
    ensures n == |nodes|
  {
    ghost var at: nat :| at < |nodes| && nodes[at] == r;
    ghost var k: nat := if at + 1 == |nodes| then 0 else at + 1;
    n := 1;
    var p := r.next;
    while p != r
      invariant k < |nodes| && p == nodes[k]
      invariant n == if k <= at then |nodes| - at + k else k - at
      decreases if p == r then 0 else if k < at then at - k else |nodes| - k + at
    {
      k := if k + 1 == |nodes| then 0 else k + 1;
      n := n + 1;
      p := p.next;
    }
  }

  class History {
    const swapRingMaxSize: nat
    var swapRing: Node?
    ghost var nodes: seq<Node>
    ghost var contents: seq<SwapInfo>

    ghost predicate Valid()
      reads this, nodes
    {
      && |contents| == |nodes|
      && (forall i :: 0 <= i < |nodes| ==> nodes[i].value == contents[i])
      && (if swapRing == null then nodes == [] else Ring(nodes) && swapRing == nodes[0])
    }

    constructor (swapRingMaxSize: nat)
      ensures Valid() && contents == [] && this.swapRingMaxSize == swapRingMaxSize
    {
      this.swapRingMaxSize, swapRing, nodes, contents := swapRingMaxSize, null, [], [];
    }

    /** Move to the newest, unlink its successor, move on to the new oldest. */
    method DropOldest()
      requires Valid() && swapRing != null
      modifies this, nodes
      ensures Valid() && swapRing != null
      ensures nodes == if |old(nodes)| >= 2 then old(nodes[1..]) else old(nodes)
      ensures contents == if |old(nodes)| >= 2 then old(contents[1..]) else old(contents)
    {
      swapRing := swapRing.prev;
      assert swapRing.next == nodes[0];
      assert nodes[0].next == nodes[if |nodes| == 1 then 0 else 1];
      swapRing.Link(swapRing.next.next);
      swapRing := swapRing.next;
      if |nodes| >= 2 {
        nodes, contents := nodes[1..], contents[1..];
      }
    }

    method LinkNewest(item: Node)
      requires Valid() && swapRing != null && item.next == item == item.prev && item !in nodes
      modifies this, nodes, item
      ensures Valid()
      ensures nodes == old(nodes) + [item] && contents == old(contents) + [item.value]
    {
      swapRing.prev.Link(item);
      nodes, contents := nodes + [item], contents + [item.value];
    }

    method AddSwapHistory(chainID: string, txid: string, logIndex: int, matchTx: string)
      requires Valid()
      modifies this, nodes
      ensures Valid()
      ensures contents == Added(swapRingMaxSize, old(contents), SwapInfo(chainID, txid, logIndex, matchTx))
      ensures forall n :: n in nodes ==> n in old(nodes) || fresh(n)
    {
      var item := new Node(SwapInfo(chainID, txid, logIndex, matchTx));
      if swapRing == null {
        swapRing, nodes, contents := item, [item], [item.value];
      } else {
        var n := Len(swapRing, nodes);
        if n == swapRingMaxSize { DropOldest(); }
        LinkNewest(item);
      }
    }

    /** Looks at the oldest item first and then from the newest backwards. */
    method GetSwapHistory(chainID: string, txid: string, logIndex: int) returns (r: Option<SwapInfo>)
      requires Valid()
      ensures r == None <==> forall x :: x in contents ==> !Matches(x, chainID, txid, logIndex)
      ensures r.Some? ==> exists i :: 0 <= i < |contents| && contents[i] == r.value && IsFirstSeen(contents, i, chainID, txid, logIndex)
      ensures r.Some? ==> r.value == SwapInfo(chainID, txid, logIndex, r.value.matchTx)
      ensures r.None? ==> forall tx :: SwapInfo(chainID, txid, logIndex, tx) !in contents
    {
      if swapRing == null { return None; }
      var p := swapRing;
      var i := 0;
      var n := Len(p, nodes);
      while i < n
        invariant 0 <= i <= n == |nodes|
        invariant p == if i == 0 then nodes[0] else nodes[n - i]
        invariant i > 0 ==> !Matches(contents[0], chainID, txid, logIndex)
        invariant forall j :: n - i < j < n ==> !Matches(contents[j], chainID, txid, logIndex)
      {
        if Matches(p.value, chainID, txid, logIndex) {
          assert IsFirstSeen(contents, if i == 0 then 0 else n - i, chainID, txid, logIndex);
          return Some(p.value);
        }
        p := p.prev;
        i := i + 1;
      }
      r := None;
    }
  }
}
