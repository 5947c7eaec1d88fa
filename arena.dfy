/**
 * The nodes of the order book's two doubly linked lists (LinkedNode.ts), kept
 * in an arena: a node is a record in `nodes` and a reference to it is its
 * position there. The ghost lists of positions give the order the `next`
 * pointers visit; the lemmas here show that the pointer writes of a splice or
 * an unlink keep the two lists linked.
 */
module Arena {
  import opened Types
  import opened BookModel

  /** `LinkedNode`: an order with the positions of its neighbours. */
  datatype Node = Node(data: Order, previous: Option<nat>, next: Option<nat>)

  function Datas(nodes: seq<Node>): seq<Order>
  {
    seq(|nodes|, i requires 0 <= i < |nodes| => nodes[i].data)
  }

  /** The neighbour after position `i` of `l`, if any. */
  function NextOf(l: seq<nat>, i: int): Option<nat> { if 0 <= i && i + 1 < |l| then Some(l[i + 1]) else None }

  /** The neighbour before position `i` of `l`, if any. */
  function PrevOf(l: seq<nat>, i: int): Option<nat> { if 0 < i <= |l| then Some(l[i - 1]) else None }

  /** Following `next` from `head` visits exactly `l`, and `previous` walks it back. */
  ghost predicate Linked(nodes: seq<Node>, head: Option<nat>, l: seq<nat>)
  {
    && (if l == [] then head.None? else head == Some(l[0]))
    && (forall i | 0 <= i < |l| :: l[i] < |nodes|)
    && (forall i {:trigger nodes[l[i]]} | 0 <= i < |l| ::
          nodes[l[i]].next == NextOf(l, i) && nodes[l[i]].previous == PrevOf(l, i))
  }

  ghost predicate PtrInRange(p: Option<nat>, size: nat) { p.None? || p.value < size }

  ghost predicate PointersInRange(nodes: seq<Node>)
  {
    forall x | 0 <= x < |nodes| :: PtrInRange(nodes[x].previous, |nodes|) && PtrInRange(nodes[x].next, |nodes|)
  }

  ghost predicate Off(p: Option<nat>, asks: seq<nat>, bids: seq<nat>)
  {
    p.None? || (p.value !in asks && p.value !in bids)
  }

  /**
   * An indexed node on neither list (left behind by a setter or by `add` on an
   * empty side) points only at nodes on neither list, so deleting it cannot
   * touch a list.
   */
  ghost predicate OffListClosed(nodes: seq<Node>, index: map<string, nat>, asks: seq<nat>, bids: seq<nat>)
  {
    forall id | id in index && index[id] < |nodes| && index[id] !in asks && index[id] !in bids ::
      Off(nodes[index[id]].previous, asks, bids) && Off(nodes[index[id]].next, asks, bids)
  }

  lemma DatasSame(a: seq<Node>, b: seq<Node>)
    requires |a| == |b| && forall i | 0 <= i < |a| :: a[i].data == b[i].data
    ensures Datas(a) == Datas(b)
  {
  }

  lemma LinkedFrame(nodes: seq<Node>, nodes': seq<Node>, head: Option<nat>, l: seq<nat>)
    requires Linked(nodes, head, l) && |nodes| <= |nodes'|
    requires forall i | 0 <= i < |l| :: nodes'[l[i]].next == nodes[l[i]].next && nodes'[l[i]].previous == nodes[l[i]].previous
    ensures Linked(nodes', head, l)
  {
  }

  /** Writing the four pointers of a splice at position `k` links the spliced list. */
  lemma SpliceLinked(nodes: seq<Node>, nodes': seq<Node>, head: Option<nat>, head': Option<nat>, l: seq<nat>, k: nat, n: nat)
    requires Linked(nodes, head, l) && k <= |l| && n < |nodes| == |nodes'|
    requires forall i | 0 <= i < |l| && i != k - 1 && i != k :: nodes'[l[i]] == nodes[l[i]]
    requires nodes'[n].previous == (if k > 0 then Some(l[k - 1]) else None)
    requires nodes'[n].next == (if k < |l| then Some(l[k]) else None)
    requires k > 0 ==> nodes'[l[k - 1]].previous == nodes[l[k - 1]].previous && nodes'[l[k - 1]].next == Some(n)
    requires k < |l| ==> nodes'[l[k]].next == nodes[l[k]].next && nodes'[l[k]].previous == Some(n)
    requires head' == if k == 0 then Some(n) else head
    ensures Linked(nodes', head', l[..k] + [n] + l[k..])
  {
    var l' := l[..k] + [n] + l[k..];
    forall i | 0 <= i < |l'|
      ensures l'[i] < |nodes'| && nodes'[l'[i]].next == NextOf(l', i) && nodes'[l'[i]].previous == PrevOf(l', i)
    {
      SpliceLinkedAt(nodes, nodes', head, l, l', k, n, i);
    }
  }

  lemma SpliceLinkedAt(nodes: seq<Node>, nodes': seq<Node>, head: Option<nat>, l: seq<nat>, l': seq<nat>, k: nat, n: nat, i: nat)
    requires Linked(nodes, head, l) && k <= |l| && n < |nodes| == |nodes'| && i <= |l| && l' == l[..k] + [n] + l[k..]
    requires forall i | 0 <= i < |l| && i != k - 1 && i != k :: nodes'[l[i]] == nodes[l[i]]
    requires nodes'[n].previous == (if k > 0 then Some(l[k - 1]) else None)
    requires nodes'[n].next == (if k < |l| then Some(l[k]) else None)
    requires k > 0 ==> nodes'[l[k - 1]].previous == nodes[l[k - 1]].previous && nodes'[l[k - 1]].next == Some(n)
    requires k < |l| ==> nodes'[l[k]].next == nodes[l[k]].next && nodes'[l[k]].previous == Some(n)
    ensures l'[i] < |nodes'| && nodes'[l'[i]].next == NextOf(l', i) && nodes'[l'[i]].previous == PrevOf(l', i)
  {
    if i < k {
      assert l'[i] == l[i] && nodes[l[i]].next == NextOf(l, i) && nodes[l[i]].previous == PrevOf(l, i);
      if i + 1 < k { assert l'[i + 1] == l[i + 1]; }
      if i > 0 { assert l'[i - 1] == l[i - 1]; }
    } else if i == k {
      assert l'[i] == n;
      if k < |l| { assert l'[k + 1] == l[k]; }
      if k > 0 { assert l'[k - 1] == l[k - 1]; }
    } else {
      assert l'[i] == l[i - 1] && nodes[l[i - 1]].next == NextOf(l, i - 1) && nodes[l[i - 1]].previous == PrevOf(l, i - 1);
      if i + 1 < |l'| { assert l'[i + 1] == l[i]; }
      if i - 1 > k { assert l'[i - 1] == l[i - 2]; }
    }
  }

  /** The pointer structure of the book: both lists linked from their heads, every pointer in the arena. */
  ghost predicate ArenaOk(nodes: seq<Node>, askHead: Option<nat>, bidHead: Option<nat>,
                          asks: seq<nat>, bids: seq<nat>, index: map<string, nat>)
  {
    && Linked(nodes, askHead, asks) && Linked(nodes, bidHead, bids)
    && PointersInRange(nodes)
    && OffListClosed(nodes, index, asks, bids)
  }

  /** A node allocated but not yet linked or pointed at. */
  ghost predicate Loose(nodes: seq<Node>, asks: seq<nat>, bids: seq<nat>, n: nat)
  {
    && n < |nodes| && nodes[n].previous.None? && nodes[n].next.None?
    && n !in asks && n !in bids
    && (forall y | 0 <= y < |nodes| :: nodes[y].previous != Some(n) && nodes[y].next != Some(n))
  }

  /** Node by node, the writes that splice the loose node `n` in between `left` and `right`. */
  ghost predicate SplicedAt(nodes0: seq<Node>, nodes: seq<Node>, left: Option<nat>, right: Option<nat>, n: nat)
  {
    && |nodes| == |nodes0|
    && (forall x | 0 <= x < |nodes| ::
          nodes[x] == if x == n then nodes0[x].(previous := left, next := right)
                      else if Some(x) == left then nodes0[x].(next := Some(n))
                      else if Some(x) == right then nodes0[x].(previous := Some(n))
                      else nodes0[x])
  }

  /** The neighbour at position `k` of `l`, if any. */
  function At(l: seq<nat>, k: int): Option<nat> { if 0 <= k < |l| then Some(l[k]) else None }

  /**
   * Splicing a loose node in at position `k` of one side keeps the pointer
   * structure, with that side's list spliced and its head moved when `k` is 0.
   */
  lemma SpliceArena(nodes0: seq<Node>, nodes: seq<Node>, index: map<string, nat>, side: Side, k: nat, n: nat,
                    askHead0: Option<nat>, bidHead0: Option<nat>, asks0: seq<nat>, bids0: seq<nat>,
                    askHead: Option<nat>, bidHead: Option<nat>, asks: seq<nat>, bids: seq<nat>)
    requires ArenaOk(nodes0, askHead0, bidHead0, asks0, bids0, index)
    requires Distinct(asks0) && Distinct(bids0) && forall x | x in asks0 :: x !in bids0
    requires Loose(nodes0, asks0, bids0, n)
    requires var l := if side == Ask then asks0 else bids0;
             k <= |l| && SplicedAt(nodes0, nodes, PrevOf(l, k), At(l, k), n)
    requires asks == if side == Ask then asks0[..k] + [n] + asks0[k..] else asks0
    requires bids == if side == Bid then bids0[..k] + [n] + bids0[k..] else bids0
    requires askHead == if side == Ask && k == 0 then Some(n) else askHead0
    requires bidHead == if side == Bid && k == 0 then Some(n) else bidHead0
    ensures ArenaOk(nodes, askHead, bidHead, asks, bids, index)
    ensures forall x | 0 <= x < |nodes| :: nodes[x].data == nodes0[x].data
  {
    if side == Ask {
      SpliceOneSide(nodes0, nodes, askHead0, askHead, bidHead0, asks0, bids0, k, n);
      SpliceClosed(nodes0, nodes, index, asks0, bids0, asks, bids, asks0, k, n);
    } else {
      SpliceOneSide(nodes0, nodes, bidHead0, bidHead, askHead0, bids0, asks0, k, n);
      SpliceClosed(nodes0, nodes, index, asks0, bids0, asks, bids, bids0, k, n);
    }
  }

  /** The list `l` gets the node spliced in, the list `other` keeps its pointers, all pointers stay in the arena. */
  lemma SpliceOneSide(nodes0: seq<Node>, nodes: seq<Node>, head0: Option<nat>, head: Option<nat>, otherHead: Option<nat>,
                      l: seq<nat>, other: seq<nat>, k: nat, n: nat)
    requires Linked(nodes0, head0, l) && Linked(nodes0, otherHead, other) && PointersInRange(nodes0)
    requires Distinct(l) && forall x | x in l :: x !in other
    requires n < |nodes0| && n !in l && n !in other
    requires k <= |l| && SplicedAt(nodes0, nodes, PrevOf(l, k), At(l, k), n)
    requires head == if k == 0 then Some(n) else head0
    ensures Linked(nodes, head, l[..k] + [n] + l[k..]) && Linked(nodes, otherHead, other)
    ensures PointersInRange(nodes)
    ensures forall x | 0 <= x < |nodes| :: nodes[x].data == nodes0[x].data
  {
    SpliceLinkedWrites(nodes0, nodes, head0, head, l, k, n);
    SpliceFrame(nodes0, nodes, otherHead, l, other, k, n);
    SpliceRange(nodes0, nodes, l, k, n);
  }

  lemma SpliceFrame(nodes0: seq<Node>, nodes: seq<Node>, otherHead: Option<nat>, l: seq<nat>, other: seq<nat>, k: nat, n: nat)
    requires Linked(nodes0, otherHead, other) && (forall x | x in l :: x !in other)
    requires n < |nodes0| && n !in other && k <= |l| && SplicedAt(nodes0, nodes, PrevOf(l, k), At(l, k), n)
    ensures Linked(nodes, otherHead, other)
  {
    if k > 0 { assert l[k - 1] in l; }
    if k < |l| { assert l[k] in l; }
    forall i | 0 <= i < |other| ensures nodes[other[i]] == nodes0[other[i]] {
      assert other[i] in other;
    }
    LinkedFrame(nodes0, nodes, otherHead, other);
  }

  lemma SpliceRange(nodes0: seq<Node>, nodes: seq<Node>, l: seq<nat>, k: nat, n: nat)
    requires PointersInRange(nodes0) && (forall i | 0 <= i < |l| :: l[i] < |nodes0|)
    requires n < |nodes0| && k <= |l| && SplicedAt(nodes0, nodes, PrevOf(l, k), At(l, k), n)
    ensures PointersInRange(nodes)
    ensures forall x | 0 <= x < |nodes| :: nodes[x].data == nodes0[x].data
  {
  }

  lemma SpliceLinkedWrites(nodes0: seq<Node>, nodes: seq<Node>, head0: Option<nat>, head: Option<nat>, l: seq<nat>, k: nat, n: nat)
    requires Linked(nodes0, head0, l) && Distinct(l) && k <= |l| && n < |nodes0| && n !in l
    requires SplicedAt(nodes0, nodes, PrevOf(l, k), At(l, k), n)
    requires head == if k == 0 then Some(n) else head0
    ensures Linked(nodes, head, l[..k] + [n] + l[k..])
  {
    forall i | 0 <= i < |l| && i != k - 1 && i != k ensures nodes[l[i]] == nodes0[l[i]] {
      assert l[i] in l;
    }
    if k > 0 { assert l[k - 1] in l; }
    if k < |l| { assert l[k] in l; }
    SpliceLinked(nodes0, nodes, head0, head, l, k, n);
  }

  lemma SpliceClosed(nodes0: seq<Node>, nodes: seq<Node>, index: map<string, nat>,
                     asks0: seq<nat>, bids0: seq<nat>, asks: seq<nat>, bids: seq<nat>, l: seq<nat>, k: nat, n: nat)
    requires OffListClosed(nodes0, index, asks0, bids0) && Loose(nodes0, asks0, bids0, n)
    requires (l == asks0 || l == bids0) && k <= |l| && SplicedAt(nodes0, nodes, PrevOf(l, k), At(l, k), n)
    requires (asks == asks0 && bids == l[..k] + [n] + l[k..] && l == bids0)
          || (bids == bids0 && asks == l[..k] + [n] + l[k..] && l == asks0)
    ensures OffListClosed(nodes, index, asks, bids)
  {
    var l' := l[..k] + [n] + l[k..];
    assert forall x :: x in l' <==> x in l || x == n by {
      assert l == l[..k] + l[k..];
    }
    forall id | id in index && index[id] < |nodes| && index[id] !in asks && index[id] !in bids
      ensures Off(nodes[index[id]].previous, asks, bids) && Off(nodes[index[id]].next, asks, bids)
    {
      var x := index[id];
      if k > 0 { assert l[k - 1] in l; }
      if k < |l| { assert l[k] in l; }
      assert nodes[x] == nodes0[x];
    }
  }

  /** The arena `nodes` with its two heads represents the book `b`. */
  ghost predicate Coherent(b: Book, nodes: seq<Node>, askHead: Option<nat>, bidHead: Option<nat>)
  {
    && b.data == Datas(nodes) && WellFormed(b)
    && ArenaOk(nodes, askHead, bidHead, b.asks, b.bids, b.index)
  }

  /** The fields of an order book, arena and ghost lists included, represent a well-formed book. */
  ghost predicate Represents(nodes: seq<Node>, askHead: Option<nat>, bidHead: Option<nat>, asks: seq<nat>, bids: seq<nat>,
                             index: map<string, nat>, trades: map<int, seq<Trade>>, last: int,
                             askSummary: seq<Summary>, bidSummary: seq<Summary>)
  {
    Coherent(Book(Datas(nodes), asks, bids, index, trades, last, askSummary, bidSummary), nodes, askHead, bidHead)
  }

  /** `l` with `n` spliced in at position `k`. */
  function Spliced(l: seq<nat>, k: nat, n: nat): seq<nat>
    requires k <= |l|
  {
    l[..k] + [n] + l[k..]
  }

  /** The node `x` is allocated, on neither list, pointed at by nobody and not indexed. */
  ghost predicate Unused(b: Book, nodes: seq<Node>, x: nat)
  {
    Loose(nodes, b.asks, b.bids, x) && forall id | id in b.index :: b.index[id] != x
  }

  /** Splicing an unused node into one side keeps the representation. */
  lemma SpliceCoherent(b: Book, nodes0: seq<Node>, nodes: seq<Node>, askHead0: Option<nat>, bidHead0: Option<nat>,
                       askHead: Option<nat>, bidHead: Option<nat>, side: Side, k: nat, n: nat)
    requires Coherent(b, nodes0, askHead0, bidHead0) && Unused(b, nodes0, n)
    requires k <= |ListOf(b, side)|
    requires SplicedAt(nodes0, nodes, PrevOf(ListOf(b, side), k), At(ListOf(b, side), k), n)
    requires askHead == if side == Ask && k == 0 then Some(n) else askHead0
    requires bidHead == if side == Bid && k == 0 then Some(n) else bidHead0
    ensures var b' := WithList(b, side, Spliced(ListOf(b, side), k, n));
            b'.data == Datas(nodes) && Coherent(b', nodes, askHead, bidHead)
  {
    var l := ListOf(b, side);
    var l' := Spliced(l, k, n);
    SpliceArena(nodes0, nodes, b.index, side, k, n, askHead0, bidHead0, b.asks, b.bids, askHead, bidHead,
                if side == Ask then l' else b.asks, if side == Bid then l' else b.bids);
    DatasSame(nodes0, nodes);
    SpliceDistinct(l, k, n);
    SetListKeepsShape(b, side, l');
  }

  /**
   * The writes of `_insertBefore` at the `k`-th node of a side, with the head
   * moved as the source moves it, splice the node in at position `k`.
   */
  lemma BeforeCoherent(b: Book, nodes: seq<Node>, nodes': seq<Node>, askHead: Option<nat>, bidHead: Option<nat>,
                       askHead': Option<nat>, bidHead': Option<nat>, side: Side, k: nat, node: nat, order: nat)
    requires Coherent(b, nodes, askHead, bidHead) && Unused(b, nodes, order)
    requires k < |ListOf(b, side)| && node == ListOf(b, side)[k] && node < |nodes|
    requires SplicedAt(nodes, nodes', nodes[node].previous, Some(node), order)
    requires askHead' == if Some(node) == askHead then Some(order) else askHead
    requires bidHead' == if Some(node) != askHead && Some(node) == bidHead then Some(order) else bidHead
    ensures var b' := WithList(b, side, Spliced(ListOf(b, side), k, order));
            b'.data == Datas(nodes') && Coherent(b', nodes', askHead', bidHead')
  {
    Neighbours(b, nodes, askHead, bidHead, side, k);
    SpliceCoherent(b, nodes, nodes', askHead, bidHead, askHead', bidHead', side, k, order);
  }

  /** The writes of `_insertAfter` at the `k`-th node of a side splice the node in at position `k + 1`. */
  lemma AfterCoherent(b: Book, nodes: seq<Node>, nodes': seq<Node>, askHead: Option<nat>, bidHead: Option<nat>,
                      side: Side, k: nat, node: nat, order: nat)
    requires Coherent(b, nodes, askHead, bidHead) && Unused(b, nodes, order)
    requires k < |ListOf(b, side)| && node == ListOf(b, side)[k] && node < |nodes|
    requires SplicedAt(nodes, nodes', Some(node), nodes[node].next, order)
    ensures var b' := WithList(b, side, Spliced(ListOf(b, side), k + 1, order));
            b'.data == Datas(nodes') && Coherent(b', nodes', askHead, bidHead)
  {
    Neighbours(b, nodes, askHead, bidHead, side, k);
    SpliceCoherent(b, nodes, nodes', askHead, bidHead, askHead, bidHead, side, k + 1, order);
  }

  /**
   * `_insertBefore`'s pointer writes, in the source's order: the loose node
   * `order` goes in between `node` and the node before it.
   */
  method WriteBefore(nodes: seq<Node>, node: nat, order: nat) returns (nodes': seq<Node>)
    requires node < |nodes| && order < |nodes| && node != order
    requires nodes[order].previous.None? && nodes[order].next.None?
    requires var pre := nodes[node].previous; pre.Some? ==> pre.value < |nodes| && pre.value != order && pre.value != node
    ensures SplicedAt(nodes, nodes', nodes[node].previous, Some(node), order)
  {
    var pre := nodes[node].previous;
    nodes' := nodes[node := nodes[node].(previous := Some(order))];
    nodes' := nodes'[order := nodes'[order].(next := Some(node))];
    nodes' := nodes'[order := nodes'[order].(previous := pre)];
    if pre.Some? {
      nodes' := nodes'[pre.value := nodes'[pre.value].(next := Some(order))];
    }
  }

  /**
   * `_insertAfter`'s pointer writes, in the source's order: the loose node
   * `order` goes in between `node` and the node after it.
   */
  method WriteAfter(nodes: seq<Node>, node: nat, order: nat) returns (nodes': seq<Node>)
    requires node < |nodes| && order < |nodes| && node != order
    requires nodes[order].previous.None? && nodes[order].next.None?
    requires var next := nodes[node].next; next.Some? ==> next.value < |nodes| && next.value != order && next.value != node
    ensures SplicedAt(nodes, nodes', Some(node), nodes[node].next, order)
  {
    var next := nodes[node].next;
    nodes' := nodes[node := nodes[node].(next := Some(order))];
    nodes' := nodes'[order := nodes'[order].(previous := Some(node))];
    nodes' := nodes'[order := nodes'[order].(next := next)];
    if next.Some? {
      nodes' := nodes'[next.value := nodes'[next.value].(previous := Some(order))];
    }
  }

  /** The neighbours a listed node records are its neighbours on its list, and it is a head only when first. */
  lemma Neighbours(b: Book, nodes: seq<Node>, askHead: Option<nat>, bidHead: Option<nat>, side: Side, k: nat)
    requires Coherent(b, nodes, askHead, bidHead) && k < |ListOf(b, side)|
    ensures var l := ListOf(b, side);
            && l[k] < |nodes| && nodes[l[k]].previous == PrevOf(l, k) && nodes[l[k]].next == NextOf(l, k)
            && (k > 0 ==> l[k - 1] < |nodes| && l[k - 1] != l[k])
            && (k + 1 < |l| ==> l[k + 1] < |nodes| && l[k + 1] != l[k])
            && (Some(l[k]) == askHead <==> side == Ask && k == 0)
            && (Some(l[k]) == bidHead <==> side == Bid && k == 0)
  {
    var l := ListOf(b, side);
    assert l[k] in l;
    if k > 0 { assert l[k - 1] in l; }
    if k + 1 < |l| { assert l[k + 1] in l; }
    if b.asks != [] { assert b.asks[0] in b.asks; }
    if b.bids != [] { assert b.bids[0] in b.bids; }
  }


  /** `_insertBefore` on the arena: splice the unused node `order` in before `node`, the `k`-th of `side`. */
  method SpliceBefore(nodes: seq<Node>, askHead: Option<nat>, bidHead: Option<nat>, ghost b: Book,
                      node: nat, order: nat, ghost side: Side, ghost k: nat)
    returns (nodes': seq<Node>, askHead': Option<nat>, bidHead': Option<nat>)
    requires Coherent(b, nodes, askHead, bidHead) && Unused(b, nodes, order)
    requires k < |ListOf(b, side)| && node == ListOf(b, side)[k]
    ensures var b' := WithList(b, side, Spliced(ListOf(b, side), k, order));
            b'.data == Datas(nodes') && Coherent(b', nodes', askHead', bidHead')
  {
    Neighbours(b, nodes, askHead, bidHead, side, k);
    nodes' := WriteBefore(nodes, node, order);
    askHead', bidHead' := askHead, bidHead;
    if Some(node) == askHead {
      askHead' := Some(order);
    } else if Some(node) == bidHead {
      bidHead' := Some(order);
    }
    BeforeCoherent(b, nodes, nodes', askHead, bidHead, askHead', bidHead', side, k, node, order);
  }

  // ---------------------------------------------------------------- unlinking

  /**
   * Node by node, the writes of `delete`: the node after the target takes the
   * target's `previous`, the node before it takes the target's `next`.
   */
  ghost predicate BridgedAt(nodes0: seq<Node>, nodes: seq<Node>, left: Option<nat>, right: Option<nat>)
  {
    && |nodes| == |nodes0|
    && (forall x | 0 <= x < |nodes| ::
          nodes[x] == nodes0[x].(previous := if Some(x) == right then left else nodes0[x].previous,
                                 next := if Some(x) == left then right else nodes0[x].next))
  }

  /**
   * `delete`'s pointer writes, in the source's order, around the node `t`;
   * nothing is assumed of `t`'s neighbours beyond their being in the arena.
   */
  method WriteBridge(nodes: seq<Node>, t: nat) returns (nodes': seq<Node>)
    requires t < |nodes| && PtrInRange(nodes[t].previous, |nodes|) && PtrInRange(nodes[t].next, |nodes|)
    ensures BridgedAt(nodes, nodes', nodes[t].previous, nodes[t].next)
  {
    var left, right := nodes[t].previous, nodes[t].next;
    nodes' := nodes;
    if right.Some? {
      nodes' := nodes'[right.value := nodes'[right.value].(previous := left)];
    }
    if left.Some? {
      nodes' := nodes'[left.value := nodes'[left.value].(next := right)];
    }
  }

  /** Bridging the neighbours of the `k`-th node of `l` links `l` without it, at position `i`. */
  lemma UnlinkLinkedAt(nodes0: seq<Node>, nodes: seq<Node>, head: Option<nat>, l: seq<nat>, l': seq<nat>, k: nat, i: nat)
    requires Linked(nodes0, head, l) && Distinct(l) && k < |l| && i < |l'| && l' == l[..k] + l[k + 1..]
    requires BridgedAt(nodes0, nodes, PrevOf(l, k), NextOf(l, k))
    ensures l'[i] < |nodes| && nodes[l'[i]].next == NextOf(l', i) && nodes[l'[i]].previous == PrevOf(l', i)
  {
    if i < k {
      assert l'[i] == l[i] && nodes0[l[i]].next == NextOf(l, i) && nodes0[l[i]].previous == PrevOf(l, i);
      assert Some(l[i]) != NextOf(l, k);
      if i + 1 < k { assert l'[i + 1] == l[i + 1]; }
      if i + 1 == k && k + 1 < |l| { assert l'[i + 1] == l[k + 1]; }
      if i > 0 { assert l'[i - 1] == l[i - 1]; }
      if i + 1 != k { assert Some(l[i]) != PrevOf(l, k); }
    } else {
      assert l'[i] == l[i + 1] && nodes0[l[i + 1]].next == NextOf(l, i + 1) && nodes0[l[i + 1]].previous == PrevOf(l, i + 1);
      assert Some(l[i + 1]) != PrevOf(l, k);
      if i + 1 < |l'| { assert l'[i + 1] == l[i + 2]; }
      if i > k { assert l'[i - 1] == l[i]; assert Some(l[i + 1]) != NextOf(l, k); }
      if i == k && k > 0 { assert l'[i - 1] == l[k - 1]; }
    }
  }

  /** Bridging the neighbours of the `k`-th node of `l` links `l` without it; the head moves on when `k` is 0. */
  lemma UnlinkLinked(nodes0: seq<Node>, nodes: seq<Node>, head: Option<nat>, head': Option<nat>, l: seq<nat>, k: nat)
    requires Linked(nodes0, head, l) && Distinct(l) && k < |l|
    requires BridgedAt(nodes0, nodes, PrevOf(l, k), NextOf(l, k))
    requires head' == if k == 0 then NextOf(l, 0) else head
    ensures Linked(nodes, head', l[..k] + l[k + 1..])
  {
    var l' := l[..k] + l[k + 1..];
    forall i | 0 <= i < |l'|
      ensures l'[i] < |nodes| && nodes[l'[i]].next == NextOf(l', i) && nodes[l'[i]].previous == PrevOf(l', i)
    {
      UnlinkLinkedAt(nodes0, nodes, head, l, l', k, i);
    }
    if l' != [] {
      if k == 0 { assert l'[0] == l[1]; } else { assert l'[0] == l[0]; }
    }
  }

  /** Bridging two nodes that are not on `l` leaves `l` linked. */
  lemma BridgeFrame(nodes0: seq<Node>, nodes: seq<Node>, head: Option<nat>, l: seq<nat>, left: Option<nat>, right: Option<nat>)
    requires Linked(nodes0, head, l) && BridgedAt(nodes0, nodes, left, right)
    requires Off(left, l, []) && Off(right, l, [])
    ensures Linked(nodes, head, l)
  {
    forall i | 0 <= i < |l| ensures nodes[l[i]] == nodes0[l[i]] {
      assert l[i] in l;
    }
    LinkedFrame(nodes0, nodes, head, l);
  }

  /** The head of a list is on it, so an off-list node is never a head. */
  lemma HeadOnList(nodes: seq<Node>, head: Option<nat>, l: seq<nat>, t: nat)
    requires Linked(nodes, head, l) && t !in l
    ensures head != Some(t)
  {
    if l != [] { assert l[0] in l; }
  }

  /** The id index is injective: an order id names the node holding it. */
  lemma IndexInjective(b: Book, id: string, id': string)
    requires WellFormed(b) && id in b.index && id' in b.index && b.index[id] == b.index[id']
    ensures id == id'
  {
  }

  /** The list `l` loses its `k`-th node, the list `other` keeps its pointers. */
  lemma UnlinkOneSide(nodes0: seq<Node>, nodes: seq<Node>, head0: Option<nat>, head: Option<nat>, otherHead: Option<nat>,
                      l: seq<nat>, other: seq<nat>, k: nat)
    requires Linked(nodes0, head0, l) && Linked(nodes0, otherHead, other)
    requires Distinct(l) && forall x | x in l :: x !in other
    requires k < |l| && BridgedAt(nodes0, nodes, PrevOf(l, k), NextOf(l, k))
    requires head == if k == 0 then NextOf(l, 0) else head0
    ensures Linked(nodes, head, l[..k] + l[k + 1..]) && Linked(nodes, otherHead, other)
  {
    UnlinkLinked(nodes0, nodes, head0, head, l, k);
    assert Off(PrevOf(l, k), other, []) && Off(NextOf(l, k), other, []) by {
      if k > 0 { assert l[k - 1] in l; }
      if k + 1 < |l| { assert l[k + 1] in l; }
    }
    BridgeFrame(nodes0, nodes, otherHead, other, PrevOf(l, k), NextOf(l, k));
  }

  /** Bridging writes only pointers, and only pointers already in the arena. */
  lemma BridgeRange(nodes0: seq<Node>, nodes: seq<Node>, left: Option<nat>, right: Option<nat>)
    requires PointersInRange(nodes0) && PtrInRange(left, |nodes0|) && PtrInRange(right, |nodes0|)
    requires BridgedAt(nodes0, nodes, left, right)
    ensures PointersInRange(nodes) && Datas(nodes) == Datas(nodes0)
  {
    DatasSame(nodes0, nodes);
  }

  /** Unlinking a listed node rewrites only listed nodes, so the nodes left off the lists stay closed. */
  lemma UnlinkClosed(b: Book, nodes0: seq<Node>, nodes: seq<Node>, id: string, l: seq<nat>, k: nat)
    requires WellFormed(b) && |b.data| == |nodes0| && id in b.index
    requires OffListClosed(nodes0, b.index, b.asks, b.bids)
    requires (l == b.asks || l == b.bids) && k < |l| && l[k] == b.index[id]
    requires BridgedAt(nodes0, nodes, PrevOf(l, k), NextOf(l, k))
    ensures OffListClosed(nodes, b.index - {id}, Without(b.asks, b.index[id]), Without(b.bids, b.index[id]))
  {
    var t := b.index[id];
    forall id' | id' in b.index - {id} && (b.index - {id})[id'] < |nodes|
                 && (b.index - {id})[id'] !in Without(b.asks, t) && (b.index - {id})[id'] !in Without(b.bids, t)
      ensures Off(nodes[b.index[id']].previous, Without(b.asks, t), Without(b.bids, t))
           && Off(nodes[b.index[id']].next, Without(b.asks, t), Without(b.bids, t))
    {
      var x := b.index[id'];
      assert x != t by { if x == t { IndexInjective(b, id, id'); } }
      assert x !in b.asks && x !in b.bids;
      assert Some(x) != PrevOf(l, k) && Some(x) != NextOf(l, k) by {
        if k > 0 { assert l[k - 1] in l; }
        if k + 1 < |l| { assert l[k + 1] in l; }
      }
      assert nodes[x] == nodes0[x];
    }
  }

  /** Deleting a listed order: the list loses it, the other list and the off-list nodes keep their pointers. */
  lemma UnlinkListed(b: Book, nodes0: seq<Node>, nodes: seq<Node>, askHead0: Option<nat>, bidHead0: Option<nat>,
                     askHead: Option<nat>, bidHead: Option<nat>, id: string, side: Side, k: nat)
    requires Coherent(b, nodes0, askHead0, bidHead0) && id in b.index
    requires k < |ListOf(b, side)| && ListOf(b, side)[k] == b.index[id]
    requires BridgedAt(nodes0, nodes, PrevOf(ListOf(b, side), k), NextOf(ListOf(b, side), k))
    requires askHead == if side == Ask && k == 0 then NextOf(b.asks, 0) else askHead0
    requires bidHead == if side == Bid && k == 0 then NextOf(b.bids, 0) else bidHead0
    ensures Delete(b, id).data == Datas(nodes) && Coherent(Delete(b, id), nodes, askHead, bidHead)
  {
    var t := b.index[id];
    var l := ListOf(b, side);
    WithoutAt(l, k);
    WithoutAbsent(ListOf(b, Other(side)), t) by { assert t in l; }
    if side == Ask {
      UnlinkOneSide(nodes0, nodes, askHead0, askHead, bidHead0, l, b.bids, k);
    } else {
      UnlinkOneSide(nodes0, nodes, bidHead0, bidHead, askHead0, l, b.asks, k);
    }
    assert PtrInRange(PrevOf(l, k), |nodes0|) && PtrInRange(NextOf(l, k), |nodes0|) by {
      if k > 0 { assert l[k - 1] in l; }
      if k + 1 < |l| { assert l[k + 1] in l; }
    }
    BridgeRange(nodes0, nodes, PrevOf(l, k), NextOf(l, k));
    UnlinkClosed(b, nodes0, nodes, id, l, k);
  }

  /** Deleting an indexed order on neither list only rewrites nodes on neither list. */
  lemma UnlinkLoose(b: Book, nodes0: seq<Node>, nodes: seq<Node>, askHead: Option<nat>, bidHead: Option<nat>, id: string)
    requires Coherent(b, nodes0, askHead, bidHead) && id in b.index
    requires b.index[id] !in b.asks && b.index[id] !in b.bids
    requires BridgedAt(nodes0, nodes, nodes0[b.index[id]].previous, nodes0[b.index[id]].next)
    ensures Delete(b, id).data == Datas(nodes) && Coherent(Delete(b, id), nodes, askHead, bidHead)
  {
    var t := b.index[id];
    var left, right := nodes0[t].previous, nodes0[t].next;
    var d := Delete(b, id);
    WithoutAbsent(b.asks, t);
    WithoutAbsent(b.bids, t);
    assert Off(left, b.asks, b.bids) && Off(right, b.asks, b.bids);
    BridgeFrame(nodes0, nodes, askHead, b.asks, left, right);
    BridgeFrame(nodes0, nodes, bidHead, b.bids, left, right);
    DatasSame(nodes0, nodes);
  }

  /**
   * `delete` on the arena: bridge the target's neighbours and, when the
   * target heads a side, move that head on to the target's `next`.
   */
  method Unlink(nodes: seq<Node>, askHead: Option<nat>, bidHead: Option<nat>, ghost b: Book, id: string, t: nat)
    returns (nodes': seq<Node>, askHead': Option<nat>, bidHead': Option<nat>)
    requires Coherent(b, nodes, askHead, bidHead) && id in b.index && t == b.index[id]
    ensures Delete(b, id).data == Datas(nodes') && Coherent(Delete(b, id), nodes', askHead', bidHead')
  {
    nodes' := WriteBridge(nodes, t);
    askHead', bidHead' := askHead, bidHead;
    if Some(t) == askHead {
      askHead' := nodes[t].next;
    } else if Some(t) == bidHead {
      bidHead' := nodes[t].next;
    }
    UnlinkCoherent(b, nodes, nodes', askHead, bidHead, askHead', bidHead', id);
  }

  lemma UnlinkCoherent(b: Book, nodes0: seq<Node>, nodes: seq<Node>, askHead0: Option<nat>, bidHead0: Option<nat>,
                       askHead: Option<nat>, bidHead: Option<nat>, id: string)
    requires Coherent(b, nodes0, askHead0, bidHead0) && id in b.index
    requires BridgedAt(nodes0, nodes, nodes0[b.index[id]].previous, nodes0[b.index[id]].next)
    requires askHead == if Some(b.index[id]) == askHead0 then nodes0[b.index[id]].next else askHead0
    requires bidHead == if Some(b.index[id]) != askHead0 && Some(b.index[id]) == bidHead0 then nodes0[b.index[id]].next else bidHead0
    ensures Delete(b, id).data == Datas(nodes) && Coherent(Delete(b, id), nodes, askHead, bidHead)
  {
    var t := b.index[id];
    if t in b.asks {
      var k :| 0 <= k < |b.asks| && b.asks[k] == t;
      Neighbours(b, nodes0, askHead0, bidHead0, Ask, k);
      UnlinkListed(b, nodes0, nodes, askHead0, bidHead0, askHead, bidHead, id, Ask, k);
    } else if t in b.bids {
      var k :| 0 <= k < |b.bids| && b.bids[k] == t;
      Neighbours(b, nodes0, askHead0, bidHead0, Bid, k);
      UnlinkListed(b, nodes0, nodes, askHead0, bidHead0, askHead, bidHead, id, Bid, k);
    } else {
      HeadOnList(nodes0, askHead0, b.asks, t);
      HeadOnList(nodes0, bidHead0, b.bids, t);
      UnlinkLoose(b, nodes0, nodes, askHead0, bidHead0, id);
    }
  }

  /** `_insertAfter` on the arena: splice the unused node `order` in after `node`, the `k`-th of `side`. */
  method SpliceAfter(nodes: seq<Node>, askHead: Option<nat>, bidHead: Option<nat>, ghost b: Book,
                     node: nat, order: nat, ghost side: Side, ghost k: nat)
    returns (nodes': seq<Node>)
    requires Coherent(b, nodes, askHead, bidHead) && Unused(b, nodes, order)
    requires k < |ListOf(b, side)| && node == ListOf(b, side)[k]
    ensures var b' := WithList(b, side, Spliced(ListOf(b, side), k + 1, order));
            b'.data == Datas(nodes') && Coherent(b', nodes', askHead, bidHead)
  {
    Neighbours(b, nodes, askHead, bidHead, side, k);
    nodes' := WriteAfter(nodes, node, order);
    AfterCoherent(b, nodes, nodes', askHead, bidHead, side, k, node, order);
  }

  // ---------------------------------------------------------------- allocating and indexing

  /** A new node holding `o`, pointing nowhere, is unused and keeps the representation. */
  lemma AllocateCoherent(b: Book, nodes: seq<Node>, askHead: Option<nat>, bidHead: Option<nat>, o: Order)
    requires Coherent(b, nodes, askHead, bidHead)
    ensures var b' := b.(data := b.data + [o]);
            var nodes' := nodes + [Node(o, None, None)];
            b'.data == Datas(nodes') && Coherent(b', nodes', askHead, bidHead) && Unused(b', nodes', |nodes|)
  {
    var b' := b.(data := b.data + [o]);
    var nodes' := nodes + [Node(o, None, None)];
    GrowKeepsShape(b, o);
    LinkedFrame(nodes, nodes', askHead, b.asks);
    LinkedFrame(nodes, nodes', bidHead, b.bids);
    assert |nodes| !in b.asks && |nodes| !in b.bids by {
      assert InRange(b.data, b.asks) && InRange(b.data, b.bids);
    }
  }

  /**
   * Indexing the fresh id `id` at node `n`, which holds an order with that id
   * and is either on a list or points nowhere, keeps the representation.
   */
  lemma IndexCoherent(b: Book, nodes: seq<Node>, askHead: Option<nat>, bidHead: Option<nat>, id: string, n: nat)
    requires Coherent(b, nodes, askHead, bidHead) && n < |b.data| && b.data[n].id == id
    requires n in b.asks || n in b.bids || (nodes[n].previous.None? && nodes[n].next.None?)
    ensures Coherent(b.(index := b.index[id := n]), nodes, askHead, bidHead)
  {
  }

  /** Writing a new volume into a node's order keeps the representation. */
  lemma VolumeCoherent(b: Book, nodes: seq<Node>, askHead: Option<nat>, bidHead: Option<nat>, t: nat, volume: real)
    requires Coherent(b, nodes, askHead, bidHead) && t < |nodes|
    ensures var b' := b.(data := b.data[t := b.data[t].(volume := volume)]);
            var nodes' := nodes[t := nodes[t].(data := nodes[t].data.(volume := volume))];
            b'.data == Datas(nodes') && Coherent(b', nodes', askHead, bidHead)
  {
    var nodes' := nodes[t := nodes[t].(data := nodes[t].data.(volume := volume))];
    LinkedFrame(nodes, nodes', askHead, b.asks);
    LinkedFrame(nodes, nodes', bidHead, b.bids);
  }

  /** Emptying both heads and the index keeps the representation. */
  lemma ResetCoherent(b: Book, nodes: seq<Node>, askHead: Option<nat>, bidHead: Option<nat>)
    requires Coherent(b, nodes, askHead, bidHead)
    ensures Coherent(Reset(b), nodes, None, None)
  {
  }

  // ---------------------------------------------------------------- enlisting

  /** The summaries play no part in the representation. */
  lemma SummariesApart(b: Book, nodes: seq<Node>, askHead: Option<nat>, bidHead: Option<nat>, side: Side, s: seq<Summary>)
    requires Coherent(b, nodes, askHead, bidHead)
    ensures Coherent(WithSummary(b, side, s), nodes, askHead, bidHead)
  {
  }

  /**
   * Making the unused node `n` the head of `side` on its own, as the first
   * step of `_enlistOrders` does, drops whatever `side` held off the lists.
   */
  lemma RestartCoherent(b: Book, nodes: seq<Node>, askHead: Option<nat>, bidHead: Option<nat>,
                        askHead': Option<nat>, bidHead': Option<nat>, side: Side, n: nat)
    requires Coherent(b, nodes, askHead, bidHead) && Unused(b, nodes, n)
    requires askHead' == if side == Ask then Some(n) else askHead
    requires bidHead' == if side == Bid then Some(n) else bidHead
    ensures Coherent(WithList(b, side, [n]), nodes, askHead', bidHead')
  {
    SetListKeepsShape(b, side, [n]);
    RestartClosed(nodes, b.index, if side == Ask then askHead else bidHead, b.asks, b.bids, side, n);
  }

  /** The nodes left off the lists, the old list of `side` among them, point only at nodes off the new lists. */
  lemma RestartClosed(nodes: seq<Node>, index: map<string, nat>, head: Option<nat>,
                      asks: seq<nat>, bids: seq<nat>, side: Side, n: nat)
    requires var l := if side == Ask then asks else bids;
             Linked(nodes, head, l) && PointersInRange(nodes) && (forall x | x in asks :: x !in bids)
    requires OffListClosed(nodes, index, asks, bids) && Loose(nodes, asks, bids, n)
    ensures OffListClosed(nodes, index, if side == Ask then [n] else asks, if side == Bid then [n] else bids)
  {
    var l := if side == Ask then asks else bids;
    var asks' := if side == Ask then [n] else asks;
    var bids' := if side == Bid then [n] else bids;
    forall id | id in index && index[id] < |nodes| && index[id] !in asks' && index[id] !in bids'
      ensures Off(nodes[index[id]].previous, asks', bids') && Off(nodes[index[id]].next, asks', bids')
    {
      var x := index[id];
      var p := nodes[x].previous;
      var q := nodes[x].next;
      assert p != Some(n) && q != Some(n);
      if x !in l {
        assert Off(p, asks, bids) && Off(q, asks, bids);
      } else {
        var i :| 0 <= i < |l| && l[i] == x;
        assert p.Some? ==> p.value in l by { if i > 0 { assert l[i - 1] in l; } }
        assert q.Some? ==> q.value in l by { if i + 1 < |l| { assert l[i + 1] in l; } }
      }
    }
  }
}
