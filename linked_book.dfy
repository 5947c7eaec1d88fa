/**
 * The `OrderBook` class of OrderBook.ts: two doubly linked lists of order
 * nodes (asks lowest first, bids highest first), an id index over both, a
 * per-second trade ledger and the per-price summaries.
 *
 * The nodes live in an arena (see arena.dfy). Every method reads and writes
 * the fields as the source does, and is proved to act on the abstract state
 * `Model()` as the function of the same name in BookModel does; the pointer
 * writes themselves are the arena methods it calls.
 */
module LinkedBook {
  import opened Types
  import opened BookModel
  import opened Arena

  /** The value of the `ticker` getter; `lastTrade` is `None` where the source gives the empty string. */
  datatype TickerInfo = TickerInfo(ask: Price, bid: Price, spread: real, lastTrade: Option<Price>)

  /** How many orders `top` lists when no count is given. */
  const DefaultTop := 10

  class OrderBook {
    var nodes: seq<Node>
    var askHead: Option<nat>
    var bidHead: Option<nat>
    var index: map<string, nat>
    var trades: map<int, seq<Trade>>
    var lastTimestamp: int
    var askSummary: seq<Summary>
    var bidSummary: seq<Summary>
    ghost var askList: seq<nat>
    ghost var bidList: seq<nat>

    ghost function Model(): Book
      reads this
    {
      Book(Datas(nodes), askList, bidList, index, trades, lastTimestamp, askSummary, bidSummary)
    }

    ghost predicate Valid()
      reads this
    {
      Represents(nodes, askHead, bidHead, askList, bidList, index, trades, lastTimestamp, askSummary, bidSummary)
    }

    /** `_getList`. */
    function Head(side: Side): Option<nat>
      reads this
    {
      if side == Ask then askHead else bidHead
    }

    ghost function List(side: Side): seq<nat>
      reads this
    {
      ListOf(Model(), side)
    }

    /** A node allocated but not yet linked, indexed or pointed at. */
    ghost predicate Detached(x: nat)
      reads this
    {
      Unused(Model(), nodes, x)
    }

    constructor()
      ensures Valid() && Model() == Empty()
    {
      nodes := [];
      askHead := None;
      bidHead := None;
      index := map[];
      trades := map[];
      lastTimestamp := 0;
      askSummary := [];
      bidSummary := [];
      askList := [];
      bidList := [];
    }

    /**
     * `new OrderBook(asks, bids)` with its optional arguments: a new book, then
     * the `asks` setter when asks are given and the `bids` setter when bids
     * are given. A `Fail` outcome is the constructor throwing: the caller
     * gets no book, and `book` is only where the construction stopped.
     */
    static method WithOrders(asks: Option<seq<Order>>, bids: Option<seq<Order>>) returns (book: OrderBook, outcome: Outcome)
      ensures fresh(book) && book.Valid()
      ensures (book.Model(), outcome) == Build(asks, bids)
    {
      book := new OrderBook();
      outcome := Pass;
      if asks.Some? {
        outcome := book.Enlist(Ask, asks.value);
      }
      if outcome.Pass? && bids.Some? {
        outcome := book.Enlist(Bid, bids.value);
      }
    }

    /** The head of a side is its first node. */
    lemma HeadFirst(side: Side)
      requires Valid()
      ensures Head(side) == At(List(side), 0)
    {
    }

    /** The `k`-th node of a side holds the `k`-th order of its view and points on to the next one. */
    lemma Walk(side: Side, k: nat)
      requires Valid() && k < |List(side)|
      ensures List(side)[k] < |nodes| && nodes[List(side)[k]].data == View(Model(), side)[k]
      ensures nodes[List(side)[k]].next == At(List(side), k + 1)
    {
      Neighbours(Model(), nodes, askHead, bidHead, side, k);
    }

    /** `new LinkedNode(o)`: a node holding `o`, unlinked and unindexed. */
    method Allocate(o: Order) returns (n: nat)
      requires Valid()
      modifies this
      ensures Valid() && Detached(n) && n == old(|nodes|)
      ensures Model() == old(Model()).(data := old(Model()).data + [o])
      ensures Head(Ask) == old(Head(Ask)) && Head(Bid) == old(Head(Bid))
    {
      AllocateCoherent(Model(), nodes, askHead, bidHead, o);
      n := |nodes|;
      nodes := nodes + [Node(o, None, None)];
    }

    /** `_insertBefore`: splice the detached node `order` in before `node`, the `k`-th of `side`. */
    method InsertBefore(node: nat, order: nat, ghost side: Side, ghost k: nat)
      requires Valid() && Detached(order)
      requires k < |List(side)| && node == List(side)[k]
      modifies this
      ensures Valid()
      ensures Model() == WithList(old(Model()), side, Spliced(old(List(side)), k, order))
    {
      ghost var b' := WithList(Model(), side, Spliced(List(side), k, order));
      nodes, askHead, bidHead := SpliceBefore(nodes, askHead, bidHead, Model(), node, order, side, k);
      askList, bidList := b'.asks, b'.bids;
    }

    /** `_insertAfter`: splice the detached node `order` in after `node`, the `k`-th of `side`. */
    method InsertAfter(node: nat, order: nat, ghost side: Side, ghost k: nat)
      requires Valid() && Detached(order)
      requires k < |List(side)| && node == List(side)[k]
      modifies this
      ensures Valid()
      ensures Model() == WithList(old(Model()), side, Spliced(old(List(side)), k + 1, order))
    {
      ghost var b' := WithList(Model(), side, Spliced(List(side), k + 1, order));
      nodes := SpliceAfter(nodes, askHead, bidHead, Model(), node, order, side, k);
      askList, bidList := b'.asks, b'.bids;
    }

    /**
     * `add`: place a node for `o`, then check the id; a new id is indexed,
     * a duplicate throws and leaves the placed node behind.
     */
    method Add(o: Order) returns (outcome: Outcome)
      requires Valid()
      modifies this
      ensures Valid() && (Model(), outcome) == BookModel.Add(old(Model()), o)
    {
      var n := Place(o);
      if o.id in index {
        return Fail(DuplicateOrderId);
      }
      IndexNode(o.id, n);
      outcome := Pass;
    }

    /**
     * The walk of `add`: from the head of the order's side to the first order
     * `o` ranks strictly before, splicing a new node for `o` in before it, or
     * after the last order; on an empty side the new node is only bound to a
     * local.
     */
    method Place(o: Order) returns (n: nat)
      requires Valid()
      modifies this
      ensures Valid() && Model() == Placed(old(Model()), o) && index == old(index)
      ensures n == old(|nodes|) && n < |Model().data| && Model().data[n] == o
      ensures n in List(o.side) || (nodes[n].previous.None? && nodes[n].next.None?)
    {
      ghost var b := Model();
      n := Allocate(o);
      var list := Head(o.side);
      HeadFirst(o.side);
      if list.Some? {
        DerefGrow(b.data, ListOf(b, o.side), o);
        var current := list.value;
        ghost var k := 0;
        while true
          invariant Valid() && Detached(n) && Model() == b.(data := b.data + [o])
          invariant k < |List(o.side)| && current == List(o.side)[k]
          invariant forall j | 0 <= j < k :: !Better(o.side, o.price, View(b, o.side)[j].price)
          decreases |List(o.side)| - k
        {
          Walk(o.side, k);
          if Better(o.side, o.price, nodes[current].data.price) {
            SettleBefore(o, b, current, n, k);
            break;
          } else if nodes[current].next.None? {
            SettleAfter(o, b, current, n, k);
            break;
          }
          current := nodes[current].next.value;
          k := k + 1;
        }
      }
    }

    /** `add`'s walk stops at the `k`-th node, the first `o` beats: `_insertBefore` it. */
    method SettleBefore(o: Order, ghost b: Book, current: nat, n: nat, ghost k: nat)
      requires Valid() && Detached(n) && n == |b.data| && WellFormed(b) && ListOf(b, o.side) != [] && Model() == b.(data := b.data + [o])
      requires k < |List(o.side)| && current == List(o.side)[k] && Better(o.side, o.price, View(b, o.side)[k].price)
      requires forall j | 0 <= j < k :: !Better(o.side, o.price, View(b, o.side)[j].price)
      modifies this
      ensures Valid() && Model() == Placed(b, o) && n in List(o.side)
    {
      InsertPosUnique(o.side, View(b, o.side), o, k);
      InsertBefore(current, n, o.side, k);
    }

    /** `add`'s walk reaches the last node, the `k`-th, without `o` beating any: `_insertAfter` it. */
    method SettleAfter(o: Order, ghost b: Book, current: nat, n: nat, ghost k: nat)
      requires Valid() && Detached(n) && n == |b.data| && WellFormed(b) && ListOf(b, o.side) != [] && Model() == b.(data := b.data + [o])
      requires k == |List(o.side)| - 1 && current == List(o.side)[k]
      requires forall j | 0 <= j <= k :: !Better(o.side, o.price, View(b, o.side)[j].price)
      modifies this
      ensures Valid() && Model() == Placed(b, o) && n in List(o.side)
    {
      InsertPosUnique(o.side, View(b, o.side), o, k + 1);
      InsertAfter(current, n, o.side, k);
    }

    /** `delete`: bridge the target's neighbours, advance a head it was, and forget the id. */
    method Delete(id: string)
      requires Valid()
      modifies this
      ensures Valid() && Model() == BookModel.Delete(old(Model()), id)
    {
      if id !in index {
        return;
      }
      var target := index[id];
      ghost var d := BookModel.Delete(Model(), id);
      nodes, askHead, bidHead := Unlink(nodes, askHead, bidHead, Model(), id, target);
      index := index - {id};
      askList, bidList := d.asks, d.bids;
    }

    /** `getOrder`: the order the index points at. */
    function GetOrder(id: string): (r: Option<Order>)
      reads this
      requires Valid()
      ensures r == BookModel.GetOrder(Model(), id)
    {
      if id !in index then None else Some(nodes[index[id]].data)
    }

    /** `reduce`: throw on an unknown id, delete an order reduced to nothing, else rewrite its volume in place. */
    method Reduce(id: string, amount: real) returns (outcome: Outcome)
      requires Valid()
      modifies this
      ensures Valid() && (Model(), outcome) == BookModel.Reduce(old(Model()), id, amount)
    {
      var order := GetOrder(id);
      if order.None? {
        return Fail(OrderNotFound);
      }
      var remaining := order.value.volume - amount;
      if remaining <= 0.0 {
        Delete(id);
      } else {
        var t := index[id];
        VolumeCoherent(Model(), nodes, askHead, bidHead, t, remaining);
        nodes := nodes[t := nodes[t].(data := nodes[t].data.(volume := remaining))];
      }
      outcome := Pass;
    }

    /** `top(type, num)`: follow `next` from the head, taking at most `num` orders (10 when absent). */
    method Top(side: Side, num: Option<int>) returns (arr: seq<Order>)
      requires Valid()
      ensures var v := View(Model(), side);
              var n := if num.Some? then num.value else DefaultTop;
              arr == v[..if n <= 0 then 0 else Min(n, |v|)]
    {
      arr := [];
      var current := Head(side);
      var n := if num.Some? then num.value else DefaultTop;
      HeadFirst(side);
      if current.Some? {
        var i := n;
        while i > 0
          invariant |arr| <= |List(side)| && arr == View(Model(), side)[..|arr|]
          invariant current == At(List(side), |arr|) && i == n - |arr| && (arr == [] || i >= 0)
        {
          if current.None? {
            break;
          }
          Walk(side, |arr|);
          arr := arr + [nodes[current.value].data];
          current := nodes[current.value].next;
          i := i - 1;
        }
      }
    }

    /** `count(type)`: the number of nodes reached from the head. */
    method Count(side: Side) returns (total: nat)
      requires Valid()
      ensures total == |View(Model(), side)|
    {
      var current := Head(side);
      HeadFirst(side);
      total := 0;
      while current.Some?
        invariant total <= |List(side)| && current == At(List(side), total)
        decreases |List(side)| - total
      {
        Walk(side, total);
        total := total + 1;
        current := nodes[current.value].next;
      }
    }

    /** `reset`: drop both heads, the index and the watermark; trades and summaries stay. */
    method Reset()
      requires Valid()
      modifies this
      ensures Valid() && Model() == BookModel.Reset(old(Model()))
    {
      ResetCoherent(Model(), nodes, askHead, bidHead);
      askHead := None;
      bidHead := None;
      index := map[];
      lastTimestamp := 0;
      askList, bidList := [], [];
    }

    /** `trade`: record a trade in the bucket of its second and move the watermark there. */
    method Trade(timestamp: int, price: Price, volume: real, counter: Option<real>, meta: Option<TradeMeta>)
      requires Valid()
      modifies this
      ensures Valid() && Model() == RecordTrade(old(Model()), timestamp, price, volume, counter, meta)
    {
      var amount := if counter.None? then price.value * volume else counter.value;
      var trade := Types.Trade(price, volume, timestamp, amount, meta);
      var second := (timestamp / 1000) * 1000;
      ghost var r := RecordTrade(Model(), timestamp, price, volume, counter, meta);
      lastTimestamp := second;
      if second in trades {
        trades := trades[second := trades[second] + [trade]];
        assert second == Bucket(timestamp) && amount == Counter(price, volume, counter);
        assert r.trades == old(trades)[second := old(trades)[second] + [trade]];
      } else {
        assert second == Bucket(timestamp) && amount == Counter(price, volume, counter);
        assert [] + [trade] == [trade];
        assert r.trades == trades[second := [trade]];
        trades := trades[second := [trade]];
      }
    }

    /** `getTrades(since)`: the buckets `since + 1000`, `since + 2000`, ... up to the watermark, concatenated. */
    method GetTrades(since: int) returns (result: seq<Trade>)
      ensures result == BookModel.GetTrades(Model(), since)
    {
      var timestamp := since + 1000;
      result := [];
      while timestamp <= lastTimestamp
        invariant result + TradesFrom(trades, timestamp, lastTimestamp) == TradesFrom(trades, since + 1000, lastTimestamp)
        decreases lastTimestamp - timestamp
      {
        if timestamp in trades {
          result := result + trades[timestamp];
        }
        timestamp := timestamp + 1000;
      }
    }

    /**
     * `ticker`: nothing unless both sides have a head; otherwise the two head
     * prices, their difference and the first trade of the watermark's second.
     */
    function Ticker(): (t: Option<TickerInfo>)
      reads this
      requires Valid()
      ensures t.Some? <==> View(Model(), Ask) != [] && View(Model(), Bid) != []
      ensures t.Some? ==> && t.value.ask == View(Model(), Ask)[0].price
                          && t.value.bid == View(Model(), Bid)[0].price
                          && t.value.spread == t.value.ask.value - t.value.bid.value
      ensures t.Some? ==> t.value.lastTrade == if lastTimestamp in trades then Some(trades[lastTimestamp][0].price) else None
    {
      HeadFirst(Ask);
      HeadFirst(Bid);
      if askHead.None? || bidHead.None? then None
      else
        Walk(Ask, 0);
        Walk(Bid, 0);
        var ask := nodes[askHead.value].data.price;
        var bid := nodes[bidHead.value].data.price;
        var last := if lastTimestamp in trades then Some(trades[lastTimestamp][0].price) else None;
        Some(TickerInfo(ask, bid, ask.value - bid.value, last))
    }

    /**
     * `_enlistOrders`, behind the `asks` and `bids` setters: link a node per
     * order in the given order, the first becoming the head of `side`,
     * indexing and summarizing each; throw at the first id already indexed.
     */
    method Enlist(side: Side, orders: seq<Order>) returns (outcome: Outcome)
      requires Valid()
      modifies this
      ensures Valid() && (Model(), outcome) == EnlistFrom(old(Model()), side, orders, 0)
    {
      var current: Option<nat> := None;
      var i := 0;
      while i < |orders|
        invariant Valid() && i <= |orders| && Cursor(side, i, current)
        invariant EnlistFrom(Model(), side, orders, i) == EnlistFrom(old(Model()), side, orders, 0)
      {
        var stop;
        stop, current := EnlistOne(side, orders, i, current);
        if stop {
          return Fail(DuplicateOrderId);
        }
        i := i + 1;
      }
      outcome := Pass;
    }

    /** `current` in `_enlistOrders` after `i` orders: none before the first, the last node of `side` after. */
    ghost predicate Cursor(side: Side, i: nat, current: Option<nat>)
      reads this
    {
      if i == 0 then current.None? else current.Some? && current == At(List(side), |List(side)| - 1)
    }

    /** One turn of `_enlistOrders`' loop: stop on an indexed id, else link `orders[i]`. */
    method EnlistOne(side: Side, orders: seq<Order>, i: nat, current: Option<nat>) returns (stop: bool, last: Option<nat>)
      requires Valid() && i < |orders| && Cursor(side, i, current)
      modifies this
      ensures Valid()
      ensures stop ==> EnlistFrom(old(Model()), side, orders, i) == (old(Model()), Fail(DuplicateOrderId)) && Model() == old(Model())
      ensures !stop ==> EnlistFrom(Model(), side, orders, i + 1) == EnlistFrom(old(Model()), side, orders, i) && Cursor(side, i + 1, last)
    {
      EnlistFromStep(Model(), side, orders, i);
      if orders[i].id in index {
        return true, current;
      }
      var n := LinkOrder(side, orders[i], current);
      return false, Some(n);
    }

    /** The body of `_enlistOrders`' loop for an order whose id is not indexed; `current` is the node linked last. */
    method LinkOrder(side: Side, order: Order, current: Option<nat>) returns (n: nat)
      requires Valid() && order.id !in index
      requires current.Some? ==> current == At(List(side), |List(side)| - 1)
      modifies this
      ensures Valid() && Model() == Link(old(Model()), side, order, current.None?)
      ensures Some(n) == At(List(side), |List(side)| - 1)
    {
      n := Attach(side, order, current);
      SummarizeOrder(side, order);
    }

    /**
     * The node part of `_enlistOrders`' loop: a new node for a copy of
     * `order` typed `side`, made the head of `side` when there is no
     * `current` node and linked after `current`, the last node, otherwise;
     * then indexed.
     */
    method Attach(side: Side, order: Order, current: Option<nat>) returns (n: nat)
      requires Valid() && order.id !in index
      requires current.Some? ==> current == At(List(side), |List(side)| - 1)
      modifies this
      ensures Valid() && Model() == Attached(old(Model()), side, order, current.None?)
      ensures Some(n) == At(List(side), |List(side)| - 1)
    {
      ghost var l := List(side);
      n := Allocate(order.(side := side));
      if current.None? {
        Restart(n, side);
      } else {
        // with `current` last, `_insertAfter`'s writes are the loop's two writes
        InsertAfter(current.value, n, side, |l| - 1);
        assert Spliced(l, |l|, n) == l + [n];
      }
      IndexNode(order.id, n);
    }

    /** The first node of `_enlistOrders`: the head of `side`, on its own; what `side` held is dropped. */
    method Restart(n: nat, side: Side)
      requires Valid() && Detached(n)
      modifies this
      ensures Valid() && Model() == WithList(old(Model()), side, [n])
    {
      RestartCoherent(Model(), nodes, askHead, bidHead,
                      if side == Ask then Some(n) else askHead, if side == Bid then Some(n) else bidHead, side, n);
      if side == Ask {
        askHead, askList := Some(n), [n];
      } else {
        bidHead, bidList := Some(n), [n];
      }
    }

    /** `_indexes.set(id, node)`: index the node `n`, which holds an order with that id. */
    method IndexNode(id: string, n: nat)
      requires Valid() && n < |Model().data| && Model().data[n].id == id
      requires n in List(Ask) || n in List(Bid) || (nodes[n].previous.None? && nodes[n].next.None?)
      modifies this
      ensures Valid() && Model() == old(Model()).(index := old(index)[id := n])
    {
      IndexCoherent(Model(), nodes, askHead, bidHead, id, n);
      index := index[id := n];
    }

    /** `_summarizeOrder`: count the order into the summary of its price on `side`, once per id. */
    method SummarizeOrder(side: Side, order: Order)
      requires Valid()
      modifies this
      ensures Valid() && Model() == WithSummary(old(Model()), side, Summarize(SummaryOf(old(Model()), side), order))
    {
      SummariesApart(Model(), nodes, askHead, bidHead, side, Summarize(SummaryOf(Model(), side), order));
      if side == Ask {
        askSummary := Summarize(askSummary, order);
      } else {
        bidSummary := Summarize(bidSummary, order);
      }
    }

    /** `getSummarizeOrder(type, len)`: the summaries of a side in insertion order, cut as `slice(0, len)` cuts. */
    function GetSummarizeOrder(side: Side, len: Option<int>): (r: seq<Summary>)
      reads this
      ensures var s := SummaryOf(Model(), side);
              |r| == PrefixLength(|s|, len) && r == s[..|r|]
    {
      SlicePrefix(if side == Ask then askSummary else bidSummary, len)
    }
  }
}
