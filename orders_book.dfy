/**
 * OrdersBook/OrdersBook.ts: an ask side and a bid side of the price-level
 * index, with batch insertion routed by side, lookup of the side holding an
 * id, and deletion and trading through that side.
 */
module TwoSided {
  import opened Types
  import PriceLevels

  datatype Pair = Pair(asks: PriceLevels.Levels, bids: PriceLevels.Levels)

  /** `new OrdersBook()`. */
  function Start(): Pair
  {
    Pair(PriceLevels.Empty(Ask), PriceLevels.Empty(Bid))
  }

  ghost predicate WellFormed(p: Pair)
  {
    PriceLevels.WellFormed(p.asks) && PriceLevels.WellFormed(p.bids) && p.asks.kind == Ask && p.bids.kind == Bid
  }

  function SideOf(p: Pair, side: Side): PriceLevels.Levels
  {
    if side == Ask then p.asks else p.bids
  }

  function With(p: Pair, side: Side, l: PriceLevels.Levels): Pair
  {
    if side == Ask then p.(asks := l) else p.(bids := l)
  }

  /** `find`: the side holding `id`, which throws when both sides hold it. */
  function Find(p: Pair, id: string): Result<Option<Side>>
  {
    if id in p.asks.index && id in p.bids.index then Err(CrossSideCollision)
    else if id in p.asks.index then Ok(Some(Ask))
    else if id in p.bids.index then Ok(Some(Bid))
    else Ok(None)
  }

  lemma FindFacts(p: Pair, id: string)
    ensures Find(p, id).Err? <==> id in p.asks.index && id in p.bids.index
    ensures Find(p, id).Err? ==> Find(p, id).error == CrossSideCollision
    ensures Find(p, id) == Ok(None) <==> id !in p.asks.index && id !in p.bids.index
    ensures forall side :: Find(p, id) == Ok(Some(side)) <==>
              id in SideOf(p, side).index && id !in SideOf(p, Other(side)).index
  {
  }

  function Other(side: Side): Side
  {
    if side == Ask then Bid else Ask
  }

  /** One step of `add`'s `forEach`: the order goes to the side of its type. */
  function AddOne(p: Pair, o: Order): (Pair, Outcome)
  {
    var (l, r) := PriceLevels.Add(SideOf(p, o.side), o);
    (With(p, o.side, l), r)
  }

  /** `add(orders)` from position `i`: stop at the first order a side rejects, keeping the ones before it. */
  function AddFrom(p: Pair, orders: seq<Order>, i: nat): (Pair, Outcome)
    decreases |orders| - i
  {
    if i >= |orders| then (p, Pass)
    else
      var (p', r) := AddOne(p, orders[i]);
      if r.Fail? then (p', r) else AddFrom(p', orders, i + 1)
  }

  /** `add` never drops or alters an order already held, whether or not the batch is rejected later. */
  lemma {:induction false} AddFromKeeps(p: Pair, orders: seq<Order>, i: nat, side: Side, id: string)
    requires id in SideOf(p, side).index
    ensures PriceLevels.Get(SideOf(AddFrom(p, orders, i).0, side), id) == PriceLevels.Get(SideOf(p, side), id)
    decreases |orders| - i
  {
    if i < |orders| {
      var o := orders[i];
      var (p', r) := AddOne(p, o);
      if r == Pass {
        PriceLevels.AddIndexes(SideOf(p, o.side), o);
        AddFromKeeps(p', orders, i + 1, side, id);
      } else {
        PriceLevels.AddRejects(SideOf(p, o.side), o);
      }
    }
  }

  /** A batch `add` that does not throw leaves every order of the batch held by the side of its type. */
  lemma {:induction false} AddFromHoldsAll(p: Pair, orders: seq<Order>, i: nat)
    requires AddFrom(p, orders, i).1 == Pass
    ensures forall j | i <= j < |orders| ::
              PriceLevels.Get(SideOf(AddFrom(p, orders, i).0, orders[j].side), orders[j].id) == Some(orders[j])
    decreases |orders| - i
  {
    if i < |orders| {
      var o := orders[i];
      var (p', r) := AddOne(p, o);
      PriceLevels.AddIndexes(SideOf(p, o.side), o);
      AddFromHoldsAll(p', orders, i + 1);
      AddFromKeeps(p', orders, i + 1, o.side, o.id);
    }
  }

  /** `add` is not atomic: a batch whose second order repeats the first throws, and keeps the first. */
  lemma AddIsNotAtomic(o: Order)
    ensures AddFrom(Start(), [o, o], 0).1 == Fail(DuplicateOrderId)
    ensures PriceLevels.Get(SideOf(AddFrom(Start(), [o, o], 0).0, o.side), o.id) == Some(o)
  {
    var p1 := AddOne(Start(), o).0;
    assert AddOne(Start(), o).1 == Pass;
    assert AddFrom(Start(), [o, o], 0) == AddFrom(p1, [o, o], 1);
  }

  /** Sides check ids separately, so one batch can put an id on both sides, after which `find` throws. */
  lemma CrossSideIdReachesFind(a: Order, b: Order)
    requires a.id == b.id && a.side == Ask && b.side == Bid
    ensures AddFrom(Start(), [a, b], 0).1 == Pass
    ensures Find(AddFrom(Start(), [a, b], 0).0, a.id) == Err(CrossSideCollision)
  {
    var p1 := AddOne(Start(), a).0;
    assert AddFrom(Start(), [a, b], 0) == AddFrom(p1, [a, b], 1);
    var p2 := AddOne(p1, b).0;
    assert AddFrom(p1, [a, b], 1) == AddFrom(p2, [a, b], 2);
  }

  /** `del`: delete from the side that holds the id; nothing for an unknown id. */
  function Del(p: Pair, id: string): (Pair, Outcome)
  {
    match Find(p, id)
    case Err(e) => (p, Fail(e))
    case Ok(None) => (p, Pass)
    case Ok(Some(side)) =>
      var (l, r) := PriceLevels.Del(SideOf(p, side), id);
      (With(p, side, l), r)
  }

  /**
   * `del` of an id held by one side removes it there, so that `find` no longer
   * sees it, and leaves the other side alone; an unknown id changes nothing,
   * and an id on both sides throws before anything changes.
   */
  lemma DelForgets(p: Pair, id: string)
    ensures Find(p, id).Err? ==> Del(p, id) == (p, Fail(CrossSideCollision))
    ensures Find(p, id) == Ok(None) ==> Del(p, id) == (p, Pass)
    ensures forall side | Find(p, id) == Ok(Some(side)) ::
              && Del(p, id).1 == Pass
              && Find(Del(p, id).0, id) == Ok(None)
              && SideOf(Del(p, id).0, Other(side)) == SideOf(p, Other(side))
              && forall x | x != id :: PriceLevels.Get(SideOf(Del(p, id).0, side), x) == PriceLevels.Get(SideOf(p, side), x)
  {
    if Find(p, id).Ok? && Find(p, id).value.Some? {
      PriceLevels.DelForgets(SideOf(p, Find(p, id).value.value), id);
    }
  }

  /** `trade`: reduce the order on the side that holds the id; nothing for an unknown id. */
  function Trade(p: Pair, id: string, volume: real): (Pair, Outcome)
  {
    match Find(p, id)
    case Err(e) => (p, Fail(e))
    case Ok(None) => (p, Pass)
    case Ok(Some(side)) =>
      var (l, r) := PriceLevels.Reduce(SideOf(p, side), id, volume);
      (With(p, side, l), r)
  }

  /**
   * `trade` of an id held by one side succeeds and is that side's `reduce`:
   * it lowers the order and its level by exactly the traded volume, removing
   * the order only when nothing is left; the side's other orders and the
   * other side stay as they were. An id on neither side changes nothing, and
   * an id on both sides throws in `find` before anything changes.
   */
  lemma TradeReduces(p: Pair, id: string, volume: real)
    ensures Find(p, id).Err? ==> Trade(p, id, volume) == (p, Fail(CrossSideCollision))
    ensures Find(p, id) == Ok(None) ==> Trade(p, id, volume) == (p, Pass)
    ensures forall side | Find(p, id) == Ok(Some(side)) ::
              var o := SideOf(p, side).index[id];
              var q := SideOf(Trade(p, id, volume).0, side);
              && Trade(p, id, volume).1 == Pass
              && (o.volume - volume == 0.0 <==> PriceLevels.Get(q, id).None?)
              && (o.volume - volume != 0.0 ==> PriceLevels.Get(q, id) == Some(o.(volume := o.volume - volume)))
              && SideOf(Trade(p, id, volume).0, Other(side)) == SideOf(p, Other(side))
              && (forall x | x != id :: PriceLevels.Get(q, x) == PriceLevels.Get(SideOf(p, side), x))
              && q == PriceLevels.Reduce(SideOf(p, side), id, volume).0
              && (o.price.text in SideOf(p, side).prices && o.price.text in q.prices ==>
                    q.prices[o.price.text].volume == SideOf(p, side).prices[o.price.text].volume - volume)
  {
    if Find(p, id).Ok? && Find(p, id).value.Some? {
      PriceLevels.ReduceAmounts(SideOf(p, Find(p, id).value.value), id, volume);
    }
  }

  /** The volume invariant on both sides. */
  ghost predicate Balanced(p: Pair)
  {
    PriceLevels.Balanced(p.asks) && PriceLevels.Balanced(p.bids)
  }

  /** A batch of positive orders keeps both sides balanced, however far it gets. */
  lemma {:induction false} AddFromKeepsBalanced(p: Pair, orders: seq<Order>, i: nat)
    requires Balanced(p) && forall j | i <= j < |orders| :: orders[j].volume > 0.0
    ensures Balanced(AddFrom(p, orders, i).0)
    decreases |orders| - i
  {
    if i < |orders| {
      PriceLevels.AddKeepsBalanced(SideOf(p, orders[i].side), orders[i]);
      var (p', r) := AddOne(p, orders[i]);
      if r == Pass {
        AddFromKeepsBalanced(p', orders, i + 1);
      }
    }
  }

  /** `del` keeps both sides balanced. */
  lemma DelKeepsBalanced(p: Pair, id: string)
    requires Balanced(p)
    ensures Balanced(Del(p, id).0)
  {
    if Find(p, id).Ok? && Find(p, id).value.Some? {
      PriceLevels.ReduceAllKeepsBalanced(SideOf(p, Find(p, id).value.value), id);
    }
  }

  /** A `trade` for a positive volume up to the order's own keeps both sides balanced. */
  lemma TradeKeepsBalanced(p: Pair, id: string, volume: real)
    requires Balanced(p)
    requires Find(p, id).Ok? && Find(p, id).value.Some?
    requires 0.0 < volume <= SideOf(p, Find(p, id).value.value).index[id].volume
    ensures Balanced(Trade(p, id, volume).0)
  {
    var l := SideOf(p, Find(p, id).value.value);
    if volume == l.index[id].volume {
      PriceLevels.ReduceAllKeepsBalanced(l, id);
    } else {
      PriceLevels.ReducePartKeepsBalanced(l, id, volume);
    }
  }
}

/** The `OrdersBook` class, which owns its two `Orders` sides. */
module BookSides {
  import opened Types
  import PriceLevels
  import opened SideOrders
  import opened TwoSided

  class OrdersBook {
    const asks: Orders
    const bids: Orders

    ghost function Model(): Pair
      reads this, asks, bids
    {
      Pair(asks.Model(), bids.Model())
    }

    ghost predicate Valid()
      reads this, asks, bids
    {
      asks != bids && asks.Valid() && bids.Valid() && asks.kind == Ask && bids.kind == Bid
    }

    constructor()
      ensures Valid() && Model() == Start() && fresh(asks) && fresh(bids)
    {
      asks := new Orders(Ask);
      bids := new Orders(Bid);
    }

    /** `find`, naming the side instead of returning it. */
    function Find(id: string): (r: Result<Option<Side>>)
      reads this, asks, bids
      ensures r == TwoSided.Find(Model(), id)
    {
      if asks.Has(id) && bids.Has(id) then Err(CrossSideCollision)
      else if asks.Has(id) then Ok(Some(Ask))
      else if bids.Has(id) then Ok(Some(Bid))
      else Ok(None)
    }

    method Add(orders: seq<Order>) returns (outcome: Outcome)
      requires Valid()
      modifies asks, bids
      ensures Valid() && (Model(), outcome) == AddFrom(old(Model()), orders, 0)
    {
      var i := 0;
      while i < |orders|
        invariant Valid() && i <= |orders|
        invariant AddFrom(Model(), orders, i) == AddFrom(old(Model()), orders, 0)
      {
        var r;
        if orders[i].side == Ask {
          r := asks.Add(orders[i]);
        } else {
          r := bids.Add(orders[i]);
        }
        if r.Fail? {
          return r;
        }
        i := i + 1;
      }
      outcome := Pass;
    }

    method Del(id: string) returns (outcome: Outcome)
      requires Valid()
      modifies asks, bids
      ensures Valid() && (Model(), outcome) == TwoSided.Del(old(Model()), id)
    {
      var target := Find(id);
      match target {
        case Err(e) => outcome := Fail(e);
        case Ok(None) => outcome := Pass;
        case Ok(Some(side)) =>
          if side == Ask {
            outcome := asks.Del(id);
          } else {
            outcome := bids.Del(id);
          }
      }
    }

    method Trade(id: string, volume: real) returns (outcome: Outcome)
      requires Valid()
      modifies asks, bids
      ensures Valid() && (Model(), outcome) == TwoSided.Trade(old(Model()), id, volume)
    {
      var target := Find(id);
      match target {
        case Err(e) => outcome := Fail(e);
        case Ok(None) => outcome := Pass;
        case Ok(Some(side)) =>
          if side == Ask {
            outcome := asks.Reduce(id, volume);
          } else {
            outcome := bids.Reduce(id, volume);
          }
      }
    }

    /** `getTopAsks`: the ask levels by descending price, as `PriceLevels.GetPricesFacts` states. */
    function GetTopAsks(count: Option<int>): (r: seq<PriceLevels.Entry>)
      reads this, asks
      ensures r == PriceLevels.GetPrices(asks.Model(), count)
    {
      asks.GetPrices(count)
    }

    /** `getTopBids`: the bid levels by descending price. */
    function GetTopBids(count: Option<int>): (r: seq<PriceLevels.Entry>)
      reads this, bids
      ensures r == PriceLevels.GetPrices(bids.Model(), count)
    {
      bids.GetPrices(count)
    }
  }
}
