/**
 * The `Orders` class of Orders/Orders.ts: one side of the price-level
 * index, whose methods update its maps in place. Each method is proved to
 * leave the object in the state the value model of PriceLevels gives.
 */
module SideOrders {
  import opened Types
  import opened PriceLevels
  import Sorting

  class Orders {
    var index: map<string, Order>
    var prices: map<string, Level>
    /** The insertion order of the keys of `prices`. */
    var keys: seq<Price>
    const kind: Side

    ghost function Model(): Levels
      reads this
    {
      Levels(index, prices, keys, kind)
    }

    ghost predicate Valid()
      reads this
    {
      WellFormed(Model())
    }

    constructor(kind: Side)
      ensures Valid() && Model() == Empty(kind)
    {
      this.kind := kind;
      index := map[];
      prices := map[];
      keys := [];
    }

    /** `total`: under the volume invariant, the number of ids the levels list. */
    function Total(): (n: nat)
      reads this
      ensures Balanced(Model()) ==> n == |AllIds(prices, keys)|
    {
      TotalIfBalanced(Model());
      |index|
    }

    /** `size`: the number of listed prices. */
    function Size(): (n: nat)
      reads this
      requires Valid()
      ensures n == |keys|
    {
      SizeCountsKeys(Model());
      |prices|
    }

    /** `get`. */
    function Get(id: string): (r: Option<Order>)
      reads this
      ensures r == PriceLevels.Get(Model(), id)
    {
      if id in index then Some(index[id]) else None
    }

    /** `has`. */
    predicate Has(id: string)
      reads this
      ensures Has(id) <==> PriceLevels.Get(Model(), id).Some?
    {
      id in index
    }

    method Add(o: Order) returns (outcome: Outcome)
      requires Valid()
      modifies this
      ensures Valid() && (Model(), outcome) == PriceLevels.Add(old(Model()), o)
    {
      AddKeepsShape(Model(), o);
      if o.id in index {
        return Fail(DuplicateOrderId);
      }
      if o.side != kind {
        return Fail(SideMismatch);
      }
      index := index[o.id := o];
      var t := o.price.text;
      if t !in prices {
        prices := prices[t := Level(o.volume, [o.id])];
        keys := keys + [o.price];
      } else {
        var l := prices[t];
        prices := prices[t := Level(l.volume + o.volume, l.ids + [o.id])];
      }
      outcome := Pass;
    }

    method Reduce(id: string, amount: real) returns (outcome: Outcome)
      requires Valid()
      modifies this
      ensures Valid() && (Model(), outcome) == PriceLevels.Reduce(old(Model()), id, amount)
    {
      ReduceKeepsShape(Model(), id, amount);
      if id !in index {
        return Fail(OrderNotFound);
      }
      var o := index[id];
      var remaining := o.volume - amount;
      var deleted := false;
      if remaining == 0.0 {
        index := index - {id};
        deleted := true;
      } else {
        index := index[id := o.(volume := remaining)];
      }
      var t := o.price.text;
      if t in prices {
        var l := prices[t];
        var volume := l.volume - amount;
        var ids := l.ids;
        if deleted {
          var i := IndexOf(ids, o.id);
          ids := SpliceOne(ids, i);
        }
        if volume == 0.0 || ids == [] {
          prices := prices - {t};
          keys := Unlist(keys, t);
        } else {
          prices := prices[t := Level(volume, ids)];
        }
      }
      outcome := Pass;
    }

    method Del(id: string) returns (outcome: Outcome)
      requires Valid()
      modifies this
      ensures Valid() && (Model(), outcome) == PriceLevels.Del(old(Model()), id)
    {
      if id !in index {
        return Fail(OrderNotFound);
      }
      outcome := Reduce(id, index[id].volume);
    }

    /** `getPrices`; what it lists is stated by `PriceLevels.GetPricesFacts`. */
    function GetPrices(count: Option<int>): (r: seq<Entry>)
      reads this
      ensures r == PriceLevels.GetPrices(Model(), count)
    {
      Listing(prices, SlicePrefix(Sorting.Sort(keys, Descending), count))
    }
  }
}
