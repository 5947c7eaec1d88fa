/**
 * The state and operations of one side of the price-level index of
 * Orders/Orders.ts, as values: `_index` maps an id to its order, `_prices`
 * maps a price string to the aggregate `{ volume, ids }` of the orders at
 * that string, and `_type` is the side every order must have.
 *
 * A JavaScript Map lists its keys in insertion order, and `getPrices` sorts
 * them stably, so the order in which levels were created is part of the
 * state: `keys` holds the levels' prices in that order (a deleted level
 * leaves it, a re-created one goes to its end).
 */
module PriceLevels {
  import opened Types
  import Sorting

  /** The `{ volume, ids }` record kept per price string. */
  datatype Level = Level(volume: real, ids: seq<string>)

  /** One row of `getPrices`: a level together with its price. */
  datatype Entry = Entry(price: Price, volume: real, ids: seq<string>)

  datatype Levels = Levels(index: map<string, Order>, prices: map<string, Level>, keys: seq<Price>, kind: Side)

  /** `new Orders(type)`. */
  function Empty(kind: Side): Levels
  {
    Levels(map[], map[], [], kind)
  }

  /** The price strings of `keys`, in order. */
  function Texts(keys: seq<Price>): seq<string>
  {
    seq(|keys|, i requires 0 <= i < |keys| => keys[i].text)
  }

  /** `keys` lists the price of every level exactly once. */
  ghost predicate KeysMatch(prices: map<string, Level>, keys: seq<Price>)
  {
    Distinct(Texts(keys)) && forall t :: t in prices <==> t in Texts(keys)
  }

  ghost predicate WellFormed(s: Levels)
  {
    KeysMatch(s.prices, s.keys)
  }

  lemma DistinctSnoc<T>(s: seq<T>, x: T)
    requires Distinct(s) && x !in s
    ensures Distinct(s + [x])
  {
    forall i, j | 0 <= i < j < |s| + 1 ensures (s + [x])[i] != (s + [x])[j] {
      if j == |s| {
        assert (s + [x])[i] == s[i];
      }
    }
  }

  lemma DistinctCons<T>(x: T, s: seq<T>)
    ensures Distinct([x] + s) <==> x !in s && Distinct(s)
  {
    if Distinct([x] + s) {
      forall i, j | 0 <= i < j < |s| ensures s[i] != s[j] {
        assert ([x] + s)[i + 1] == s[i] && ([x] + s)[j + 1] == s[j];
      }
      assert x !in s by {
        forall i | 0 <= i < |s| ensures s[i] != x {
          assert ([x] + s)[i + 1] == s[i] && ([x] + s)[0] == x;
        }
      }
    }
  }

  // ---------------------------------------------------------------- queries

  /** `get(id)`. */
  function Get(s: Levels, id: string): Option<Order>
  {
    if id in s.index then Some(s.index[id]) else None
  }

  /** `total`: the number of indexed orders. */
  function Total(s: Levels): nat
  {
    |s.index|
  }

  /** `size`: the number of price levels. */
  function Size(s: Levels): nat
  {
    |s.prices|
  }

  /** `size` counts the listed prices. */
  lemma SizeCountsKeys(s: Levels)
    requires WellFormed(s)
    ensures Size(s) == |s.keys|
  {
    DistinctCard(Texts(s.keys));
    assert s.prices.Keys == set t | t in Texts(s.keys);
  }

  // ---------------------------------------------------------------- add

  /**
   * `add`: throw on an indexed id, then on the wrong side, before touching
   * anything; else index the order and count it into the level of its price
   * string, creating the level when the string is new.
   */
  function Add(s: Levels, o: Order): (Levels, Outcome)
  {
    if o.id in s.index then (s, Fail(DuplicateOrderId))
    else if o.side != s.kind then (s, Fail(SideMismatch))
    else
      var t := o.price.text;
      var index := s.index[o.id := o];
      if t !in s.prices then
        (Levels(index, s.prices[t := Level(o.volume, [o.id])], s.keys + [o.price], s.kind), Pass)
      else
        var l := s.prices[t];
        (s.(index := index, prices := s.prices[t := Level(l.volume + o.volume, l.ids + [o.id])]), Pass)
  }

  /** A failed `add` changes nothing; a duplicate id is reported before a side mismatch. */
  lemma AddRejects(s: Levels, o: Order)
    ensures Add(s, o).1 == Fail(DuplicateOrderId) <==> o.id in s.index
    ensures Add(s, o).1 == Fail(SideMismatch) <==> o.id !in s.index && o.side != s.kind
    ensures Add(s, o).1.Fail? ==> Add(s, o).0 == s
  {
  }

  /** A successful `add` indexes the order and adds one to `total`. */
  lemma AddIndexes(s: Levels, o: Order)
    requires Add(s, o).1 == Pass
    ensures Get(Add(s, o).0, o.id) == Some(o) && Total(Add(s, o).0) == Total(s) + 1
    ensures forall id | id != o.id :: Get(Add(s, o).0, id) == Get(s, id)
  {
    AddResult(s, o);
    assert s.index[o.id := o].Keys == s.index.Keys + {o.id};
  }

  /**
   * A successful `add` at a new price string opens a level of just this
   * order, one more for `size`; at a known one it grows that level by the
   * order's volume and appends its id. Other levels stay as they are.
   */
  lemma AddLevels(s: Levels, o: Order)
    requires Add(s, o).1 == Pass
    ensures var s' := Add(s, o).0;
            && o.price.text in s'.prices
            && (o.price.text !in s.prices ==>
                  s'.prices[o.price.text] == Level(o.volume, [o.id]) && Size(s') == Size(s) + 1)
            && (o.price.text in s.prices ==>
                  && s'.prices[o.price.text].volume == s.prices[o.price.text].volume + o.volume
                  && s'.prices[o.price.text].ids == s.prices[o.price.text].ids + [o.id]
                  && Size(s') == Size(s))
            && (forall t | t in s.prices && t != o.price.text :: t in s'.prices && s'.prices[t] == s.prices[t])
  {
    var t := o.price.text;
    if t !in s.prices {
      assert Add(s, o).0.prices == s.prices[t := Level(o.volume, [o.id])];
      assert s.prices[t := Level(o.volume, [o.id])].Keys == s.prices.Keys + {t};
    } else {
      var l := s.prices[t];
      assert Add(s, o).0.prices == s.prices[t := Level(l.volume + o.volume, l.ids + [o.id])];
      assert s.prices[t := Level(l.volume + o.volume, l.ids + [o.id])].Keys == s.prices.Keys;
    }
  }

  lemma AddKeepsShape(s: Levels, o: Order)
    requires WellFormed(s)
    ensures WellFormed(Add(s, o).0)
  {
    if Add(s, o).1 == Pass && o.price.text !in s.prices {
      assert Texts(s.keys + [o.price]) == Texts(s.keys) + [o.price.text];
      DistinctSnoc(Texts(s.keys), o.price.text);
    }
  }

  // ---------------------------------------------------------------- reduce

  /** `ids.indexOf(id)`: the first position of `id`, or -1. */
  function IndexOf(ids: seq<string>, id: string): (i: int)
    ensures -1 <= i < |ids|
    ensures i == -1 <==> id !in ids
    ensures i >= 0 ==> ids[i] == id && id !in ids[..i]
  {
    if ids == [] then -1
    else if ids[0] == id then 0
    else
      var j := IndexOf(ids[1..], id);
      assert j >= 0 ==> ids[1..][..j] == ids[1..j + 1];
      if j == -1 then -1 else j + 1
  }

  /** `ids.splice(i, 1)`: remove the element at `i`, a negative `i` counting back from the end. */
  function SpliceOne(ids: seq<string>, i: int): seq<string>
  {
    var start := if i < 0 then (if |ids| + i < 0 then 0 else |ids| + i) else (if i > |ids| then |ids| else i);
    if start < |ids| then ids[..start] + ids[start + 1..] else ids
  }

  /** `_prices.delete(t)` on the key order. */
  function Unlist(keys: seq<Price>, t: string): seq<Price>
  {
    if keys == [] then []
    else (if keys[0].text == t then [] else [keys[0]]) + Unlist(keys[1..], t)
  }

  /**
   * `reduce`: throw on an unknown id; else lower the order's volume, and drop
   * it from the index only if exactly nothing is left. Its level, if there
   * is one, loses the same amount and, for a dropped order, the id found by
   * `indexOf`; the level goes when its volume is exactly zero or no id is left.
   */
  function Reduce(s: Levels, id: string, amount: real): (Levels, Outcome)
  {
    if id !in s.index then (s, Fail(OrderNotFound))
    else
      var o := s.index[id];
      var remaining := o.volume - amount;
      var deleted := remaining == 0.0;
      var index := if deleted then s.index - {id} else s.index[id := o.(volume := remaining)];
      var t := o.price.text;
      if t !in s.prices then (s.(index := index), Pass)
      else
        var l := s.prices[t];
        var volume := l.volume - amount;
        var ids := if deleted then SpliceOne(l.ids, IndexOf(l.ids, o.id)) else l.ids;
        if volume == 0.0 || ids == [] then (Levels(index, s.prices - {t}, Unlist(s.keys, t), s.kind), Pass)
        else (s.(index := index, prices := s.prices[t := Level(volume, ids)]), Pass)
  }

  /**
   * `reduce` of an indexed id succeeds and lowers the order and its level by
   * exactly `amount`; the order leaves the index only when nothing is left of
   * it, and its level goes exactly when the level's volume reaches zero or its
   * ids run out.
   * Every other order keeps its index entry, and a level that stays keeps its
   * ids, less the order's own when it is dropped.
   */
  lemma ReduceAmounts(s: Levels, id: string, amount: real)
    requires id in s.index
    ensures var o := s.index[id];
            var s' := Reduce(s, id, amount).0;
            var t := o.price.text;
            && Reduce(s, id, amount).1 == Pass
            && (Get(s', id).None? <==> o.volume - amount == 0.0)
            && (Get(s', id).Some? ==> Get(s', id) == Some(o.(volume := o.volume - amount)))
            && (t in s.prices && t in s'.prices ==> s'.prices[t].volume == s.prices[t].volume - amount)
            && (t in s.prices ==>
                  (t !in s'.prices <==>
                     s.prices[t].volume - amount == 0.0 ||
                     (if o.volume - amount == 0.0 then SpliceOne(s.prices[t].ids, IndexOf(s.prices[t].ids, o.id)) else s.prices[t].ids) == []))
            && (forall u | u in s.prices && u != t :: u in s'.prices && s'.prices[u] == s.prices[u])
    ensures forall x | x != id :: Get(Reduce(s, id, amount).0, x) == Get(s, x)
    ensures var o := s.index[id];
            var s' := Reduce(s, id, amount).0;
            var t := o.price.text;
            t in s'.prices ==>
              && t in s.prices
              && (o.volume - amount != 0.0 ==> s'.prices[t].ids == s.prices[t].ids)
              && (o.volume - amount == 0.0 && o.id in s.prices[t].ids ==>
                    s'.prices[t].ids == RemoveId(s.prices[t].ids, o.id))
  {
    ReduceFrame(s, id, amount);
  }

  /** What `reduce` keeps: the other ids' entries, and a surviving level's ids less at most the order's own. */
  lemma ReduceFrame(s: Levels, id: string, amount: real)
    requires id in s.index
    ensures forall x | x != id :: Get(Reduce(s, id, amount).0, x) == Get(s, x)
    ensures var o := s.index[id];
            var s' := Reduce(s, id, amount).0;
            var t := o.price.text;
            t in s'.prices ==>
              && t in s.prices
              && (o.volume - amount != 0.0 ==> s'.prices[t].ids == s.prices[t].ids)
              && (o.volume - amount == 0.0 && o.id in s.prices[t].ids ==>
                    s'.prices[t].ids == RemoveId(s.prices[t].ids, o.id))
  {
    var o := s.index[id];
    var t := o.price.text;
    if o.volume - amount == 0.0 && t in s.prices && o.id in s.prices[t].ids {
      RemoveIdAgrees(s.prices[t].ids, o.id);
    }
  }

  /** `reduce` of an unknown id throws and changes nothing. */
  lemma ReduceUnknown(s: Levels, id: string, amount: real)
    requires id !in s.index
    ensures Reduce(s, id, amount) == (s, Fail(OrderNotFound))
  {
  }

  lemma TextsCons(p: Price, keys: seq<Price>)
    ensures Texts([p] + keys) == [p.text] + Texts(keys)
  {
  }

  /** Unlisting `t` removes exactly the price string `t` and keeps the others distinct. */
  lemma {:induction false} UnlistTexts(keys: seq<Price>, t: string)
    ensures forall u :: u in Texts(Unlist(keys, t)) <==> u in Texts(keys) && u != t
    ensures Distinct(Texts(keys)) ==> Distinct(Texts(Unlist(keys, t)))
    decreases |keys|
  {
    if keys != [] {
      var rest := Unlist(keys[1..], t);
      UnlistTexts(keys[1..], t);
      assert keys == [keys[0]] + keys[1..];
      TextsCons(keys[0], keys[1..]);
      DistinctCons(keys[0].text, Texts(keys[1..]));
      if keys[0].text == t {
        assert Unlist(keys, t) == rest;
      } else {
        assert Unlist(keys, t) == [keys[0]] + rest;
        TextsCons(keys[0], rest);
        DistinctCons(keys[0].text, Texts(rest));
      }
    }
  }

  lemma ReduceKeepsShape(s: Levels, id: string, amount: real)
    requires WellFormed(s)
    ensures WellFormed(Reduce(s, id, amount).0)
  {
    if id in s.index {
      var t := s.index[id].price.text;
      UnlistTexts(s.keys, t);
    }
  }

  // ---------------------------------------------------------------- del

  /** `del`: throw on an unknown id, else `reduce` it by its whole volume. */
  function Del(s: Levels, id: string): (Levels, Outcome)
  {
    if id !in s.index then (s, Fail(OrderNotFound)) else Reduce(s, id, s.index[id].volume)
  }

  /** After `del` of an indexed id, `get` gives nothing and `has` is false, and every other id gets what it got before; an unknown id throws. */
  lemma DelForgets(s: Levels, id: string)
    ensures id !in s.index ==> Del(s, id) == (s, Fail(OrderNotFound))
    ensures id in s.index ==> Del(s, id).1 == Pass && Get(Del(s, id).0, id) == None
    ensures forall x | x != id :: Get(Del(s, id).0, x) == Get(s, x)
    ensures id in s.index && s.index[id].price.text in s.prices ==>
              var o := s.index[id];
              var l := s.prices[o.price.text];
              (o.price.text !in Del(s, id).0.prices <==>
                 l.volume - o.volume == 0.0 || SpliceOne(l.ids, IndexOf(l.ids, o.id)) == [])
    ensures id in s.index && s.index[id].price.text in s.prices && s.prices[s.index[id].price.text].ids == [id] ==>
              s.index[id].price.text !in Del(s, id).0.prices
  {
    if id in s.index {
      ReduceAmounts(s, id, s.index[id].volume);
    }
  }

  /**
   * While the volume invariant holds, `del` removes the order's level exactly
   * when the order is the only one it lists: the other orders' volumes are
   * positive, so what is left of the level's volume is zero only when no
   * order is left.
   */
  lemma DelDropsLevel(s: Levels, id: string)
    requires Balanced(s) && id in s.index
    ensures s.index[id].price.text in s.prices
    ensures var t := s.index[id].price.text;
            t !in Del(s, id).0.prices <==> s.prices[t].ids == [id]
  {
    var o := s.index[id];
    var t := o.price.text;
    assert Placed(s, id) && Backed(s, t);
    var l := s.prices[t];
    var k := IndexOf(l.ids, id);
    var rest := l.ids[..k] + l.ids[k + 1..];
    DropFacts(l.ids, k);
    SumRemove(s.index, l.ids, k);
    forall x | x in rest ensures x in s.index && s.index[x].volume > 0.0 {
      assert Placed(s, x);
    }
    SumPositive(s.index, rest);
    assert SpliceOne(l.ids, k) == rest;
    ReduceAmounts(s, id, o.volume);
    if rest == [] {
      assert l.ids == [id];
    } else {
      assert l.ids != [id];
    }
  }

  // ---------------------------------------------------------------- getPrices

  /** The comparator of `getPrices`: descending value. */
  function Descending(p: Price): real
  {
    -p.value
  }

  /** The `reduce` of `getPrices`: an entry per price that has a level. */
  function Listing(prices: map<string, Level>, ps: seq<Price>): seq<Entry>
  {
    if ps == [] then []
    else
      (if ps[0].text in prices then [Entry(ps[0], prices[ps[0].text].volume, prices[ps[0].text].ids)] else [])
      + Listing(prices, ps[1..])
  }

  /** `getPrices(count)`: the level prices sorted by descending value, cut by `slice(0, count)`, with their levels. */
  function GetPrices(s: Levels, count: Option<int>): seq<Entry>
  {
    Listing(s.prices, SlicePrefix(Sorting.Sort(s.keys, Descending), count))
  }

  lemma {:induction false} ListingAll(prices: map<string, Level>, ps: seq<Price>)
    requires forall i | 0 <= i < |ps| :: ps[i].text in prices
    ensures |Listing(prices, ps)| == |ps|
    ensures forall i | 0 <= i < |ps| :: Listing(prices, ps)[i] == Entry(ps[i], prices[ps[i].text].volume, prices[ps[i].text].ids)
    decreases |ps|
  {
    if ps != [] {
      ListingAll(prices, ps[1..]);
    }
  }

  /**
   * `getPrices` lists `min(count, size)` levels (as `slice` counts), by
   * descending price value, each with its level's volume and ids; levels of
   * equal value keep their creation order, and without a count every level
   * is listed once.
   */
  lemma GetPricesFacts(s: Levels, count: Option<int>)
    requires WellFormed(s)
    ensures var r := GetPrices(s, count);
            && |r| == PrefixLength(|s.keys|, count)
            && (forall i, j | 0 <= i < j < |r| :: r[i].price.value >= r[j].price.value)
            && (forall i | 0 <= i < |r| :: r[i].price in s.keys && r[i].price.text in s.prices
                  && r[i].volume == s.prices[r[i].price.text].volume && r[i].ids == s.prices[r[i].price.text].ids)
            && (count.None? ==>
                  && multiset(Prices(r)) == multiset(s.keys)
                  && forall v :: Sorting.Tier(Prices(r), Descending, v) == Sorting.Tier(s.keys, Descending, v))
            && |r| <= |GetPrices(s, None)| && r == GetPrices(s, None)[..|r|]
  {
    var sorted := Sorting.Sort(s.keys, Descending);
    SortedLevels(s, sorted);
    var cut := sorted[..PrefixLength(|sorted|, count)];
    var r := GetPrices(s, count);
    ListingFacts(s, cut, r);
    ListingPrefix(s, sorted, |cut|);
    assert sorted[..PrefixLength(|sorted|, None)] == sorted;
    if count.None? {
      assert cut == sorted;
      Sorting.SortFacts(s.keys, Descending);
    }
  }

  /** The sorted prices of a well-formed side are its level prices, by descending value. */
  lemma SortedLevels(s: Levels, sorted: seq<Price>)
    requires WellFormed(s)
    requires sorted == Sorting.Sort(s.keys, Descending)
    ensures |sorted| == |s.keys|
    ensures forall i | 0 <= i < |sorted| :: sorted[i] in s.keys && sorted[i].text in s.prices
    ensures forall i, j | 0 <= i < j < |sorted| :: sorted[i].value >= sorted[j].value
  {
    Sorting.SortFacts(s.keys, Descending);
    forall i | 0 <= i < |sorted| ensures sorted[i] in s.keys && sorted[i].text in s.prices {
      assert sorted[i] in multiset(s.keys);
      var j :| 0 <= j < |s.keys| && s.keys[j] == sorted[i];
      assert Texts(s.keys)[j] == sorted[i].text;
    }
    forall i, j | 0 <= i < j < |sorted| ensures sorted[i].value >= sorted[j].value {
      assert Descending(sorted[i]) <= Descending(sorted[j]);
    }
  }

  /** Cutting the prices first lists a prefix of the full listing: the top levels. */
  lemma ListingPrefix(s: Levels, ps: seq<Price>, n: nat)
    requires n <= |ps| && forall i | 0 <= i < |ps| :: ps[i].text in s.prices
    ensures |Listing(s.prices, ps)| == |ps|
    ensures Listing(s.prices, ps[..n]) == Listing(s.prices, ps)[..n]
  {
    ListingAll(s.prices, ps);
    ListingAll(s.prices, ps[..n]);
  }

  /** Listing prices that all have levels gives one entry per price, in order, with its level. */
  lemma ListingFacts(s: Levels, cut: seq<Price>, r: seq<Entry>)
    requires forall i | 0 <= i < |cut| :: cut[i] in s.keys && cut[i].text in s.prices
    requires forall i, j | 0 <= i < j < |cut| :: cut[i].value >= cut[j].value
    requires r == Listing(s.prices, cut)
    ensures |r| == |cut| && Prices(r) == cut
    ensures forall i, j | 0 <= i < j < |r| :: r[i].price.value >= r[j].price.value
    ensures forall i | 0 <= i < |r| :: r[i].price in s.keys && r[i].price.text in s.prices
              && r[i].volume == s.prices[r[i].price.text].volume && r[i].ids == s.prices[r[i].price.text].ids
  {
    ListingAll(s.prices, cut);
    assert Prices(r) == cut;
  }

  function Prices(r: seq<Entry>): seq<Price>
  {
    seq(|r|, i requires 0 <= i < |r| => r[i].price)
  }

  // ---------------------------------------------------------------- the volume invariant

  /** The exact sum of the volumes of the indexed orders among `ids`. */
  function Sum(index: map<string, Order>, ids: seq<string>): real
  {
    if ids == [] then 0.0 else (if ids[0] in index then index[ids[0]].volume else 0.0) + Sum(index, ids[1..])
  }

  /** The indexed order `id` is positive, of this side, and listed in the level of its price string. */
  ghost predicate Placed(s: Levels, id: string)
  {
    id in s.index &&
    var o := s.index[id];
    o.id == id && o.side == s.kind && o.volume > 0.0 && o.price.text in s.prices && id in s.prices[o.price.text].ids
  }

  /** The level at `t` lists distinct indexed orders at `t`, and its volume is their exact sum. */
  ghost predicate Backed(s: Levels, t: string)
  {
    t in s.prices &&
    var l := s.prices[t];
    && l.ids != [] && Distinct(l.ids)
    && (forall id | id in l.ids :: id in s.index && s.index[id].price.text == t)
    && l.volume == Sum(s.index, l.ids)
  }

  /**
   * What holds while every added volume is positive and every reduction is
   * positive and at most the order's volume: each level's volume is the sum of
   * its orders' volumes, and the levels' ids are exactly the indexed ids.
   */
  ghost predicate Balanced(s: Levels)
  {
    && WellFormed(s)
    && (forall id | id in s.index :: Placed(s, id))
    && (forall t | t in s.prices :: Backed(s, t))
  }

  lemma EmptyBalanced(kind: Side)
    ensures Balanced(Empty(kind))
  {
  }

  lemma {:induction false} SumAgree(i1: map<string, Order>, i2: map<string, Order>, ids: seq<string>)
    requires forall id | id in ids :: (id in i1 <==> id in i2) && (id in i1 ==> i1[id].volume == i2[id].volume)
    ensures Sum(i1, ids) == Sum(i2, ids)
    decreases |ids|
  {
    if ids != [] {
      SumAgree(i1, i2, ids[1..]);
    }
  }

  lemma {:induction false} SumAppend(index: map<string, Order>, ids: seq<string>, id: string)
    ensures Sum(index, ids + [id]) == Sum(index, ids) + (if id in index then index[id].volume else 0.0)
    decreases |ids|
  {
    if ids == [] {
      assert [id][1..] == [];
    } else {
      assert (ids + [id])[1..] == ids[1..] + [id];
      SumAppend(index, ids[1..], id);
    }
  }

  lemma {:induction false} SumConcat(index: map<string, Order>, a: seq<string>, b: seq<string>)
    ensures Sum(index, a + b) == Sum(index, a) + Sum(index, b)
    decreases |a|
  {
    if a != [] {
      SumConcat(index, a[1..], b);
      assert (a + b)[0] == a[0] && (a + b)[1..] == a[1..] + b;
    } else {
      assert a + b == b;
    }
  }

  lemma SumRemove(index: map<string, Order>, ids: seq<string>, k: nat)
    requires k < |ids|
    ensures Sum(index, ids) == Sum(index, ids[..k] + ids[k + 1..]) + (if ids[k] in index then index[ids[k]].volume else 0.0)
  {
    var tail := [ids[k]] + ids[k + 1..];
    assert ids == ids[..k] + tail;
    assert tail[0] == ids[k] && tail[1..] == ids[k + 1..];
    SumConcat(index, ids[..k], tail);
    SumConcat(index, ids[..k], ids[k + 1..]);
  }

  lemma {:induction false} SumPositive(index: map<string, Order>, ids: seq<string>)
    requires forall id | id in ids :: id in index && index[id].volume > 0.0
    ensures Sum(index, ids) >= 0.0
    ensures ids != [] ==> Sum(index, ids) > 0.0
    decreases |ids|
  {
    if ids != [] {
      SumPositive(index, ids[1..]);
    }
  }

  /** Removing the element at `k` from a distinct sequence. */
  lemma DropFacts(ids: seq<string>, k: nat)
    requires Distinct(ids) && k < |ids|
    ensures var r := ids[..k] + ids[k + 1..];
            && Distinct(r) && ids[k] !in r && |r| == |ids| - 1
            && (forall x | x in r :: x in ids)
            && (forall x | x in ids && x != ids[k] :: x in r)
  {
    var r := ids[..k] + ids[k + 1..];
    forall i | 0 <= i < |r| ensures r[i] == ids[if i < k then i else i + 1] {
    }
    forall x | x in ids && x != ids[k] ensures x in r {
      var i :| 0 <= i < |ids| && ids[i] == x;
      assert r[if i < k then i else i - 1] == x;
    }
  }

  /** `add` of a positive order of this side with a new id keeps the invariant. */
  lemma AddKeepsBalanced(s: Levels, o: Order)
    requires Balanced(s) && o.volume > 0.0
    ensures Balanced(Add(s, o).0)
  {
    AddKeepsShape(s, o);
    if o.id !in s.index && o.side == s.kind {
      AddResult(s, o);
      if o.price.text in s.prices {
        JoinBalanced(s, o, Add(s, o).0);
      } else {
        OpenBalanced(s, o, Add(s, o).0);
      }
    }
  }

  lemma AddResult(s: Levels, o: Order)
    requires o.id !in s.index && o.side == s.kind
    ensures Add(s, o).0.index == s.index[o.id := o] && Add(s, o).0.kind == s.kind
    ensures o.price.text in s.prices ==>
              var l := s.prices[o.price.text];
              Add(s, o).0.prices == s.prices[o.price.text := Level(l.volume + o.volume, l.ids + [o.id])]
    ensures o.price.text !in s.prices ==> Add(s, o).0.prices == s.prices[o.price.text := Level(o.volume, [o.id])]
  {
  }

  lemma JoinBalanced(s: Levels, o: Order, s': Levels)
    requires Balanced(s) && o.volume > 0.0 && o.id !in s.index && o.side == s.kind && o.price.text in s.prices
    requires WellFormed(s') && s'.kind == s.kind && s'.index == s.index[o.id := o]
    requires var l := s.prices[o.price.text];
             s'.prices == s.prices[o.price.text := Level(l.volume + o.volume, l.ids + [o.id])]
    ensures Balanced(s')
  {
    var t := o.price.text;
    var l := s.prices[t];
    forall id | id in s'.index ensures Placed(s', id) {
      if id != o.id {
        assert Placed(s, id);
      }
    }
    OthersBacked(s, s', t);
    assert Backed(s, t);
    SumAgree(s.index, s'.index, l.ids);
    SumAppend(s'.index, l.ids, o.id);
    DistinctSnoc(l.ids, o.id);
    assert Backed(s', t);
  }

  lemma OpenBalanced(s: Levels, o: Order, s': Levels)
    requires Balanced(s) && o.volume > 0.0 && o.id !in s.index && o.side == s.kind && o.price.text !in s.prices
    requires WellFormed(s') && s'.kind == s.kind && s'.index == s.index[o.id := o]
    requires s'.prices == s.prices[o.price.text := Level(o.volume, [o.id])]
    ensures Balanced(s')
  {
    forall id | id in s'.index ensures Placed(s', id) {
      if id != o.id {
        assert Placed(s, id);
      }
    }
    OthersBacked(s, s', o.price.text);
    assert Sum(s'.index, [o.id]) == o.volume + Sum(s'.index, []);
    assert Backed(s', o.price.text);
  }

  /** A partial `reduce`, positive and below the order's volume, keeps the invariant. */
  lemma ReducePartKeepsBalanced(s: Levels, id: string, amount: real)
    requires Balanced(s) && id in s.index && 0.0 < amount < s.index[id].volume
    ensures Balanced(Reduce(s, id, amount).0)
  {
    PartSums(s, id, amount);
    PartResult(s, id, amount);
    ReduceKeepsShape(s, id, amount);
    PartBalanced(s, id, amount, Reduce(s, id, amount).0);
  }

  /** The level of a partially reduced order loses exactly the amount, and keeps a positive volume. */
  lemma PartSums(s: Levels, id: string, amount: real)
    requires Balanced(s) && id in s.index && 0.0 < amount < s.index[id].volume
    ensures s.index[id].price.text in s.prices
    ensures var l := s.prices[s.index[id].price.text];
            && l.ids != []
            && Sum(s.index[id := s.index[id].(volume := s.index[id].volume - amount)], l.ids) == l.volume - amount
            && l.volume - amount > 0.0
  {
    var o := s.index[id];
    var t := o.price.text;
    assert Placed(s, id) && Backed(s, t);
    var l := s.prices[t];
    var k := IndexOf(l.ids, id);
    var rest := l.ids[..k] + l.ids[k + 1..];
    DropFacts(l.ids, k);
    var index' := s.index[id := o.(volume := o.volume - amount)];
    SumRemove(s.index, l.ids, k);
    SumRemove(index', l.ids, k);
    SumAgree(s.index, index', rest);
    forall x | x in rest ensures x in s.index && s.index[x].volume > 0.0 {
      assert Placed(s, x);
    }
    SumPositive(s.index, rest);
  }

  lemma PartResult(s: Levels, id: string, amount: real)
    requires id in s.index && s.index[id].volume - amount != 0.0 && s.index[id].price.text in s.prices
    requires var l := s.prices[s.index[id].price.text]; l.ids != [] && l.volume - amount != 0.0
    ensures var l := s.prices[s.index[id].price.text];
            Reduce(s, id, amount).0 == s.(index := s.index[id := s.index[id].(volume := s.index[id].volume - amount)],
                                          prices := s.prices[s.index[id].price.text := Level(l.volume - amount, l.ids)])
  {
  }

  lemma PartBalanced(s: Levels, id: string, amount: real, s': Levels)
    requires Balanced(s) && id in s.index && 0.0 < amount < s.index[id].volume
    requires s.index[id].price.text in s.prices
    requires var l := s.prices[s.index[id].price.text];
             Sum(s.index[id := s.index[id].(volume := s.index[id].volume - amount)], l.ids) == l.volume - amount
    requires WellFormed(s') && s'.kind == s.kind
    requires s'.index == s.index[id := s.index[id].(volume := s.index[id].volume - amount)]
    requires var l := s.prices[s.index[id].price.text];
             s'.prices == s.prices[s.index[id].price.text := Level(l.volume - amount, l.ids)]
    ensures Balanced(s')
  {
    var t := s.index[id].price.text;
    forall x | x in s'.index ensures Placed(s', x) {
      assert Placed(s, x);
    }
    OthersBacked(s, s', t);
    assert Backed(s, t);
    assert Backed(s', t);
  }

  /** A `reduce` by exactly the order's volume keeps the invariant: the order and its id go, and an emptied level with them. */
  lemma ReduceAllKeepsBalanced(s: Levels, id: string)
    requires Balanced(s) && id in s.index
    ensures Balanced(Reduce(s, id, s.index[id].volume).0)
  {
    var o := s.index[id];
    var t := o.price.text;
    assert Placed(s, id) && Backed(s, t);
    var l := s.prices[t];
    var k := IndexOf(l.ids, id);
    var rest := l.ids[..k] + l.ids[k + 1..];
    DropFacts(l.ids, k);
    var index' := s.index - {id};
    SumRemove(s.index, l.ids, k);
    SumAgree(s.index, index', rest);
    forall x | x in rest ensures x in index' && index'[x].volume > 0.0 {
      assert Placed(s, x);
    }
    SumPositive(index', rest);
    ReduceKeepsShape(s, id, o.volume);
    assert SpliceOne(l.ids, k) == rest;
    if rest == [] {
      assert l.ids == [id];
      DropLevelBalanced(s, id, Reduce(s, id, o.volume).0);
    } else {
      DropBalanced(s, id, rest, Reduce(s, id, o.volume).0);
    }
  }

  lemma DropBalanced(s: Levels, id: string, rest: seq<string>, s': Levels)
    requires Balanced(s) && id in s.index && s.index[id].price.text in s.prices
    requires var l := s.prices[s.index[id].price.text];
             && rest != [] && Distinct(rest) && id !in rest
             && (forall x | x in rest :: x in l.ids)
             && (forall x | x in l.ids && x != id :: x in rest)
    requires WellFormed(s') && s'.kind == s.kind && s'.index == s.index - {id}
    requires var l := s.prices[s.index[id].price.text];
             && Sum(s'.index, rest) == l.volume - s.index[id].volume
             && s'.prices == s.prices[s.index[id].price.text := Level(l.volume - s.index[id].volume, rest)]
    ensures Balanced(s')
  {
    var t := s.index[id].price.text;
    OthersBacked(s, s', t);
    forall x | x in s'.index ensures Placed(s', x) {
      assert Placed(s, x);
      if s.index[x].price.text == t {
        assert x in s.prices[t].ids;
      }
    }
    assert Backed(s, t);
    assert Backed(s', t);
  }

  /** Levels other than `t` stay backed when the orders outside `t` are kept as they are. */
  lemma OthersBacked(s: Levels, s': Levels, t: string)
    requires Balanced(s)
    requires forall u | u in s'.prices && u != t :: u in s.prices && s'.prices[u] == s.prices[u]
    requires forall x | x in s.index && s.index[x].price.text != t :: x in s'.index && s'.index[x] == s.index[x]
    ensures forall u | u in s'.prices && u != t :: Backed(s', u)
  {
    forall u | u in s'.prices && u != t ensures Backed(s', u) {
      assert Backed(s, u);
      SumAgree(s.index, s'.index, s.prices[u].ids);
    }
  }

  lemma DropLevelBalanced(s: Levels, id: string, s': Levels)
    requires Balanced(s) && id in s.index && s.index[id].price.text in s.prices
    requires s.prices[s.index[id].price.text].ids == [id]
    requires WellFormed(s') && s'.kind == s.kind && s'.index == s.index - {id}
    requires s'.prices == s.prices - {s.index[id].price.text}
    ensures Balanced(s')
  {
    DropLevelPlaced(s, id, s');
    DropLevelBacked(s, id, s');
  }

  lemma DropLevelPlaced(s: Levels, id: string, s': Levels)
    requires Balanced(s) && id in s.index && s.index[id].price.text in s.prices
    requires s.prices[s.index[id].price.text].ids == [id]
    requires s'.kind == s.kind && s'.index == s.index - {id}
    requires s'.prices == s.prices - {s.index[id].price.text}
    ensures forall x | x in s'.index :: Placed(s', x)
  {
    forall x | x in s'.index ensures Placed(s', x) {
      assert Placed(s, x);
    }
  }

  lemma DropLevelBacked(s: Levels, id: string, s': Levels)
    requires Balanced(s) && id in s.index && s.index[id].price.text in s.prices
    requires s'.index == s.index - {id}
    requires s'.prices == s.prices - {s.index[id].price.text}
    ensures forall u | u in s'.prices :: Backed(s', u)
  {
    forall u | u in s'.prices ensures Backed(s', u) {
      assert Backed(s, u);
      assert forall x | x in s.prices[u].ids :: x in s.index && s.index[x].price.text == u;
      SumAgree(s.index, s'.index, s.prices[u].ids);
    }
  }

  /** Every level's ids, level by level in key order. */
  function AllIds(prices: map<string, Level>, keys: seq<Price>): seq<string>
  {
    if keys == [] then []
    else AllIds(prices, keys[..|keys| - 1]) + (if keys[|keys| - 1].text in prices then prices[keys[|keys| - 1].text].ids else [])
  }

  lemma {:induction false} AllIdsMembers(s: Levels, keys: seq<Price>, id: string)
    requires Balanced(s)
    requires forall t | t in Texts(keys) :: t in s.prices
    ensures id in AllIds(s.prices, keys) <==> id in s.index && s.index[id].price.text in Texts(keys)
    decreases |keys|
  {
    if keys != [] {
      var init := keys[..|keys| - 1];
      var t := keys[|keys| - 1].text;
      assert Texts(keys) == Texts(init) + [t];
      AllIdsMembers(s, init, id);
      assert Backed(s, t);
      if id in s.index && s.index[id].price.text == t {
        assert Placed(s, id);
      }
    }
  }

  lemma {:induction false} AllIdsDistinct(s: Levels, keys: seq<Price>)
    requires Balanced(s)
    requires forall t | t in Texts(keys) :: t in s.prices
    requires Distinct(Texts(keys))
    ensures Distinct(AllIds(s.prices, keys))
    decreases |keys|
  {
    if keys != [] {
      var init := keys[..|keys| - 1];
      var t := keys[|keys| - 1].text;
      assert Texts(keys) == Texts(init) + [t];
      forall i | 0 <= i < |init| ensures Texts(init)[i] == Texts(keys)[i] {
      }
      assert t !in Texts(init) by {
        forall i | 0 <= i < |init| ensures Texts(init)[i] != t {
          assert Texts(keys)[i] != Texts(keys)[|keys| - 1];
        }
      }
      AllIdsDistinct(s, init);
      var a := AllIds(s.prices, init);
      var b := s.prices[t].ids;
      assert Backed(s, t);
      forall i, j | 0 <= i < j < |a + b| ensures (a + b)[i] != (a + b)[j] {
        if i < |a| && j >= |a| {
          var x := (a + b)[j];
          assert x in b;
          AllIdsMembers(s, init, x);
          assert (a + b)[i] in a;
        }
      }
    }
  }

  /** Under the invariant `total` counts exactly the ids listed in the levels. */
  lemma TotalCountsIds(s: Levels)
    requires Balanced(s)
    ensures Total(s) == |AllIds(s.prices, s.keys)|
  {
    var all := AllIds(s.prices, s.keys);
    AllIdsDistinct(s, s.keys);
    forall id ensures id in s.index <==> id in all {
      AllIdsMembers(s, s.keys, id);
      if id in s.index {
        assert Placed(s, id);
      }
    }
    DistinctCard(all);
    assert s.index.Keys == set x | x in all;
  }

  lemma TotalIfBalanced(s: Levels)
    ensures Balanced(s) ==> Total(s) == |AllIds(s.prices, s.keys)|
  {
    if Balanced(s) {
      TotalCountsIds(s);
    }
  }

  lemma {:induction false} DistinctCard(s: seq<string>)
    requires Distinct(s)
    ensures |set x | x in s| == |s|
    decreases |s|
  {
    if s != [] {
      var init := s[..|s| - 1];
      DistinctCard(init);
      assert (set x | x in s) == (set x | x in init) + {s[|s| - 1]};
      assert s[|s| - 1] !in init;
    }
  }

  // ---------------------------------------------------------------- Orders.ts:110-111

  /**
   * A run of `Orders` calls on which the splice removes the wrong id: `a` is
   * over-reduced, so its level reaches zero and goes while `a` stays indexed
   * with a negative volume; `c` and `d` then open a new level at the same
   * price; deleting `b`, which that level does not list, drops `d` from it,
   * although `d` stays indexed. `RemoveId` would have kept both.
   *
   * As written, the id goes by `ids.splice(ids.indexOf(id), 1)`; for a
   * missing id `indexOf` is -1, and `splice(-1, 1)` removes the last id.
   */
  lemma SpliceDropsAnotherOrder()
    ensures var p := Price("1", 1.0);
            var s1 := Add(Add(Empty(Ask), Order("a", p, 1.0, Ask)).0, Order("b", p, 1.0, Ask)).0;
            var s2 := Reduce(s1, "a", 2.0).0;
            var s3 := Add(Add(s2, Order("c", p, 1.0, Ask)).0, Order("d", p, 1.0, Ask)).0;
            var s4 := Reduce(s3, "b", 1.0).0;
            && Get(s4, "d") == Some(Order("d", p, 1.0, Ask))
            && "1" in s4.prices && s4.prices["1"].ids == ["c"]
            && "1" in s3.prices && RemoveId(s3.prices["1"].ids, "b") == ["c", "d"]
  {
    var p := Price("1", 1.0);
    var s2 := Reduce(Add(Add(Empty(Ask), Order("a", p, 1.0, Ask)).0, Order("b", p, 1.0, Ask)).0, "a", 2.0).0;
    OverReduceEmptiesLevel();
    RefillLevel(s2);
    assert IndexOf(["c", "d"], "b") == -1;
  }

  /** The second half of that run: `c` and `d` open a new level at the emptied price, with `b` still indexed. */
  lemma RefillLevel(s2: Levels)
    requires s2.prices == map[] && s2.index.Keys == {"a", "b"} && s2.kind == Ask
    ensures var p := Price("1", 1.0);
            var s3 := Add(Add(s2, Order("c", p, 1.0, Ask)).0, Order("d", p, 1.0, Ask)).0;
            && s3.prices == map["1" := Level(2.0, ["c", "d"])] && s3.index.Keys == {"a", "b", "c", "d"}
            && s3.index["b"] == s2.index["b"] && s3.index["d"] == Order("d", p, 1.0, Ask) && s3.kind == Ask
  {
    var p := Price("1", 1.0);
    assert "c" != "a" && "c" != "b";
    var s25 := Add(s2, Order("c", p, 1.0, Ask)).0;
    assert s25.prices == map["1" := Level(1.0, ["c"])] && s25.index.Keys == {"a", "b", "c"};
    assert "d" != "a" && "d" != "b" && "d" != "c";
    assert ["c"] + ["d"] == ["c", "d"];
  }

  /**
   * The first half of that run: reducing `a` by more than its volume empties
   * the level and leaves `b` indexed, with the splice as written and with
   * `RemoveId` alike.
   */
  lemma OverReduceEmptiesLevel()
    ensures var p := Price("1", 1.0);
            var s1 := Add(Add(Empty(Ask), Order("a", p, 1.0, Ask)).0, Order("b", p, 1.0, Ask)).0;
            var s2 := Reduce(s1, "a", 2.0).0;
            && s2.prices == map[] && s2.index.Keys == {"a", "b"} && s2.kind == Ask
            && s2.index["b"] == Order("b", p, 1.0, Ask)
            && ReduceFixed(s1, "a", 2.0).0 == s2
  {
    var p := Price("1", 1.0);
    var s0 := Add(Empty(Ask), Order("a", p, 1.0, Ask)).0;
    assert s0.prices == map["1" := Level(1.0, ["a"])] && s0.index.Keys == {"a"};
    assert "b" != "a";
    var s1 := Add(s0, Order("b", p, 1.0, Ask)).0;
    assert ["a"] + ["b"] == ["a", "b"];
    assert s1.prices == map["1" := Level(2.0, ["a", "b"])] && s1.index.Keys == {"a", "b"};
  }

  /** The removal `reduce` evidently intends: the id's first occurrence, or nothing when it is missing. */
  function RemoveId(ids: seq<string>, id: string): (r: seq<string>)
    ensures id !in ids ==> r == ids
    ensures id in ids ==> |r| == |ids| - 1 && multiset(r) == multiset(ids) - multiset{id}
  {
    var i := IndexOf(ids, id);
    if i < 0 then ids
    else
      assert ids == ids[..i] + [id] + ids[i + 1..];
      ids[..i] + ids[i + 1..]
  }

  /** The two removals agree whenever the id is listed, as the invariant guarantees for an indexed order. */
  lemma RemoveIdAgrees(ids: seq<string>, id: string)
    requires id in ids
    ensures RemoveId(ids, id) == SpliceOne(ids, IndexOf(ids, id))
  {
    var i := IndexOf(ids, id);
    assert 0 <= i < |ids|;
    assert SpliceOne(ids, i) == ids[..i] + ids[i + 1..];
  }

  /**
   * `reduce` as evidently intended: the same steps as `Reduce`, but a dropped
   * order's id leaves its level through `RemoveId`, so an unlisted id takes
   * no other id with it.
   */
  function ReduceFixed(s: Levels, id: string, amount: real): (Levels, Outcome)
  {
    if id !in s.index then (s, Fail(OrderNotFound))
    else
      var o := s.index[id];
      var remaining := o.volume - amount;
      var deleted := remaining == 0.0;
      var index := if deleted then s.index - {id} else s.index[id := o.(volume := remaining)];
      var t := o.price.text;
      if t !in s.prices then (s.(index := index), Pass)
      else
        var l := s.prices[t];
        var volume := l.volume - amount;
        var ids := if deleted then RemoveId(l.ids, o.id) else l.ids;
        if volume == 0.0 || ids == [] then (Levels(index, s.prices - {t}, Unlist(s.keys, t), s.kind), Pass)
        else (s.(index := index, prices := s.prices[t := Level(volume, ids)]), Pass)
  }

  /**
   * The corrected `reduce` drops from a surviving level at most the reduced
   * order's own id: every other listed id stays listed. It succeeds and
   * throws exactly when the written one does.
   */
  lemma ReduceFixedKeepsOthers(s: Levels, id: string, amount: real)
    ensures ReduceFixed(s, id, amount).1 == Reduce(s, id, amount).1
    ensures id in s.index && s.index[id].price.text in ReduceFixed(s, id, amount).0.prices ==>
              var t := s.index[id].price.text;
              && t in s.prices
              && forall x | x in s.prices[t].ids && x != s.index[id].id :: x in ReduceFixed(s, id, amount).0.prices[t].ids
  {
    if id in s.index {
      var o := s.index[id];
      var t := o.price.text;
      if t in s.prices && o.volume - amount == 0.0 {
        var l := s.prices[t];
        var r := RemoveId(l.ids, o.id);
        forall x | x in l.ids && x != o.id ensures x in r {
          if o.id in l.ids {
            assert multiset(r)[x] == multiset(l.ids)[x];
          }
        }
      }
    }
  }

  /** While the volume invariant holds, every dropped order is listed, so the corrected `reduce` is the written one. */
  lemma ReduceFixedAgrees(s: Levels, id: string, amount: real)
    requires Balanced(s)
    ensures ReduceFixed(s, id, amount) == Reduce(s, id, amount)
  {
    if id in s.index {
      assert Placed(s, id);
      var o := s.index[id];
      RemoveIdAgrees(s.prices[o.price.text].ids, o.id);
    }
  }

  /** On the run of `SpliceDropsAnotherOrder`, the corrected `reduce` leaves `d` listed beside `c`. */
  lemma FixedRunKeepsListed()
    ensures var p := Price("1", 1.0);
            var s1 := Add(Add(Empty(Ask), Order("a", p, 1.0, Ask)).0, Order("b", p, 1.0, Ask)).0;
            var s2 := ReduceFixed(s1, "a", 2.0).0;
            var s3 := Add(Add(s2, Order("c", p, 1.0, Ask)).0, Order("d", p, 1.0, Ask)).0;
            var s4 := ReduceFixed(s3, "b", 1.0).0;
            && Get(s4, "d") == Some(Order("d", p, 1.0, Ask))
            && "1" in s4.prices && s4.prices["1"].ids == ["c", "d"]
  {
    var p := Price("1", 1.0);
    var s1 := Add(Add(Empty(Ask), Order("a", p, 1.0, Ask)).0, Order("b", p, 1.0, Ask)).0;
    OverReduceEmptiesLevel();
    RefillLevel(ReduceFixed(s1, "a", 2.0).0);
    assert IndexOf(["c", "d"], "b") == -1;
  }
}
