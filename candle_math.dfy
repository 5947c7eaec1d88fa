/**
 * The aggregation of `Candles.calculate` (Candles/Candles.ts): trades,
 * sorted by timestamp, are folded into one OHLCV bar per time bucket, the
 * buckets in the order their first trade arrives.
 *
 * `Fold` is that loop as a function; `Candle(Run(s, k))` is an independent
 * description of the bar of bucket `k` (first and last price, highest and
 * lowest price, total volume), and `FoldMeaning` proves the two agree.
 */
module CandleMath {
  import opened Types
  import Sorting

  /** The comparator of `calculate`: ascending timestamp. */
  function Time(t: Trade): real
  {
    t.timestamp as real
  }

  /**
   * `Math.floor(ts / (interval * 1000)) * (interval * 1000)`: the start of the
   * bucket of a millisecond timestamp. For a positive divisor Dafny's `/`
   * rounds down, as `Math.floor` does.
   */
  function Bucket(ts: int, interval: int): int
    requires interval > 0
  {
    (ts / (interval * 1000)) * (interval * 1000)
  }

  lemma BucketMonotone(a: int, b: int, interval: int)
    requires interval > 0 && a <= b
    ensures Bucket(a, interval) <= Bucket(b, interval)
  {
    var d := interval * 1000;
    var qa, qb := a / d, b / d;
    MulGap(qa, qb, d);
    assert qa * d <= a;
    assert b < qb * d + d;
  }

  lemma MulGap(x: int, y: int, d: int)
    requires d > 0
    ensures x > y ==> x * d >= y * d + d
    ensures x <= y ==> x * d <= y * d
  {
    if x > y {
      MulAtLeast(x - y, d);
      assert (x - y) * d == x * d - y * d;
    } else if x < y {
      MulAtLeast(y - x, d);
      assert (y - x) * d == y * d - x * d;
    }
  }

  lemma {:induction false} MulAtLeast(k: int, d: int)
    requires k >= 1 && d > 0
    ensures k * d >= d
    decreases k
  {
    if k > 1 {
      MulAtLeast(k - 1, d);
      assert k * d == (k - 1) * d + d;
    }
  }

  /** The bar a bucket opens with its first trade. */
  function Open(t: Trade, k: int): Bar
  {
    Bar(t.price, t.price, t.price, t.price, t.volume, k)
  }

  /** A later trade of the bucket, as `calculate` folds it in: the `else if` tests the low only when the high did not move. */
  function Update(b: Bar, t: Trade): Bar
  {
    b.(close := t.price, volume := b.volume + t.volume,
       high := if t.price.value > b.high.value then t.price else b.high,
       low := if t.price.value > b.high.value then b.low else if t.price.value < b.low.value then t.price else b.low)
  }

  /** The same update with the high and the low compared independently. */
  function UpdateEach(b: Bar, t: Trade): Bar
  {
    b.(close := t.price, volume := b.volume + t.volume,
       high := if t.price.value > b.high.value then t.price else b.high,
       low := if t.price.value < b.low.value then t.price else b.low)
  }

  /** While a bar's low is at most its high, the `else if` changes nothing: a price above the high cannot be below the low. */
  lemma ElseIfIsIndependent(b: Bar, t: Trade)
    requires b.low.value <= b.high.value
    ensures Update(b, t) == UpdateEach(b, t)
    ensures Update(b, t).low.value <= Update(b, t).high.value
  {
  }

  /** The `Map` of `calculate`: the bars by bucket, and the buckets in insertion order. */
  datatype Tally = Tally(bars: map<int, Bar>, order: seq<int>)

  function Step(acc: Tally, t: Trade, interval: int): Tally
    requires interval > 0
  {
    var k := Bucket(t.timestamp, interval);
    if k !in acc.bars then Tally(acc.bars[k := Open(t, k)], acc.order + [k])
    else Tally(acc.bars[k := Update(acc.bars[k], t)], acc.order)
  }

  /** The loop of `calculate` over `s`. */
  function Fold(s: seq<Trade>, interval: int): (acc: Tally)
    requires interval > 0
    ensures forall j | 0 <= j < |acc.order| :: acc.order[j] in acc.bars
  {
    if s == [] then Tally(map[], [])
    else Step(Fold(s[..|s| - 1], interval), s[|s| - 1], interval)
  }

  /** `[...candles.values()]`. */
  function Values(acc: Tally): seq<Bar>
    requires forall j | 0 <= j < |acc.order| :: acc.order[j] in acc.bars
  {
    seq(|acc.order|, j requires 0 <= j < |acc.order| => acc.bars[acc.order[j]])
  }

  /** What `calculate` returns once its input is sorted into `s`. */
  function Aggregate(s: seq<Trade>, interval: int): seq<Bar>
    requires interval > 0
  {
    Values(Fold(s, interval))
  }

  // ---------------------------------------------------------------- the reference bar

  /** The trades of bucket `k`, in their order in `s`. */
  function Run(s: seq<Trade>, k: int, interval: int): seq<Trade>
    requires interval > 0
  {
    if s == [] then []
    else Run(s[..|s| - 1], k, interval) + (if Bucket(s[|s| - 1].timestamp, interval) == k then [s[|s| - 1]] else [])
  }

  /** The first price of greatest value. */
  function High(run: seq<Trade>): Price
    requires run != []
  {
    if |run| == 1 then run[0].price
    else
      var m := High(run[..|run| - 1]);
      if run[|run| - 1].price.value > m.value then run[|run| - 1].price else m
  }

  /** The first price of least value. */
  function Low(run: seq<Trade>): Price
    requires run != []
  {
    if |run| == 1 then run[0].price
    else
      var m := Low(run[..|run| - 1]);
      if run[|run| - 1].price.value < m.value then run[|run| - 1].price else m
  }

  /** The exact sum of the volumes. */
  function Volume(run: seq<Trade>): real
  {
    if run == [] then 0.0 else Volume(run[..|run| - 1]) + run[|run| - 1].volume
  }

  /** The bar of a non-empty run of trades in bucket `k`. */
  function Candle(run: seq<Trade>, k: int): Bar
    requires run != []
  {
    Bar(run[0].price, run[|run| - 1].price, High(run), Low(run), Volume(run), k)
  }

  /** `High` is a price of the run, and no price of the run is above it. */
  lemma {:induction false} HighIsMax(run: seq<Trade>)
    requires run != []
    ensures exists i | 0 <= i < |run| :: run[i].price == High(run)
    ensures forall i | 0 <= i < |run| :: run[i].price.value <= High(run).value
    decreases |run|
  {
    if |run| == 1 {
      assert run[0].price == High(run);
    } else {
      var init := run[..|run| - 1];
      HighIsMax(init);
      var i :| 0 <= i < |init| && init[i].price == High(init);
      assert run[i] == init[i];
      if run[|run| - 1].price.value > High(init).value {
        assert run[|run| - 1].price == High(run);
      } else {
        assert run[i].price == High(run);
      }
      forall j | 0 <= j < |run| ensures run[j].price.value <= High(run).value {
        if j < |init| {
          assert run[j] == init[j];
        }
      }
    }
  }

  /** `Low` is a price of the run, and no price of the run is below it. */
  lemma {:induction false} LowIsMin(run: seq<Trade>)
    requires run != []
    ensures exists i | 0 <= i < |run| :: run[i].price == Low(run)
    ensures forall i | 0 <= i < |run| :: Low(run).value <= run[i].price.value
    decreases |run|
  {
    if |run| == 1 {
      assert run[0].price == Low(run);
    } else {
      var init := run[..|run| - 1];
      LowIsMin(init);
      var i :| 0 <= i < |init| && init[i].price == Low(init);
      assert run[i] == init[i];
      if run[|run| - 1].price.value < Low(init).value {
        assert run[|run| - 1].price == Low(run);
      } else {
        assert run[i].price == Low(run);
      }
      forall j | 0 <= j < |run| ensures Low(run).value <= run[j].price.value {
        if j < |init| {
          assert run[j] == init[j];
        }
      }
    }
  }

  /** Adding a trade to a run updates its bar exactly as `calculate` does. */
  lemma CandleSnoc(run: seq<Trade>, t: Trade, k: int)
    requires run != []
    ensures Candle(run + [t], k) == Update(Candle(run, k), t)
  {
    HighIsMax(run);
    LowIsMin(run);
    assert (run + [t])[..|run|] == run;
    ElseIfIsIndependent(Candle(run, k), t);
  }

  lemma {:induction false} RunMembers(s: seq<Trade>, k: int, interval: int)
    requires interval > 0
    ensures forall t :: t in Run(s, k, interval) <==> t in s && Bucket(t.timestamp, interval) == k
    decreases |s|
  {
    if s != [] {
      RunMembers(s[..|s| - 1], k, interval);
      assert s == s[..|s| - 1] + [s[|s| - 1]];
    }
  }

  /**
   * The loop builds, for every bucket that has trades, the reference bar of
   * those trades, and for no other bucket; each bucket is listed once.
   */
  lemma {:induction false} FoldMeaning(s: seq<Trade>, interval: int)
    requires interval > 0
    ensures forall k :: k in Fold(s, interval).bars <==> Run(s, k, interval) != []
    ensures forall k | k in Fold(s, interval).bars :: Fold(s, interval).bars[k] == Candle(Run(s, k, interval), k)
    decreases |s|
  {
    if s != [] {
      var init, t := s[..|s| - 1], s[|s| - 1];
      var acc := Fold(init, interval);
      var k0 := Bucket(t.timestamp, interval);
      FoldMeaning(init, interval);
      forall k | k in Fold(s, interval).bars ensures Fold(s, interval).bars[k] == Candle(Run(s, k, interval), k) {
        assert Fold(s, interval) == Step(acc, t, interval);
        if k != k0 {
          assert Run(s, k, interval) == Run(init, k, interval) + [];
          assert Run(init, k, interval) + [] == Run(init, k, interval);
          assert Fold(s, interval).bars[k] == acc.bars[k];
        } else if k0 in acc.bars {
          assert Run(s, k, interval) == Run(init, k, interval) + [t];
          CandleSnoc(Run(init, k, interval), t, k);
          assert Fold(s, interval).bars[k] == Update(acc.bars[k], t);
        } else {
          assert Run(init, k, interval) == [];
          assert Run(s, k, interval) == [] + [t];
          assert [] + [t] == [t];
          assert Fold(s, interval).bars[k] == Open(t, k);
          assert [t][..0] == [];
          assert High([t]) == t.price && Low([t]) == t.price;
          assert Volume([t]) == Volume([]) + t.volume;
        }
      }
    }
  }

  /** The loop lists each bucket once, exactly the buckets it has bars for, each the bucket of some trade. */
  lemma {:induction false} FoldKeys(s: seq<Trade>, interval: int)
    requires interval > 0
    ensures var acc := Fold(s, interval);
            && Distinct(acc.order)
            && (forall k :: k in acc.order <==> k in acc.bars)
            && (forall j | 0 <= j < |acc.order| :: exists m | 0 <= m < |s| :: Bucket(s[m].timestamp, interval) == acc.order[j])
    decreases |s|
  {
    if s != [] {
      var init, t := s[..|s| - 1], s[|s| - 1];
      var acc := Fold(init, interval);
      var k0 := Bucket(t.timestamp, interval);
      FoldKeys(init, interval);
      var order := Fold(s, interval).order;
      forall j | 0 <= j < |order| ensures exists m | 0 <= m < |s| :: Bucket(s[m].timestamp, interval) == order[j] {
        if j < |acc.order| {
          assert order[j] == acc.order[j];
          var m :| 0 <= m < |init| && Bucket(init[m].timestamp, interval) == acc.order[j];
          assert s[m] == init[m];
        } else {
          assert Bucket(s[|s| - 1].timestamp, interval) == order[j];
        }
      }
      if k0 !in acc.bars {
        DistinctSnoc(acc.order, k0);
      }
    }
  }

  lemma DistinctSnoc(s: seq<int>, x: int)
    requires Distinct(s) && x !in s
    ensures Distinct(s + [x])
  {
    forall i, j | 0 <= i < j < |s| + 1 ensures (s + [x])[i] != (s + [x])[j] {
      if j == |s| {
        assert (s + [x])[i] == s[i];
      }
    }
  }

  /** For trades in timestamp order, the buckets are listed in increasing order, none above the last trade's. */
  lemma {:induction false} FoldAscending(s: seq<Trade>, interval: int)
    requires interval > 0 && Sorting.Ascending(s, Time)
    ensures var order := Fold(s, interval).order;
            forall i, j | 0 <= i < j < |order| :: order[i] < order[j]
    ensures s != [] ==> forall k | k in Fold(s, interval).order :: k <= Bucket(s[|s| - 1].timestamp, interval)
    decreases |s|
  {
    if s != [] {
      var init, t := s[..|s| - 1], s[|s| - 1];
      var k0 := Bucket(t.timestamp, interval);
      assert Sorting.Ascending(init, Time);
      FoldAscending(init, interval);
      FoldKeys(init, interval);
      var order := Fold(init, interval).order;
      forall i | 0 <= i < |order| ensures order[i] <= k0 {
        var m :| 0 <= m < |init| && Bucket(init[m].timestamp, interval) == order[i];
        assert Time(s[m]) <= Time(s[|s| - 1]);
        BucketMonotone(init[m].timestamp, t.timestamp, interval);
      }
      if k0 !in Fold(init, interval).bars {
        assert k0 !in order;
        var order' := order + [k0];
        assert Fold(s, interval).order == order';
        forall i, j | 0 <= i < j < |order'| ensures order'[i] < order'[j] {
          assert order'[i] == order[i];
          if j == |order| {
            assert order'[j] == k0 && order[i] in order;
          } else {
            assert order'[j] == order[j];
          }
        }
      } else {
        assert Fold(s, interval).order == order;
      }
    }
  }

  /** The bars of `Aggregate` are the tallied bars in bucket order, each stamped with its bucket. */
  lemma AggregateListsOrder(s: seq<Trade>, interval: int)
    requires interval > 0
    ensures var acc := Fold(s, interval);
            var bars := Aggregate(s, interval);
            && |bars| == |acc.order|
            && forall j | 0 <= j < |bars| ::
                 bars[j] == acc.bars[acc.order[j]] && bars[j].timestamp == acc.order[j]
                 && Run(s, acc.order[j], interval) != []
                 && bars[j] == Candle(Run(s, acc.order[j], interval), acc.order[j])
  {
    var acc := Fold(s, interval);
    FoldMeaning(s, interval);
    FoldKeys(s, interval);
    forall j | 0 <= j < |acc.order| ensures acc.order[j] in acc.bars && Run(s, acc.order[j], interval) != [] {
      assert acc.order[j] in acc.order;
    }
  }

  /**
   * `calculate` of trades in timestamp order: the bars ascend strictly by
   * timestamp, each is the reference bar of its bucket's trades, and every
   * trade's bucket has its bar, so each trade is counted in exactly one bar.
   */
  lemma AggregateFacts(s: seq<Trade>, interval: int)
    requires interval > 0 && Sorting.Ascending(s, Time)
    ensures var bars := Aggregate(s, interval);
            && (forall i, j | 0 <= i < j < |bars| :: bars[i].timestamp < bars[j].timestamp)
            && (forall j | 0 <= j < |bars| ::
                  Run(s, bars[j].timestamp, interval) != []
                  && bars[j] == Candle(Run(s, bars[j].timestamp, interval), bars[j].timestamp))
            && (forall t | t in s :: exists j | 0 <= j < |bars| :: bars[j].timestamp == Bucket(t.timestamp, interval))
  {
    var acc := Fold(s, interval);
    var bars := Aggregate(s, interval);
    AggregateListsOrder(s, interval);
    FoldAscending(s, interval);
    forall t | t in s ensures exists j | 0 <= j < |bars| :: bars[j].timestamp == Bucket(t.timestamp, interval) {
      var k := Bucket(t.timestamp, interval);
      RunMembers(s, k, interval);
      FoldMeaning(s, interval);
      FoldKeys(s, interval);
      assert t in Run(s, k, interval);
      assert k in acc.order;
      var j :| 0 <= j < |acc.order| && acc.order[j] == k;
    }
  }

  /** `calculate([])` is `[]`. */
  lemma AggregateEmpty(interval: int)
    requires interval > 0
    ensures Aggregate([], interval) == []
  {
  }

  /** The reference bar opens at the first trade, closes at the last, and spans the run's prices. */
  lemma CandleFacts(run: seq<Trade>, k: int)
    requires run != []
    ensures var b := Candle(run, k);
            && b.open == run[0].price && b.close == run[|run| - 1].price && b.volume == Volume(run) && b.timestamp == k
            && (forall i | 0 <= i < |run| :: b.low.value <= run[i].price.value <= b.high.value)
            && (exists i | 0 <= i < |run| :: run[i].price == b.high)
            && (exists i | 0 <= i < |run| :: run[i].price == b.low)
  {
    HighIsMax(run);
    LowIsMin(run);
  }
}
