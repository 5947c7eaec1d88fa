/**
 * What `Candles.calculate` returns for trades in any order. It sorts them by
 * timestamp with a stable sort, so a bar opens at the earliest trade of its
 * bucket and closes at the latest, trades at the same millisecond being
 * taken in their input order; its volume, high and low do not depend on
 * the order at all.
 */
module CandleOrder {
  import opened Types
  import Sorting
  import opened CandleMath

  /** The last element of a non-empty sequence. */
  function LastOf<T>(s: seq<T>): T
    requires s != []
  {
    s[|s| - 1]
  }

  // ---------------------------------------------------------------- positions in a run

  /** The first trade of a bucket's run is the first trade of that bucket in the sequence. */
  lemma {:induction false} RunFirst(x: seq<Trade>, k: int, interval: int)
    requires interval > 0 && Run(x, k, interval) != []
    ensures exists p | 0 <= p < |x| ::
              x[p] == Run(x, k, interval)[0] && Bucket(x[p].timestamp, interval) == k
              && forall q | 0 <= q < p :: Bucket(x[q].timestamp, interval) != k
    decreases |x|
  {
    var n := |x|;
    var init := x[..n - 1];
    if Run(init, k, interval) != [] {
      RunFirst(init, k, interval);
      var p :| 0 <= p < |init| && init[p] == Run(init, k, interval)[0] && Bucket(init[p].timestamp, interval) == k
               && forall q | 0 <= q < p :: Bucket(init[q].timestamp, interval) != k;
      assert Run(x, k, interval)[0] == Run(init, k, interval)[0];
      assert x[p] == init[p];
      forall q | 0 <= q < p ensures Bucket(x[q].timestamp, interval) != k {
        assert x[q] == init[q];
      }
    } else {
      RunMembers(init, k, interval);
      assert Run(x, k, interval) == [x[n - 1]];
      forall q | 0 <= q < n - 1 ensures Bucket(x[q].timestamp, interval) != k {
        assert x[q] == init[q] && init[q] in init;
      }
    }
  }

  /** The last trade of a bucket's run is the last trade of that bucket in the sequence. */
  lemma {:induction false} RunLast(x: seq<Trade>, k: int, interval: int)
    requires interval > 0 && Run(x, k, interval) != []
    ensures exists p | 0 <= p < |x| ::
              x[p] == LastOf(Run(x, k, interval)) && Bucket(x[p].timestamp, interval) == k
              && forall q | p < q < |x| :: Bucket(x[q].timestamp, interval) != k
    decreases |x|
  {
    var n := |x|;
    var init := x[..n - 1];
    var r := Run(x, k, interval);
    if Bucket(x[n - 1].timestamp, interval) == k {
      assert x[n - 1] == LastOf(r);
    } else {
      assert r == Run(init, k, interval) + [];
      assert r == Run(init, k, interval);
      RunLast(init, k, interval);
      var p :| 0 <= p < |init| && init[p] == LastOf(r) && Bucket(init[p].timestamp, interval) == k
               && forall q | p < q < |init| :: Bucket(init[q].timestamp, interval) != k;
      assert x[p] == init[p];
      forall q | p < q < n ensures Bucket(x[q].timestamp, interval) != k {
        if q < n - 1 {
          assert x[q] == init[q];
        }
      }
    }
  }

  // ---------------------------------------------------------------- positions in a tier

  lemma {:induction false} TierFirst<T>(x: seq<T>, key: T -> real, v: real, p: int)
    requires 0 <= p < |x| && key(x[p]) == v
    requires forall q | 0 <= q < p :: key(x[q]) != v
    ensures Sorting.Tier(x, key, v) != [] && Sorting.Tier(x, key, v)[0] == x[p]
    decreases p
  {
    if p > 0 {
      TierFirst(x[1..], key, v, p - 1);
      assert Sorting.Tier(x, key, v) == [] + Sorting.Tier(x[1..], key, v);
    }
  }

  lemma {:induction false} TierNone<T>(x: seq<T>, key: T -> real, v: real)
    requires forall q | 0 <= q < |x| :: key(x[q]) != v
    ensures Sorting.Tier(x, key, v) == []
    decreases |x|
  {
    if x != [] {
      TierNone(x[1..], key, v);
      assert Sorting.Tier(x, key, v) == [] + [];
    }
  }

  lemma {:induction false} TierLast<T>(x: seq<T>, key: T -> real, v: real, p: int)
    requires 0 <= p < |x| && key(x[p]) == v
    requires forall q | p < q < |x| :: key(x[q]) != v
    ensures Sorting.Tier(x, key, v) != [] && LastOf(Sorting.Tier(x, key, v)) == x[p]
    decreases p
  {
    var head := if key(x[0]) == v then [x[0]] else [];
    if p == 0 {
      TierNone(x[1..], key, v);
      assert Sorting.Tier(x, key, v) == [x[0]] + [];
    } else {
      TierLast(x[1..], key, v, p - 1);
      var rest := Sorting.Tier(x[1..], key, v);
      assert Sorting.Tier(x, key, v) == head + rest;
      assert LastOf(head + rest) == LastOf(rest);
    }
  }

  // ---------------------------------------------------------------- the sum of a permutation

  lemma {:induction false} VolumeAppend(a: seq<Trade>, b: seq<Trade>)
    ensures Volume(a + b) == Volume(a) + Volume(b)
    decreases |b|
  {
    if b == [] {
      assert a + b == a;
    } else {
      var b' := b[..|b| - 1];
      VolumeAppend(a, b');
      assert (a + b)[..|a + b| - 1] == a + b';
    }
  }

  /** The total volume of trades does not depend on their order. */
  lemma {:induction false} VolumePermutation(a: seq<Trade>, b: seq<Trade>)
    requires multiset(a) == multiset(b)
    ensures Volume(a) == Volume(b)
    decreases |a|
  {
    if a != [] {
      var t := a[|a| - 1];
      var a' := a[..|a| - 1];
      assert a == a' + [t];
      assert t in multiset(b);
      var i :| 0 <= i < |b| && b[i] == t;
      var b' := b[..i] + b[i + 1..];
      assert b == b[..i] + [t] + b[i + 1..];
      assert multiset(a') == multiset(a) - multiset{t};
      assert multiset(b') == multiset(b) - multiset{t};
      VolumePermutation(a', b');
      VolumeAppend(b[..i] + [t], b[i + 1..]);
      VolumeAppend(b[..i], [t]);
      VolumeAppend(b[..i], b[i + 1..]);
      assert Volume([t]) == Volume([]) + t.volume;
    }
  }

  /** A bucket's run holds each trade of the bucket as often as the sequence does. */
  lemma {:induction false} RunMultiset(x: seq<Trade>, k: int, interval: int)
    requires interval > 0
    ensures forall t :: multiset(Run(x, k, interval))[t] == if Bucket(t.timestamp, interval) == k then multiset(x)[t] else 0
    decreases |x|
  {
    if x != [] {
      RunMultiset(x[..|x| - 1], k, interval);
      assert x == x[..|x| - 1] + [x[|x| - 1]];
    }
  }

  lemma RunPermutation(x: seq<Trade>, s: seq<Trade>, k: int, interval: int)
    requires interval > 0 && multiset(x) == multiset(s)
    ensures multiset(Run(x, k, interval)) == multiset(Run(s, k, interval))
  {
    RunMultiset(x, k, interval);
    RunMultiset(s, k, interval);
  }

  // ---------------------------------------------------------------- the bars of calculate

  /** `calculate(s)`: the bars of `s` once sorted by timestamp. */
  function Calculated(s: seq<Trade>, interval: int): seq<Bar>
    requires interval > 0
  {
    Aggregate(Sorting.Sort(s, Time), interval)
  }

  /** Each bar of `calculate(s)` is the reference bar of its bucket's run in the sorted trades. */
  lemma CalculatedBar(s: seq<Trade>, interval: int, j: int)
    requires interval > 0 && 0 <= j < |Calculated(s, interval)|
    ensures var x := Sorting.Sort(s, Time);
            var bar := Calculated(s, interval)[j];
            && Run(x, bar.timestamp, interval) != []
            && bar == Candle(Run(x, bar.timestamp, interval), bar.timestamp)
  {
    AggregateListsOrder(Sorting.Sort(s, Time), interval);
  }

  /**
   * The bars ascend strictly by timestamp, so no two share a bucket, and
   * every trade of `s` has the bar of its bucket.
   */
  lemma CalculatedBuckets(s: seq<Trade>, interval: int)
    requires interval > 0
    ensures var bars := Calculated(s, interval);
            && (forall i, j | 0 <= i < j < |bars| :: bars[i].timestamp < bars[j].timestamp)
            && (forall t | t in s :: exists j | 0 <= j < |bars| :: bars[j].timestamp == Bucket(t.timestamp, interval))
  {
    var x := Sorting.Sort(s, Time);
    Sorting.SortFacts(s, Time);
    AggregateFacts(x, interval);
    var bars := Calculated(s, interval);
    forall t | t in s ensures exists j | 0 <= j < |bars| :: bars[j].timestamp == Bucket(t.timestamp, interval) {
      assert t in multiset(x);
      assert t in x;
    }
  }

  /** Every bar is the bar of a bucket that holds a trade of `s`: there are no filler bars. */
  lemma NoFillerBars(s: seq<Trade>, interval: int)
    requires interval > 0
    ensures var bars := Calculated(s, interval);
            forall j | 0 <= j < |bars| :: exists t | t in s :: Bucket(t.timestamp, interval) == bars[j].timestamp
  {
    var x := Sorting.Sort(s, Time);
    Sorting.SortFacts(s, Time);
    var bars := Calculated(s, interval);
    forall j | 0 <= j < |bars| ensures exists t | t in s :: Bucket(t.timestamp, interval) == bars[j].timestamp {
      CalculatedBar(s, interval, j);
      var r := Run(x, bars[j].timestamp, interval);
      RunMembers(x, bars[j].timestamp, interval);
      assert r[0] in r;
      assert r[0] in multiset(x);
    }
  }

  /** In sorted trades, no trade of a bucket comes before the first one at index `p`, so none is earlier. */
  lemma EarliestAt(x: seq<Trade>, p: int, interval: int)
    requires interval > 0 && Sorting.Ascending(x, Time) && 0 <= p < |x|
    requires forall q | 0 <= q < p :: Bucket(x[q].timestamp, interval) != Bucket(x[p].timestamp, interval)
    ensures forall u | u in x && Bucket(u.timestamp, interval) == Bucket(x[p].timestamp, interval) :: x[p].timestamp <= u.timestamp
    ensures Sorting.Tier(x, Time, Time(x[p])) != [] && Sorting.Tier(x, Time, Time(x[p]))[0] == x[p]
  {
    var k := Bucket(x[p].timestamp, interval);
    forall u | u in x && Bucket(u.timestamp, interval) == k ensures x[p].timestamp <= u.timestamp {
      var qu :| 0 <= qu < |x| && x[qu] == u;
      assert p <= qu;
      assert Time(x[p]) <= Time(x[qu]);
    }
    forall q | 0 <= q < p ensures Time(x[q]) != Time(x[p]) {
      assert Bucket(x[q].timestamp, interval) != k;
    }
    TierFirst(x, Time, Time(x[p]), p);
  }

  /** In sorted trades, no trade of a bucket comes after the last one at index `p`, so none is later. */
  lemma LatestAt(x: seq<Trade>, p: int, interval: int)
    requires interval > 0 && Sorting.Ascending(x, Time) && 0 <= p < |x|
    requires forall q | p < q < |x| :: Bucket(x[q].timestamp, interval) != Bucket(x[p].timestamp, interval)
    ensures forall u | u in x && Bucket(u.timestamp, interval) == Bucket(x[p].timestamp, interval) :: u.timestamp <= x[p].timestamp
    ensures Sorting.Tier(x, Time, Time(x[p])) != [] && LastOf(Sorting.Tier(x, Time, Time(x[p]))) == x[p]
  {
    var k := Bucket(x[p].timestamp, interval);
    forall u | u in x && Bucket(u.timestamp, interval) == k ensures u.timestamp <= x[p].timestamp {
      var qu :| 0 <= qu < |x| && x[qu] == u;
      assert qu <= p;
      assert Time(x[qu]) <= Time(x[p]);
    }
    forall q | p < q < |x| ensures Time(x[q]) != Time(x[p]) {
      assert Bucket(x[q].timestamp, interval) != k;
    }
    TierLast(x, Time, Time(x[p]), p);
  }

  /**
   * In trades sorted by timestamp, the first trade of a bucket's run is the
   * earliest of the bucket, and the first of the trades at its millisecond.
   */
  lemma FirstOfBucket(x: seq<Trade>, k: int, interval: int)
    requires interval > 0 && Sorting.Ascending(x, Time) && Run(x, k, interval) != []
    ensures var t := Run(x, k, interval)[0];
            && t in x && Bucket(t.timestamp, interval) == k
            && (forall u | u in x && Bucket(u.timestamp, interval) == k :: t.timestamp <= u.timestamp)
            && Sorting.Tier(x, Time, Time(t)) != [] && Sorting.Tier(x, Time, Time(t))[0] == t
  {
    RunFirst(x, k, interval);
    var p :| 0 <= p < |x| && x[p] == Run(x, k, interval)[0] && Bucket(x[p].timestamp, interval) == k
             && forall q | 0 <= q < p :: Bucket(x[q].timestamp, interval) != k;
    EarliestAt(x, p, interval);
  }

  /**
   * In trades sorted by timestamp, the last trade of a bucket's run is the
   * latest of the bucket, and the last of the trades at its millisecond.
   */
  lemma LastOfBucket(x: seq<Trade>, k: int, interval: int)
    requires interval > 0 && Sorting.Ascending(x, Time) && Run(x, k, interval) != []
    ensures var t := LastOf(Run(x, k, interval));
            && t in x && Bucket(t.timestamp, interval) == k
            && (forall u | u in x && Bucket(u.timestamp, interval) == k :: u.timestamp <= t.timestamp)
            && Sorting.Tier(x, Time, Time(t)) != [] && LastOf(Sorting.Tier(x, Time, Time(t))) == t
  {
    RunLast(x, k, interval);
    var p :| 0 <= p < |x| && x[p] == LastOf(Run(x, k, interval)) && Bucket(x[p].timestamp, interval) == k
             && forall q | p < q < |x| :: Bucket(x[q].timestamp, interval) != k;
    LatestAt(x, p, interval);
  }

  /**
   * A bar opens at the price of the earliest trade of its bucket; among
   * trades at that same millisecond, the first one in the input.
   */
  lemma OpenIsEarliest(s: seq<Trade>, interval: int, j: int)
    requires interval > 0 && 0 <= j < |Calculated(s, interval)|
    ensures var bar := Calculated(s, interval)[j];
            exists t | t in s ::
              Bucket(t.timestamp, interval) == bar.timestamp && bar.open == t.price
              && (forall u | u in s && Bucket(u.timestamp, interval) == bar.timestamp :: t.timestamp <= u.timestamp)
              && Sorting.Tier(s, Time, Time(t)) != [] && Sorting.Tier(s, Time, Time(t))[0] == t
  {
    var x := Sorting.Sort(s, Time);
    Sorting.SortFacts(s, Time);
    CalculatedBar(s, interval, j);
    var bar := Calculated(s, interval)[j];
    var k := bar.timestamp;
    FirstOfBucket(x, k, interval);
    var t := Run(x, k, interval)[0];
    assert t in multiset(x);
    forall u | u in s && Bucket(u.timestamp, interval) == k ensures t.timestamp <= u.timestamp {
      assert u in multiset(x);
    }
    assert Sorting.Tier(x, Time, Time(t)) == Sorting.Tier(s, Time, Time(t));
  }

  /**
   * A bar closes at the price of the latest trade of its bucket; among
   * trades at that same millisecond, the last one in the input.
   */
  lemma CloseIsLatest(s: seq<Trade>, interval: int, j: int)
    requires interval > 0 && 0 <= j < |Calculated(s, interval)|
    ensures var bar := Calculated(s, interval)[j];
            exists t | t in s ::
              Bucket(t.timestamp, interval) == bar.timestamp && bar.close == t.price
              && (forall u | u in s && Bucket(u.timestamp, interval) == bar.timestamp :: u.timestamp <= t.timestamp)
              && Sorting.Tier(s, Time, Time(t)) != [] && LastOf(Sorting.Tier(s, Time, Time(t))) == t
  {
    var x := Sorting.Sort(s, Time);
    Sorting.SortFacts(s, Time);
    CalculatedBar(s, interval, j);
    var bar := Calculated(s, interval)[j];
    var k := bar.timestamp;
    LastOfBucket(x, k, interval);
    var r := Run(x, k, interval);
    var t := LastOf(r);
    assert t in multiset(x);
    forall u | u in s && Bucket(u.timestamp, interval) == k ensures u.timestamp <= t.timestamp {
      assert u in multiset(x);
    }
    assert Sorting.Tier(x, Time, Time(t)) == Sorting.Tier(s, Time, Time(t));
  }

  /**
   * A bar's volume is the exact sum of its bucket's trade volumes, and its
   * high and low are the greatest and least of their prices, whatever the
   * input order.
   */
  lemma BarSpansBucket(s: seq<Trade>, interval: int, j: int)
    requires interval > 0 && 0 <= j < |Calculated(s, interval)|
    ensures var bar := Calculated(s, interval)[j];
            && bar.volume == Volume(Run(s, bar.timestamp, interval))
            && (forall u | u in s && Bucket(u.timestamp, interval) == bar.timestamp :: bar.low.value <= u.price.value <= bar.high.value)
            && (exists u | u in s && Bucket(u.timestamp, interval) == bar.timestamp :: u.price == bar.high)
            && (exists u | u in s && Bucket(u.timestamp, interval) == bar.timestamp :: u.price == bar.low)
  {
    var x := Sorting.Sort(s, Time);
    Sorting.SortFacts(s, Time);
    CalculatedBar(s, interval, j);
    var bar := Calculated(s, interval)[j];
    var k := bar.timestamp;
    var r := Run(x, k, interval);
    RunPermutation(x, s, k, interval);
    VolumePermutation(r, Run(s, k, interval));
    CandleFacts(r, k);
    RunMembers(x, k, interval);
    forall u | u in s && Bucket(u.timestamp, interval) == k ensures bar.low.value <= u.price.value <= bar.high.value {
      assert u in multiset(x);
      assert u in r;
    }
    var h :| 0 <= h < |r| && r[h].price == bar.high;
    assert r[h] in r && r[h] in multiset(x);
    var l :| 0 <= l < |r| && r[l].price == bar.low;
    assert r[l] in r && r[l] in multiset(x);
  }
}
