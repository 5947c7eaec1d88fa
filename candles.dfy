/**
 * The `Candles` class (Candles/Candles.ts): a series of OHLCV bars at a fixed
 * interval, given in seconds while the timestamps are in milliseconds. The
 * series grows one bar at a time through `append`, which accepts a bar only
 * when it follows the latest one by exactly one interval, and it keeps an
 * index from timestamp to bar.
 *
 * `load` is asynchronous in the source. It is modelled as its two
 * synchronous halves. `LoadStart` decides whether to fetch and from which
 * timestamp. `LoadFinish` appends the page that the fetch returned and
 * decides whether to fetch again. The clock and the fetched page are
 * parameters.
 */
module CandleSeries {
  import opened Types
  import Sorting
  import CandleMath

  /** The interval in milliseconds. */
  function Span(interval: int): int
  {
    interval * 1000
  }

  /** Each bar follows the one before it by exactly one interval. */
  predicate Contiguous(data: seq<Bar>, interval: int)
  {
    forall i | 0 <= i < |data| - 1 :: data[i + 1].timestamp == data[i].timestamp + Span(interval)
  }

  /** The `_index` map as `append` fills it: each bar under its timestamp, a later bar replacing an earlier one. */
  function Indexed(data: seq<Bar>): map<int, Bar>
  {
    if data == [] then map[] else Indexed(data[..|data| - 1])[data[|data| - 1].timestamp := data[|data| - 1]]
  }

  /** The test of `append`: an empty series takes any bar, otherwise the bar must be the next one. */
  predicate Accepts(data: seq<Bar>, bar: Bar, interval: int)
  {
    data == [] || bar.timestamp - data[|data| - 1].timestamp == Span(interval)
  }

  /** The series after `append(bar)` and the count it returns. */
  function Appended(data: seq<Bar>, bar: Bar, interval: int): (seq<Bar>, nat)
  {
    if Accepts(data, bar, interval) then (data + [bar], 1) else (data, 0)
  }

  /** The `forEach` of `load` over a fetched page: every bar offered to `append`, the counts summed. */
  function AppendAll(data: seq<Bar>, page: seq<Bar>, interval: int): (seq<Bar>, nat)
  {
    if page == [] then (data, 0)
    else
      var r := AppendAll(data, page[..|page| - 1], interval);
      var a := Appended(r.0, page[|page| - 1], interval);
      (a.0, r.1 + a.1)
  }

  // ---------------------------------------------------------------- the series invariant

  lemma {:induction false} ContiguousPrefix(data: seq<Bar>, k: nat, interval: int)
    requires Contiguous(data, interval) && k <= |data|
    ensures Contiguous(data[..k], interval)
  {
    forall i | 0 <= i < k - 1 ensures data[..k][i + 1].timestamp == data[..k][i].timestamp + Span(interval) {
      assert data[..k][i + 1] == data[i + 1] && data[..k][i] == data[i];
    }
  }

  /** An accepted bar keeps the series contiguous; a rejected one leaves it as it was. */
  lemma AppendedKeepsContiguous(data: seq<Bar>, bar: Bar, interval: int)
    requires Contiguous(data, interval)
    ensures Contiguous(Appended(data, bar, interval).0, interval)
    ensures Appended(data, bar, interval).1 == 1 <==> Accepts(data, bar, interval)
    ensures Appended(data, bar, interval).1 == 0 ==> Appended(data, bar, interval).0 == data
  {
    if Accepts(data, bar, interval) {
      var d := data + [bar];
      forall i | 0 <= i < |d| - 1 ensures d[i + 1].timestamp == d[i].timestamp + Span(interval) {
        if i + 1 < |data| {
          assert d[i + 1] == data[i + 1] && d[i] == data[i];
        }
      }
    }
  }

  /**
   * Appending a page keeps what was there, adds one bar per counted
   * acceptance, each of them a bar of the page, and keeps the series
   * contiguous.
   */
  lemma {:induction false} AppendAllFacts(data: seq<Bar>, page: seq<Bar>, interval: int)
    requires Contiguous(data, interval)
    ensures var (d, n) := AppendAll(data, page, interval);
            && |d| == |data| + n && n <= |page| && d[..|data|] == data
            && Contiguous(d, interval)
            && forall i | |data| <= i < |d| :: d[i] in page
    decreases |page|
  {
    if page != [] {
      var init := page[..|page| - 1];
      var (d, n) := AppendAll(data, init, interval);
      AppendAllFacts(data, init, interval);
      AppendedKeepsContiguous(d, page[|page| - 1], interval);
      var (d', m) := Appended(d, page[|page| - 1], interval);
      assert AppendAll(data, page, interval) == (d', n + m);
      forall i | |data| <= i < |d'| ensures d'[i] in page {
        if i < |d| {
          assert d'[i] == d[i] && d[i] in init;
        } else {
          assert d'[i] == page[|page| - 1];
        }
      }
      assert d'[..|data|] == d[..|data|];
    }
  }

  /** A page that continues the series bar after bar is taken whole. */
  lemma {:induction false} AppendAllTakesContinuation(data: seq<Bar>, page: seq<Bar>, interval: int)
    requires Contiguous(data + page, interval)
    ensures AppendAll(data, page, interval) == (data + page, |page|)
    decreases |page|
  {
    if page != [] {
      var init := page[..|page| - 1];
      ContiguousPrefix(data + page, |data| + |init|, interval);
      assert (data + page)[..|data| + |init|] == data + init;
      AppendAllTakesContinuation(data, init, interval);
      var d := data + init;
      var bar := page[|page| - 1];
      assert (data + page) == d + [bar];
      if d != [] {
        assert (data + page)[|d|] == bar && (data + page)[|d| - 1] == d[|d| - 1];
      }
      assert Accepts(d, bar, interval);
      assert page[..|page| - 1] == init;
      assert Appended(d, bar, interval) == (data + page, 1);
    } else {
      assert data + page == data;
    }
  }

  /** A page none of whose bars is the next bar of a non-empty series adds nothing. */
  lemma {:induction false} AppendAllRejectsGap(data: seq<Bar>, page: seq<Bar>, interval: int)
    requires data != []
    requires forall i | 0 <= i < |page| :: page[i].timestamp != data[|data| - 1].timestamp + Span(interval)
    ensures AppendAll(data, page, interval) == (data, 0)
    decreases |page|
  {
    if page != [] {
      AppendAllRejectsGap(data, page[..|page| - 1], interval);
    }
  }

  /** With a positive interval the series is strictly ascending by timestamp. */
  lemma {:induction false} ContiguousAscending(data: seq<Bar>, interval: int)
    requires interval > 0 && Contiguous(data, interval)
    ensures forall i, j | 0 <= i < j < |data| :: data[i].timestamp < data[j].timestamp
    decreases |data|
  {
    if |data| > 1 {
      var n := |data|;
      ContiguousPrefix(data, n - 1, interval);
      ContiguousAscending(data[..n - 1], interval);
      forall i, j | 0 <= i < j < n ensures data[i].timestamp < data[j].timestamp {
        assert data[i] == data[..n - 1][i];
        if j < n - 1 {
          assert data[j] == data[..n - 1][j];
        } else if i < n - 2 {
          assert data[n - 2] == data[..n - 1][n - 2];
        }
      }
    }
  }

  /** The index maps each bar's timestamp to that bar, and holds no other timestamp. */
  lemma {:induction false} IndexedFacts(data: seq<Bar>, interval: int)
    requires interval > 0 && Contiguous(data, interval)
    ensures forall i | 0 <= i < |data| :: data[i].timestamp in Indexed(data) && Indexed(data)[data[i].timestamp] == data[i]
    ensures forall k | k in Indexed(data) :: exists i | 0 <= i < |data| :: data[i].timestamp == k
    decreases |data|
  {
    if data != [] {
      var n := |data|;
      var init := data[..n - 1];
      ContiguousPrefix(data, n - 1, interval);
      IndexedFacts(init, interval);
      ContiguousAscending(data, interval);
      forall i | 0 <= i < n ensures data[i].timestamp in Indexed(data) && Indexed(data)[data[i].timestamp] == data[i] {
        if i < n - 1 {
          assert data[i] == init[i];
          assert data[i].timestamp != data[n - 1].timestamp;
        }
      }
      forall k | k in Indexed(data) ensures exists i | 0 <= i < n :: data[i].timestamp == k {
        if k != data[n - 1].timestamp {
          var i :| 0 <= i < n - 1 && init[i].timestamp == k;
          assert data[i] == init[i];
        }
      }
    }
  }

  // ---------------------------------------------------------------- load

  /** The timestamp `load` starts from: the argument unless it is absent or 0 (falsy), else the latest bar's, else `now`. */
  function Since(data: seq<Bar>, now: int, timestamp: Option<int>): int
  {
    if timestamp.Some? && timestamp.value != 0 then timestamp.value
    else if data == [] then now
    else data[|data| - 1].timestamp
  }

  /**
   * Whether `load` fetches, and from which timestamp. It never fetches while
   * a fetch is pending, nor before one whole interval has passed since that
   * timestamp, so a series that is still empty and has no timestamp to
   * start from never fetches.
   */
  function Fetch(data: seq<Bar>, loading: bool, interval: int, now: int, timestamp: Option<int>): (r: Option<int>)
    ensures loading ==> r.None?
    ensures r.Some? ==> now - r.value >= Span(interval)
    ensures r.Some? && timestamp.Some? && timestamp.value != 0 ==> r.value == timestamp.value
    ensures r.Some? && (timestamp.None? || timestamp.value == 0) && data != [] ==> r.value == data[|data| - 1].timestamp
    ensures interval > 0 && data == [] && (timestamp.None? || timestamp.value == 0) ==> r.None?
    ensures r.None? ==> loading || now - Since(data, now, timestamp) < Span(interval)
  {
    var since := Since(data, now, timestamp);
    if now - since < Span(interval) then None
    else if loading then None
    else Some(since)
  }

  /** What `load` resolves to after a page: the count, or a further fetch from a later timestamp with the count so far. */
  datatype Next = Done(added: int) | Again(since: int, added: int)

  /**
   * The series and the outcome once the fetch from `since` has returned
   * `page` (`None` for a response that is not an array).
   */
  function Finish(data: seq<Bar>, since: int, page: Option<seq<Bar>>, added: int, interval: int): (seq<Bar>, Next)
  {
    if page.None? then (data, Done(added))
    else
      var (d, n) := AppendAll(data, page.value, interval);
      if page.value != [] && d != [] && d[|d| - 1].timestamp != since then
        (d, Again(d[|d| - 1].timestamp + Span(interval), added + n))
      else (d, Done(added + n))
  }

  /**
   * The count grows by the number of bars the series gained, the series
   * keeps its bars and stays contiguous, and a further fetch starts one
   * interval after the new latest bar.
   */
  lemma FinishFacts(data: seq<Bar>, since: int, page: Option<seq<Bar>>, added: int, interval: int)
    requires Contiguous(data, interval)
    ensures var (d, next) := Finish(data, since, page, added, interval);
            && next.added == added + (|d| - |data|)
            && |d| >= |data| && d[..|data|] == data && Contiguous(d, interval)
            && (page.None? || page == Some([]) ==> d == data && next == Done(added))
            && (next.Again? ==> d != [] && d[|d| - 1].timestamp != since && next.since == d[|d| - 1].timestamp + Span(interval))
  {
    if page.Some? {
      AppendAllFacts(data, page.value, interval);
    }
  }

  /**
   * A non-empty page none of whose bars is the next bar of a non-empty
   * series adds nothing and asks for the same next bar again: called with
   * `since` one interval after the latest bar, as the continuation is, the
   * next fetch starts from that same `since`.
   */
  lemma FinishRetriesGap(data: seq<Bar>, page: seq<Bar>, added: int, interval: int)
    requires data != [] && page != [] && interval != 0
    requires forall i | 0 <= i < |page| :: page[i].timestamp != data[|data| - 1].timestamp + Span(interval)
    ensures var since := data[|data| - 1].timestamp + Span(interval);
            Finish(data, since, Some(page), added, interval) == (data, Again(since, added))
  {
    AppendAllRejectsGap(data, page, interval);
  }

  // ---------------------------------------------------------------- the class

  class Candles {
    var data: seq<Bar>
    var index: map<int, Bar>
    const interval: int
    var loading: bool
    var initialized: bool

    /** The bars are contiguous and the index is the one `append` built from them. */
    predicate Valid()
      reads this
    {
      Contiguous(data, interval) && index == Indexed(data)
    }

    constructor (interval: int)
      ensures this.interval == interval && data == [] && index == map[]
      ensures !loading && !initialized && Valid()
    {
      this.interval := interval;
      data := [];
      index := map[];
      loading := false;
      initialized := false;
    }

    /** `calculate`: sorts `trades` in place by timestamp and returns their bars. */
    static method Calculate(trades: array<Trade>, interval: int) returns (bars: seq<Bar>)
      requires interval > 0
      modifies trades
      ensures trades[..] == Sorting.Sort(old(trades[..]), CandleMath.Time)
      ensures bars == CandleMath.Aggregate(trades[..], interval)
    {
      SortByTime(trades);
      var candles, order := TallyTrades(trades[..], interval);
      bars := seq(|order|, j requires 0 <= j < |order| => candles[order[j]]);
    }

    /** `trades.sort((a, b) => a.timestamp - b.timestamp)`, in place. */
    static method SortByTime(trades: array<Trade>)
      modifies trades
      ensures trades[..] == Sorting.Sort(old(trades[..]), CandleMath.Time)
    {
      var sorted := Sorting.Sort(trades[..], CandleMath.Time);
      Sorting.SortFacts(trades[..], CandleMath.Time);
      forall i | 0 <= i < trades.Length {
        trades[i] := sorted[i];
      }
    }

    /** The loop of `calculate`: one bar per bucket, opened by its first trade and updated by the later ones. */
    static method TallyTrades(s: seq<Trade>, interval: int) returns (candles: map<int, Bar>, order: seq<int>)
      requires interval > 0
      ensures CandleMath.Tally(candles, order) == CandleMath.Fold(s, interval)
    {
      candles := map[];
      order := [];
      var i := 0;
      while i < |s|
        invariant 0 <= i <= |s|
        invariant CandleMath.Tally(candles, order) == CandleMath.Fold(s[..i], interval)
      {
        var trade := s[i];
        var timestamp := (trade.timestamp / (interval * 1000)) * (interval * 1000);
        if timestamp !in candles {
          candles := candles[timestamp := Bar(trade.price, trade.price, trade.price, trade.price, trade.volume, timestamp)];
          order := order + [timestamp];
        } else {
          var ohlcv := candles[timestamp];
          ohlcv := ohlcv.(close := trade.price, volume := ohlcv.volume + trade.volume);
          if trade.price.value > ohlcv.high.value {
            ohlcv := ohlcv.(high := trade.price);
          } else if trade.price.value < ohlcv.low.value {
            ohlcv := ohlcv.(low := trade.price);
          }
          candles := candles[timestamp := ohlcv];
        }
        assert s[..i + 1][..i] == s[..i];
        i := i + 1;
      }
      assert s[..i] == s;
    }

    /** `getBars`: `calculate` at this series' interval. */
    method GetBars(trades: array<Trade>) returns (bars: seq<Bar>)
      requires interval > 0
      modifies trades
      ensures trades[..] == Sorting.Sort(old(trades[..]), CandleMath.Time)
      ensures bars == CandleMath.Aggregate(trades[..], interval)
    {
      bars := Calculate(trades, interval);
    }

    /** `latest`: the last bar, if any. */
    function Latest(): (r: Option<Bar>)
      reads this
      ensures r.None? <==> data == []
      ensures r.Some? ==> r.value in data && r.value == data[|data| - 1]
    {
      if |data| == 0 then None else Some(data[|data| - 1])
    }

    /** With a positive interval the latest bar is the newest one, and the index finds it. */
    lemma LatestIsNewest()
      requires Valid() && interval > 0 && data != []
      ensures Latest().Some?
      ensures forall i | 0 <= i < |data| - 1 :: data[i].timestamp < Latest().value.timestamp
      ensures Latest().value.timestamp in index && index[Latest().value.timestamp] == Latest().value
    {
      ContiguousAscending(data, interval);
      IndexedFacts(data, interval);
    }

    /** `size`: the number of bars. */
    function Size(): (n: nat)
      reads this
      ensures n == |data|
      ensures n == 0 <==> Latest().None?
    {
      |data|
    }

    function Ready(): (r: bool)
      reads this
      ensures r == initialized
    {
      initialized
    }

    method SetReady()
      modifies this`initialized
      ensures initialized
    {
      initialized := true;
    }

    /** `append`: takes the bar if it is the next one (or the first), and returns how many bars it took. */
    method Append(bar: Bar) returns (added: nat)
      requires Valid()
      modifies this`data, this`index
      ensures Valid()
      ensures (data, added) == Appended(old(data), bar, interval)
      ensures added == 0 ==> data == old(data) && index == old(index)
      ensures added == 1 ==> index == old(index)[bar.timestamp := bar]
    {
      var len := |data|;
      if len == 0 || bar.timestamp - data[len - 1].timestamp == interval * 1000 {
        data := data + [bar];
        index := index[bar.timestamp := bar];
        added := 1;
      } else {
        added := 0;
      }
      AppendedKeepsContiguous(old(data), bar, interval);
    }

    /** The first half of `load`: from which timestamp to fetch, if at all; a fetch marks the series as loading. */
    method LoadStart(now: int, timestamp: Option<int>) returns (fetch: Option<int>)
      modifies this`loading
      ensures fetch == Fetch(data, old(loading), interval, now, timestamp)
      ensures loading == (old(loading) || fetch.Some?)
    {
      var since := if timestamp.Some? && timestamp.value != 0 then timestamp.value
                   else if |data| == 0 then now
                   else data[|data| - 1].timestamp;
      if now - since < interval * 1000 {
        return None;
      }
      if loading {
        return None;
      }
      loading := true;
      fetch := Some(since);
    }

    /** The `forEach` of `load`: offers every bar of the page to `append` and sums the counts. */
    method AppendPage(page: seq<Bar>) returns (count: nat)
      requires Valid()
      modifies this`data, this`index
      ensures Valid()
      ensures (data, count) == AppendAll(old(data), page, interval)
    {
      count := 0;
      var i := 0;
      while i < |page|
        invariant 0 <= i <= |page|
        invariant Valid()
        invariant (data, count) == AppendAll(old(data), page[..i], interval)
      {
        assert page[..i + 1][..i] == page[..i];
        var n := Append(page[i]);
        count := count + n;
        i := i + 1;
      }
      assert page[..i] == page;
    }

    /** The second half of `load`: the fetch from `since` returned `page`; the count so far is `added`. */
    method LoadFinish(since: int, page: Option<seq<Bar>>, added: int) returns (next: Next)
      requires Valid()
      modifies this`data, this`index, this`loading
      ensures Valid() && !loading
      ensures (data, next) == Finish(old(data), since, page, added, interval)
    {
      loading := false;
      if page.None? {
        return Done(added);
      }
      var candles := page.value;
      var n := AppendPage(candles);
      if |candles| != 0 {
        var last := Latest();
        if last.Some? && last.value.timestamp != since {
          return Again(last.value.timestamp + interval * 1000, added + n);
        }
      }
      next := Done(added + n);
    }
  }
}
